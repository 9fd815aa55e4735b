// What reading a table adds up to, and when it does not depend on the order in which lua_next enumerates.
module LuaOrder {
  import opened JsonModel
  import opened LuaMachine
  import opened LuaRead

  // ---- What reading gives ----

  /** root is what the entries under the keys in dom add up to, each key having the value vals gives it. */
  ghost predicate Assembles(root: Json, vals: map<LuaValue, Json>, dom: set<LuaValue>)
    requires dom <= vals.Keys && forall key | key in dom :: IsIndexKey(key) || key.Text?
  {
    if dom == {} then root == Null
    else
      && (root.Arr? || root.Obj?)
      && (root.Arr? ==> forall key | key in dom :: IsIndexKey(key))
      && (root.Obj? ==> forall key | key in dom :: key.Text?)
      && (forall key | key in dom :: MemberOf(key) in Kids(root) && Kids(root)[MemberOf(key)] == vals[key])
      && (forall m | m in Kids(root) :: exists key :: key in dom && MemberOf(key) == m)
  }

  lemma AssemblesOnce(a: Json, b: Json, vals: map<LuaValue, Json>, dom: set<LuaValue>)
    requires dom <= vals.Keys && forall key | key in dom :: IsIndexKey(key) || key.Text?
    requires Assembles(a, vals, dom) && Assembles(b, vals, dom)
    ensures a == b
  {
    hide IsIndexKey, MemberOf, Kids;
    if dom != {} {
      var key :| key in dom;
      KindOfKey(a, vals, dom, key);
      KindOfKey(b, vals, dom, key);
      assert Kids(a) == Kids(b);
      SameContainer(a, b);
    }
  }

  /** Names that become the same after truncation have the same value. */
  ghost predicate Consistent(vals: map<LuaValue, Json>) {
    forall k1, k2 | k1 in vals && k2 in vals && k1.Text? && k2.Text? && CStr(k1.s) == CStr(k2.s) ::
      vals[k1] == vals[k2]
  }

  lemma SameMember(k1: LuaValue, k2: LuaValue)
    requires (IsIndexKey(k1) && IsIndexKey(k2)) || (k1.Text? && k2.Text?)
    requires MemberOf(k1) == MemberOf(k2)
    ensures k1 == k2 || (k1.Text? && k2.Text? && CStr(k1.s) == CStr(k2.s))
  {
  }

  /** The members of the container after one more entry. */
  lemma StoreAdds(root: Json, key: LuaValue, value: Json)
    requires root.Null? || (root.Arr? && IsIndexKey(key)) || (root.Obj? && key.Text?)
    requires IsIndexKey(key) || key.Text?
    ensures var next := Store(root, key, value);
            next.Got? && Kids(next.value) == Kids(root)[MemberOf(key) := value] &&
            if IsIndexKey(key) then next.value.Arr? else next.value.Obj?
  {
    hide CStr;
  }

  /** Keys of one kind, as all keys of a container are. */
  ghost predicate OneKind(dom: set<LuaValue>) {
    (forall k | k in dom :: IsIndexKey(k)) || (forall k | k in dom :: k.Text?)
  }

  lemma MoreValues(root: Json, vals: map<LuaValue, Json>, dom: set<LuaValue>, key: LuaValue)
    requires dom <= vals.Keys && key in vals && Consistent(vals) && OneKind(dom + {key})
    requires forall k | k in dom + {key} :: IsIndexKey(k) || k.Text?
    requires Assembles(root, vals, dom)
    ensures var kids := Kids(root)[MemberOf(key) := vals[key]];
            && (forall k | k in dom + {key} :: MemberOf(k) in kids && kids[MemberOf(k)] == vals[k])
            && (forall m | m in kids :: exists k :: k in dom + {key} && MemberOf(k) == m)
  {
    assert dom == {} ==> Kids(root) == map[];
    hide CStr, MemberOf, Kids;
    var kids := Kids(root)[MemberOf(key) := vals[key]];
    assert forall k | k in dom :: k in dom + {key};
    forall k | k in dom + {key} ensures MemberOf(k) in kids && kids[MemberOf(k)] == vals[k] {
      if MemberOf(k) == MemberOf(key) {
        SameMember(k, key);
      }
    }
    forall m | m in kids ensures exists k :: k in dom + {key} && MemberOf(k) == m {
      if m != MemberOf(key) {
        var k :| k in dom && MemberOf(k) == m;
        assert k in dom + {key};
      } else {
        assert key in dom + {key};
      }
    }
  }

  lemma AssemblesMore(root: Json, vals: map<LuaValue, Json>, dom: set<LuaValue>, key: LuaValue)
    requires dom <= vals.Keys && key in vals && Consistent(vals)
    requires (forall k | k in dom + {key} :: IsIndexKey(k)) || (forall k | k in dom + {key} :: k.Text?)
    requires Assembles(root, vals, dom)
    ensures Store(root, key, vals[key]).Got? && Assembles(Store(root, key, vals[key]).value, vals, dom + {key})
  {
    hide CStr, Store, MemberOf, Kids, Consistent;
    assert key in dom + {key};
    assert forall k | k in dom :: k in dom + {key};
    if dom != {} {
      var k :| k in dom;
      assert root.Arr? ==> IsIndexKey(k);
      assert root.Obj? ==> k.Text?;
    }
    StoreAdds(root, key, vals[key]);
    MoreValues(root, vals, dom, key);
  }

  lemma {:induction false} EntriesAssemble(tables: seq<LuaTable>, t: LuaTable, p: nat, root: Json, recursion: nat,
                                           vals: map<LuaValue, Json>)
    requires p <= |t.order| && recursion <= MAX_RECURSION && IsOrderOf(t.order, t.content) && Uniform(t.content)
    requires vals.Keys == t.content.Keys && Consistent(vals)
    requires forall key | key in t.content ::
               ReadValue(tables, t.content[key], Null, recursion + 1) == Got(vals[key])
    requires forall q | 0 <= q < p :: t.order[q] in t.content
    requires Assembles(root, vals, Visited(t, p))
    ensures var r := ReadEntries(tables, t, p, root, recursion);
            r.Got? && Assembles(r.value, vals, t.content.Keys)
    decreases |t.order| - p
  {
    hide Assembles, Consistent, CStr, ReadValue, Store, IsIndexKey;
    if p < |t.order| {
      var key := t.order[p];
      assert key in t.content;
      assert Visited(t, p + 1) == Visited(t, p) + {key};
      assert forall k | k in Visited(t, p + 1) :: k in t.content;
      AssemblesMore(root, vals, Visited(t, p), key);
      EntriesAssemble(tables, t, p + 1, Store(root, key, vals[key]).value, recursion, vals);
    } else {
      assert forall k | k in t.content :: k in t.order;
      assert Visited(t, p) == t.content.Keys;
    }
  }

  // ---- Independence of the traversal order ----

  ghost predicate SameContents(a: seq<LuaTable>, b: seq<LuaTable>) {
    |a| == |b| && forall i | 0 <= i < |a| :: a[i].content == b[i].content
  }

  /** Keys that are cut to the same member. */
  predicate SameKey(k1: LuaValue, k2: LuaValue) {
    k1 == k2 || (k1.Text? && k2.Text? && CStr(k1.s) == CStr(k2.s))
  }

  /** Two values that can be read are read alike: equal, or tables with the same members, read alike in turn. */
  ghost predicate Alike(tables: seq<LuaTable>, x: LuaValue, y: LuaValue, recursion: nat)
    decreases Budget(recursion), 1
  {
    if x.Table? && y.Table? && recursion <= MAX_RECURSION then
      && x.id < |tables| && y.id < |tables|
      && Covers(tables, tables[x.id].content, tables[y.id].content, recursion)
      && Covers(tables, tables[y.id].content, tables[x.id].content, recursion)
    else
      x == y
  }

  /** Every entry of a has its like in b. */
  ghost predicate Covers(tables: seq<LuaTable>, a: map<LuaValue, LuaValue>, b: map<LuaValue, LuaValue>, recursion: nat)
    requires recursion <= MAX_RECURSION
    decreases Budget(recursion), 0
  {
    forall k1 | k1 in a :: exists k2 :: k2 in b && SameKey(k1, k2) && Alike(tables, a[k1], b[k2], recursion + 1)
  }

  /** In every table the walk visits, names that agree up to their first NUL have values that are read alike. Nothing
      here depends on an order. */
  ghost predicate Determined(tables: seq<LuaTable>, v: LuaValue, recursion: nat)
    decreases Budget(recursion)
  {
    recursion <= MAX_RECURSION && v.Table? && v.id < |tables| ==>
      var content := tables[v.id].content;
      && (forall key | key in content :: Determined(tables, content[key], recursion + 1))
      && (forall k1, k2 | k1 in content && k2 in content && SameKey(k1, k2) ::
            Alike(tables, content[k1], content[k2], recursion + 1))
  }

  /** Two heaps with the same contents read v alike. */
  ghost predicate SameResult(a: seq<LuaTable>, b: seq<LuaTable>, v: LuaValue, recursion: nat) {
    var x, y := ReadValue(a, v, Null, recursion), ReadValue(b, v, Null, recursion);
    x == y || (!x.Got? && !y.Got?)
  }

  /** Whatever the traversal orders, v is read alike. */
  ghost predicate OrderFree(a: seq<LuaTable>, v: LuaValue, recursion: nat) {
    forall b | WfHeap(b) && SameContents(a, b) :: SameResult(a, b, v, recursion)
  }

  lemma {:induction false} ReadableIsOrderFree(a: seq<LuaTable>, b: seq<LuaTable>, v: LuaValue, recursion: nat)
    requires SameContents(a, b)
    ensures Readable(a, v, recursion) == Readable(b, v, recursion)
    decreases Budget(recursion)
  {
    if recursion <= MAX_RECURSION && v.Table? && v.id < |a| {
      forall key | key in a[v.id].content
        ensures Readable(a, a[v.id].content[key], recursion + 1) == Readable(b, a[v.id].content[key], recursion + 1)
      {
        ReadableIsOrderFree(a, b, a[v.id].content[key], recursion + 1);
      }
    }
  }

  /** The values of the entries of a table all of whose entries can be read. */
  function EntryValues(tables: seq<LuaTable>, content: map<LuaValue, LuaValue>, recursion: nat): map<LuaValue, Json>
    requires forall key | key in content :: ReadValue(tables, content[key], Null, recursion + 1).Got?
  {
    map key | key in content :: ReadValue(tables, content[key], Null, recursion + 1).value
  }

  /** The values of the entries of a readable table, and what the result is made of. */
  lemma TableAssembles(tables: seq<LuaTable>, id: nat, recursion: nat) returns (vals: map<LuaValue, Json>)
    requires WfHeap(tables) && recursion <= MAX_RECURSION && Readable(tables, Table(id), recursion)
    ensures Uniform(tables[id].content) && vals.Keys == tables[id].content.Keys
    ensures forall key | key in vals ::
              ReadValue(tables, tables[id].content[key], Null, recursion + 1) == Got(vals[key])
    ensures ReadValue(tables, Table(id), Null, recursion).Got?
    ensures Consistent(vals) ==> Assembles(ReadValue(tables, Table(id), Null, recursion).value, vals, vals.Keys)
  {
    ReadSucceedsExactly(tables, Table(id), recursion);
    var t := tables[id];
    WfAt(tables, |tables|, |tables|, id);
    assert ReadValue(tables, Table(id), Null, recursion) == ReadEntries(tables, t, 0, Null, recursion);
    hide Assembles, Consistent, ReadEntries, ReadValue, Readable, WfHeap, IsOrderOf;
    forall key | key in t.content ensures ReadValue(tables, t.content[key], Null, recursion + 1).Got? {
      ReadableEntry(tables, id, key, recursion);
      ReadSucceedsExactly(tables, t.content[key], recursion + 1);
    }
    vals := EntryValues(tables, t.content, recursion);
    if Consistent(vals) {
      assert Assembles(Null, vals, Visited(t, 0)) by {
        NothingAssembles(vals);
      }
      EntriesAssemble(tables, t, 0, Null, recursion, vals);
    }
  }

  lemma NothingAssembles(vals: map<LuaValue, Json>)
    ensures Assembles(Null, vals, {})
  {
  }

  // ---- Determined values are read alike ----

  ghost predicate CoversValues(a: map<LuaValue, Json>, b: map<LuaValue, Json>) {
    forall k1 | k1 in a :: exists k2 :: k2 in b && SameKey(k1, k2) && a[k1] == b[k2]
  }

  lemma SameKeySameMember(k1: LuaValue, k2: LuaValue)
    requires (IsIndexKey(k1) || k1.Text?) && (IsIndexKey(k2) || k2.Text?)
    ensures SameKey(k1, k2) <==> MemberOf(k1) == MemberOf(k2)
  {
    hide CStr;
  }

  /** The kind of a container is that of any of its keys. */
  lemma KindOfKey(root: Json, vals: map<LuaValue, Json>, dom: set<LuaValue>, k: LuaValue)
    requires dom <= vals.Keys && forall key | key in dom :: IsIndexKey(key) || key.Text?
    requires Assembles(root, vals, dom) && k in dom
    ensures if IsIndexKey(k) then root.Arr? else root.Obj?
  {
    hide MemberOf;
  }

  lemma NothingGivesNull(root: Json, vals: map<LuaValue, Json>)
    requires Assembles(root, vals, {})
    ensures root == Null
  {
  }

  lemma KindsAgree(x: Json, y: Json, a: map<LuaValue, Json>, b: map<LuaValue, Json>)
    requires (forall k | k in a :: IsIndexKey(k) || k.Text?) && (forall k | k in b :: IsIndexKey(k) || k.Text?)
    requires Assembles(x, a, a.Keys) && Assembles(y, b, b.Keys) && CoversValues(a, b) && CoversValues(b, a)
    ensures (x.Null? && y.Null?) || (x.Arr? && y.Arr?) || (x.Obj? && y.Obj?)
  {
    hide CStr, IsIndexKey, SameKey, Assembles, CoversValues;
    if a.Keys == {} {
      NoneCovered(a, b);
      NothingGivesNull(x, a);
      NothingGivesNull(y, b);
    } else {
      var k1 :| k1 in a;
      var k2 := LikeOf(a, b, k1);
      KindOfKey(x, a, a.Keys, k1);
      KindOfKey(y, b, b.Keys, k2);
    }
  }

  lemma NoneCovered(a: map<LuaValue, Json>, b: map<LuaValue, Json>)
    requires a.Keys == {} && CoversValues(b, a)
    ensures b.Keys == {}
  {
    forall k1 | k1 in b ensures false {
      var k2 := LikeOf(b, a, k1);
    }
  }

  lemma LikeOf(a: map<LuaValue, Json>, b: map<LuaValue, Json>, k1: LuaValue) returns (k2: LuaValue)
    requires k1 in a && CoversValues(a, b)
    ensures k2 in b && a[k1] == b[k2] && SameKey(k1, k2) && IsIndexKey(k1) == IsIndexKey(k2)
  {
    k2 :| k2 in b && SameKey(k1, k2) && a[k1] == b[k2];
  }

  lemma MembersAgree(x: Json, y: Json, a: map<LuaValue, Json>, b: map<LuaValue, Json>, m: Member)
    requires (forall k | k in a :: IsIndexKey(k) || k.Text?) && (forall k | k in b :: IsIndexKey(k) || k.Text?)
    requires Assembles(x, a, a.Keys) && Assembles(y, b, b.Keys) && CoversValues(a, b) && m in Kids(x)
    ensures m in Kids(y) && Kids(x)[m] == Kids(y)[m]
  {
    hide CStr, IsIndexKey, SameKey, MemberOf;
    assert a.Keys != {};
    var k1 :| k1 in a && MemberOf(k1) == m;
    var k2 :| k2 in b && SameKey(k1, k2) && a[k1] == b[k2];
    SameKeySameMember(k1, k2);
  }

  lemma SameContainer(x: Json, y: Json)
    requires (x.Null? && y.Null?) || (x.Arr? && y.Arr?) || (x.Obj? && y.Obj?)
    requires Kids(x) == Kids(y)
    ensures x == y
  {
  }

  lemma AssembledEqual(x: Json, y: Json, a: map<LuaValue, Json>, b: map<LuaValue, Json>)
    requires (forall k | k in a :: IsIndexKey(k) || k.Text?) && (forall k | k in b :: IsIndexKey(k) || k.Text?)
    requires Assembles(x, a, a.Keys) && Assembles(y, b, b.Keys)
    ensures x == y <==> CoversValues(a, b) && CoversValues(b, a)
  {
    hide CStr, IsIndexKey, SameKey, MemberOf, Assembles, CoversValues, Kids;
    if CoversValues(a, b) && CoversValues(b, a) {
      KindsAgree(x, y, a, b);
      forall m | m in Kids(x) ensures m in Kids(y) && Kids(x)[m] == Kids(y)[m] {
        MembersAgree(x, y, a, b, m);
      }
      forall m | m in Kids(y) ensures m in Kids(x) {
        MembersAgree(y, x, b, a, m);
      }
      assert Kids(x) == Kids(y);
      SameContainer(x, y);
    } else if x == y {
      EqualCovers(x, a, b);
      EqualCovers(x, b, a);
    }
  }

  lemma EqualCovers(x: Json, a: map<LuaValue, Json>, b: map<LuaValue, Json>)
    requires (forall k | k in a :: IsIndexKey(k) || k.Text?) && (forall k | k in b :: IsIndexKey(k) || k.Text?)
    requires Assembles(x, a, a.Keys) && Assembles(x, b, b.Keys)
    ensures CoversValues(a, b)
  {
    hide CStr, IsIndexKey, SameKey, MemberOf;
    forall k1 | k1 in a ensures exists k2 :: k2 in b && SameKey(k1, k2) && a[k1] == b[k2] {
      assert MemberOf(k1) in Kids(x);
      var k2 :| k2 in b && MemberOf(k2) == MemberOf(k1);
      SameKeySameMember(k1, k2);
    }
  }

  lemma EntryFacts(tables: seq<LuaTable>, id: nat, key: LuaValue, recursion: nat)
    requires WfHeap(tables) && Readable(tables, Table(id), recursion) && key in tables[id].content
    ensures recursion <= MAX_RECURSION && !tables[id].content[key].Nil?
    ensures Readable(tables, tables[id].content[key], recursion + 1)
    ensures Determined(tables, Table(id), recursion) ==> Determined(tables, tables[id].content[key], recursion + 1)
  {
    WfAt(tables, |tables|, |tables|, id);
    hide Alike, SameKey, IsOrderOf;
  }

  /** Values that can be read and are determined are read alike exactly when they are alike. */
  lemma {:induction false} AlikeReads(tables: seq<LuaTable>, x: LuaValue, y: LuaValue, recursion: nat)
    requires WfHeap(tables) && !x.Nil? && !y.Nil?
    requires Readable(tables, x, recursion) && Readable(tables, y, recursion)
    requires Determined(tables, x, recursion) && Determined(tables, y, recursion)
    ensures Alike(tables, x, y, recursion) <==>
            ReadValue(tables, x, Null, recursion) == ReadValue(tables, y, Null, recursion)
    decreases Budget(recursion), 2
  {
    if x.Table? && y.Table? {
      TablesAlikeRead(tables, x.id, y.id, recursion);
    } else if x.Table? {
      TableIsNoScalar(tables, x.id, recursion);
    } else if y.Table? {
      TableIsNoScalar(tables, y.id, recursion);
    }
  }

  lemma {:induction false} TableIsNoScalar(tables: seq<LuaTable>, id: nat, recursion: nat)
    requires WfHeap(tables) && Readable(tables, Table(id), recursion) && Determined(tables, Table(id), recursion)
    ensures var r := ReadValue(tables, Table(id), Null, recursion);
            r.Got? && (r.value.Null? || r.value.Arr? || r.value.Obj?)
    decreases Budget(recursion), 1
  {
    var vals := TableAssembles(tables, id, recursion);
    AlikeIsConsistent(tables, id, recursion, vals);
    hide ReadValue, Readable, Determined, Consistent;
  }

  lemma SameNamesAlike(tables: seq<LuaTable>, id: nat, recursion: nat, k1: LuaValue, k2: LuaValue)
    requires id < |tables| && recursion <= MAX_RECURSION && Determined(tables, Table(id), recursion)
    requires k1 in tables[id].content && k2 in tables[id].content
    requires k1.Text? && k2.Text? && CStr(k1.s) == CStr(k2.s)
    ensures Alike(tables, tables[id].content[k1], tables[id].content[k2], recursion + 1)
  {
    hide Alike, CStr;
    assert SameKey(k1, k2);
  }

  lemma {:induction false} AlikeIsConsistent(tables: seq<LuaTable>, id: nat, recursion: nat, vals: map<LuaValue, Json>)
    requires WfHeap(tables) && Readable(tables, Table(id), recursion) && Determined(tables, Table(id), recursion)
    requires vals.Keys == tables[id].content.Keys
    requires forall key | key in vals ::
               ReadValue(tables, tables[id].content[key], Null, recursion + 1) == Got(vals[key])
    ensures Consistent(vals)
    decreases Budget(recursion), 0
  {
    var content := tables[id].content;
    assert recursion <= MAX_RECURSION && id < |tables|;
    forall k1, k2 | k1 in vals && k2 in vals && k1.Text? && k2.Text? && CStr(k1.s) == CStr(k2.s)
      ensures vals[k1] == vals[k2]
    {
      hide *;
      SameNamesAlike(tables, id, recursion, k1, k2);
      EntryFacts(tables, id, k1, recursion);
      EntryFacts(tables, id, k2, recursion);
      AlikeReads(tables, content[k1], content[k2], recursion + 1);
    }
  }

  lemma {:induction false} TablesAlikeRead(tables: seq<LuaTable>, i: nat, j: nat, recursion: nat)
    requires WfHeap(tables)
    requires Readable(tables, Table(i), recursion) && Readable(tables, Table(j), recursion)
    requires Determined(tables, Table(i), recursion) && Determined(tables, Table(j), recursion)
    ensures Alike(tables, Table(i), Table(j), recursion) <==>
            ReadValue(tables, Table(i), Null, recursion) == ReadValue(tables, Table(j), Null, recursion)
    decreases Budget(recursion), 1
  {
    var a := TableAssembles(tables, i, recursion);
    var b := TableAssembles(tables, j, recursion);
    AlikeIsConsistent(tables, i, recursion, a);
    AlikeIsConsistent(tables, j, recursion, b);
    CoversReads(tables, i, j, recursion, a, b);
    CoversReads(tables, j, i, recursion, b, a);
    hide ReadValue, Readable, Determined, Consistent, Assembles, Covers, CoversValues;
    AssembledEqual(ReadValue(tables, Table(i), Null, recursion).value,
                   ReadValue(tables, Table(j), Null, recursion).value, a, b);
  }

  lemma {:induction false} CoversReads(tables: seq<LuaTable>, i: nat, j: nat, recursion: nat,
                                       a: map<LuaValue, Json>, b: map<LuaValue, Json>)
    requires WfHeap(tables)
    requires Readable(tables, Table(i), recursion) && Readable(tables, Table(j), recursion)
    requires Determined(tables, Table(i), recursion) && Determined(tables, Table(j), recursion)
    requires a.Keys == tables[i].content.Keys && b.Keys == tables[j].content.Keys
    requires forall key | key in a :: ReadValue(tables, tables[i].content[key], Null, recursion + 1) == Got(a[key])
    requires forall key | key in b :: ReadValue(tables, tables[j].content[key], Null, recursion + 1) == Got(b[key])
    ensures Covers(tables, tables[i].content, tables[j].content, recursion) <==> CoversValues(a, b)
    decreases Budget(recursion), 0
  {
    var x, y := tables[i].content, tables[j].content;
    hide ReadValue, Alike, SameKey, WfHeap, WfTable, Readable, Determined;
    forall k1, k2 | k1 in a && k2 in b ensures Alike(tables, x[k1], y[k2], recursion + 1) <==> a[k1] == b[k2] {
      EntryFacts(tables, i, k1, recursion);
      EntryFacts(tables, j, k2, recursion);
      AlikeReads(tables, x[k1], y[k2], recursion + 1);
    }
    CoversBoth(tables, x, y, recursion, a, b);
  }

  lemma CoversBoth(tables: seq<LuaTable>, x: map<LuaValue, LuaValue>, y: map<LuaValue, LuaValue>, recursion: nat,
                   a: map<LuaValue, Json>, b: map<LuaValue, Json>)
    requires recursion <= MAX_RECURSION && a.Keys == x.Keys && b.Keys == y.Keys
    requires forall k1, k2 | k1 in a && k2 in b :: Alike(tables, x[k1], y[k2], recursion + 1) <==> a[k1] == b[k2]
    ensures Covers(tables, x, y, recursion) <==> CoversValues(a, b)
  {
    hide Alike, SameKey;
    if CoversValues(a, b) {
      forall k1 | k1 in x
        ensures exists k2 :: k2 in y && SameKey(k1, k2) && Alike(tables, x[k1], y[k2], recursion + 1)
      {
        var k2 :| k2 in b && SameKey(k1, k2) && a[k1] == b[k2];
      }
    }
    if Covers(tables, x, y, recursion) {
      forall k1 | k1 in a ensures exists k2 :: k2 in b && SameKey(k1, k2) && a[k1] == b[k2] {
        var k2 :| k2 in y && SameKey(k1, k2) && Alike(tables, x[k1], y[k2], recursion + 1);
      }
    }
  }

  /** A table that can be read is read alike if its values are. */
  lemma TableIsOrderFree(a: seq<LuaTable>, b: seq<LuaTable>, id: nat, recursion: nat)
    requires WfHeap(a) && WfHeap(b) && SameContents(a, b) && recursion <= MAX_RECURSION
    requires Readable(a, Table(id), recursion) && Readable(b, Table(id), recursion)
    requires Determined(a, Table(id), recursion) && id < |a|
    requires forall key | key in a[id].content && Readable(a, a[id].content[key], recursion + 1) ::
               ReadValue(a, a[id].content[key], Null, recursion + 1) ==
               ReadValue(b, a[id].content[key], Null, recursion + 1)
    ensures ReadValue(a, Table(id), Null, recursion) == ReadValue(b, Table(id), Null, recursion)
  {
    hide ReadValue, Determined, Consistent, Assembles, Readable, WfHeap, IsIndexKey;
    assert |a| == |b| && a[id].content == b[id].content;
    var x := TableAssembles(a, id, recursion);
    var y := TableAssembles(b, id, recursion);
    assert forall key | key in x :: IsIndexKey(key) || key.Text?;
    hide *;
    AlikeIsConsistent(a, id, recursion, x);
    forall key | key in a[id].content ensures x[key] == y[key] {
      ReadableEntry(a, id, key, recursion);
    }
    assert x == y;
    AssemblesOnce(ReadValue(a, Table(id), Null, recursion).value, ReadValue(b, Table(id), Null, recursion).value, x,
                  x.Keys);
  }

  /** Determined values are read alike in every order. */
  lemma {:induction false} ReadIsOrderFree(a: seq<LuaTable>, b: seq<LuaTable>, v: LuaValue, recursion: nat)
    requires WfHeap(a) && WfHeap(b) && SameContents(a, b)
    ensures ReadValue(a, v, Null, recursion).Got? == ReadValue(b, v, Null, recursion).Got?
    ensures Determined(a, v, recursion) ==> SameResult(a, b, v, recursion)
    decreases Budget(recursion)
  {
    ReadableIsOrderFree(a, b, v, recursion);
    ReadSucceedsExactly(a, v, recursion);
    ReadSucceedsExactly(b, v, recursion);
    if v.Table? && Readable(a, v, recursion) && Determined(a, v, recursion) {
      var content := a[v.id].content;
      forall key | key in content && Readable(a, content[key], recursion + 1)
        ensures ReadValue(a, content[key], Null, recursion + 1) == ReadValue(b, content[key], Null, recursion + 1)
      {
        ReadSucceedsExactly(a, content[key], recursion + 1);
        ReadIsOrderFree(a, b, content[key], recursion + 1);
      }
      TableIsOrderFree(a, b, v.id, recursion);
    }
  }

  // ---- Values that are not determined are read differently ----

  /** The entry enumerated last is never overwritten. */
  lemma {:induction false} LastEntryStays(tables: seq<LuaTable>, t: LuaTable, p: nat, root: Json, recursion: nat)
    requires p < |t.order| && recursion <= MAX_RECURSION
    requires ReadEntries(tables, t, p, root, recursion).Got?
    ensures var last := t.order[|t.order| - 1];
            var r := ReadEntries(tables, t, p, root, recursion).value;
            && (IsIndexKey(last) || last.Text?)
            && MemberOf(last) in Kids(r)
            && Got(Kids(r)[MemberOf(last)]) == ReadValue(tables, Get(t, last), Null, recursion + 1)
    decreases |t.order| - p
  {
    var r := EntryReading(tables, root, t.order[p], Get(t, t.order[p]), recursion);
    if p + 1 < |t.order| {
      LastEntryStays(tables, t, p + 1, r.value, recursion);
    } else {
      assert ReadEntries(tables, t, p + 1, r.value, recursion) == r;
    }
  }

  function WithLast(t: LuaTable, key: LuaValue): LuaTable
    requires forall i, j | 0 <= i < j < |t.order| :: t.order[i] != t.order[j]
  {
    t.(order := Without(t.order, key) + [key])
  }

  lemma WithLastIsOrder(t: LuaTable, key: LuaValue)
    requires IsOrderOf(t.order, t.content) && key in t.content
    ensures IsOrderOf(WithLast(t, key).order, t.content)
  {
    var rest := Without(t.order, key);
    assert forall i | 0 <= i < |rest| :: rest[i] in rest;
    assert forall x :: x in WithLast(t, key).order <==> x in rest || x == key;
  }

  /** For one table, its entries being readable: every enumeration order gives the same result exactly when names that
      are cut to the same member have the same value. */
  lemma OneTableIsOrderFreeExactly(tables: seq<LuaTable>, t: LuaTable, recursion: nat)
    requires recursion <= MAX_RECURSION && IsOrderOf(t.order, t.content) && Uniform(t.content)
    requires forall key | key in t.content :: ReadValue(tables, t.content[key], Null, recursion + 1).Got?
    ensures (forall order | IsOrderOf(order, t.content) ::
               ReadEntries(tables, t.(order := order), 0, Null, recursion) ==
               ReadEntries(tables, t, 0, Null, recursion))
            <==> Consistent(EntryValues(tables, t.content, recursion))
  {
    var vals := EntryValues(tables, t.content, recursion);
    if Consistent(vals) {
      EntriesAssemble(tables, t, 0, Null, recursion, vals);
      forall order | IsOrderOf(order, t.content)
        ensures ReadEntries(tables, t.(order := order), 0, Null, recursion) ==
                ReadEntries(tables, t, 0, Null, recursion)
      {
        EntriesAssemble(tables, t.(order := order), 0, Null, recursion, vals);
        AssemblesOnce(ReadEntries(tables, t.(order := order), 0, Null, recursion).value,
                      ReadEntries(tables, t, 0, Null, recursion).value, vals, t.content.Keys);
      }
    } else {
      var k1, k2 :|
        k1 in vals && k2 in vals && k1.Text? && k2.Text? && CStr(k1.s) == CStr(k2.s) && vals[k1] != vals[k2];
      DifferentLast(tables, t, recursion, k1, k2);
    }
  }

  lemma DifferentLast(tables: seq<LuaTable>, t: LuaTable, recursion: nat, k1: LuaValue, k2: LuaValue)
    requires recursion <= MAX_RECURSION && IsOrderOf(t.order, t.content) && Uniform(t.content)
    requires forall key | key in t.content :: ReadValue(tables, t.content[key], Null, recursion + 1).Got?
    requires k1 in t.content && k2 in t.content && k1.Text? && k2.Text? && CStr(k1.s) == CStr(k2.s)
    requires EntryValues(tables, t.content, recursion)[k1] != EntryValues(tables, t.content, recursion)[k2]
    ensures exists o1, o2 :: IsOrderOf(o1, t.content) && IsOrderOf(o2, t.content) &&
              ReadEntries(tables, t.(order := o1), 0, Null, recursion) !=
              ReadEntries(tables, t.(order := o2), 0, Null, recursion)
  {
    var t1, t2 := WithLast(t, k1), WithLast(t, k2);
    WithLastIsOrder(t, k1);
    WithLastIsOrder(t, k2);
    EntriesSucceed(tables, t1, 0, Null, recursion);
    EntriesSucceed(tables, t2, 0, Null, recursion);
    LastEntryStays(tables, t1, 0, Null, recursion);
    LastEntryStays(tables, t2, 0, Null, recursion);
    assert t1 == t.(order := t1.order) && t2 == t.(order := t2.order);
    assert IsOrderOf(t1.order, t.content) && IsOrderOf(t2.order, t.content);
  }

  /** Two names that agree up to a NUL: the result is whichever lua_next enumerates last. */
  lemma EmbeddedNulDependsOnOrder()
    ensures var content := map[Text("a") := Boolean(true), Text("a\0b") := Boolean(false)];
            var first := LuaTable(content, [Text("a"), Text("a\0b")]);
            var second := LuaTable(content, [Text("a\0b"), Text("a")]);
            && ReadValue([first], Table(0), Null, 1) == Got(Obj(map[Name("a") := Bool(false)]))
            && ReadValue([second], Table(0), Null, 1) == Got(Obj(map[Name("a") := Bool(true)]))
  {
    var a, ab := Text("a"), Text("a\0b");
    assert CStr("a\0b") == "a";
    var content := map[a := Boolean(true), ab := Boolean(false)];
    var first := LuaTable(content, [a, ab]);
    var second := LuaTable(content, [ab, a]);
    var none: map<Member, Json> := map[];
    assert none[Name("a") := Bool(true)][Name("a") := Bool(false)] == map[Name("a") := Bool(false)];
    assert none[Name("a") := Bool(false)][Name("a") := Bool(true)] == map[Name("a") := Bool(true)];
    assert ReadEntries([first], first, 2, Obj(map[Name("a") := Bool(false)]), 1).Got?;
    assert ReadEntries([first], first, 1, Obj(none[Name("a") := Bool(true)]), 1)
        == Got(Obj(map[Name("a") := Bool(false)]));
    assert ReadEntries([second], second, 2, Obj(map[Name("a") := Bool(true)]), 1).Got?;
    assert ReadEntries([second], second, 1, Obj(none[Name("a") := Bool(false)]), 1)
        == Got(Obj(map[Name("a") := Bool(true)]));
  }

  /** From x the walk gets to the table with this id in at most n steps. */
  ghost predicate Leads(tables: seq<LuaTable>, x: LuaValue, id: nat, n: nat)
    decreases n
  {
    && x.Table? && x.id < |tables|
    && (x.id == id ||
        (n > 0 && exists key :: key in tables[x.id].content && Leads(tables, tables[x.id].content[key], id, n - 1)))
  }

  lemma {:induction false} LeadReadable(tables: seq<LuaTable>, x: LuaValue, id: nat, recursion: nat, n: nat)
    returns (later: nat)
    requires Readable(tables, x, recursion) && Leads(tables, x, id, n)
    ensures later >= recursion && Readable(tables, Table(id), later)
    decreases n
  {
    if x.id == id {
      later := recursion;
    } else {
      var key :| key in tables[x.id].content && Leads(tables, tables[x.id].content[key], id, n - 1);
      later := LeadReadable(tables, tables[x.id].content[key], id, recursion + 1, n - 1);
    }
  }

  /** No entry of a table that can be read leads back to it. */
  lemma {:induction false} NoWayBack(tables: seq<LuaTable>, id: nat, key: LuaValue, recursion: nat, n: nat)
    requires Readable(tables, Table(id), recursion) && key in tables[id].content
    ensures !Leads(tables, tables[id].content[key], id, n)
    decreases Budget(recursion)
  {
    hide Uniform;
    if Leads(tables, tables[id].content[key], id, n) {
      var later := LeadReadable(tables, tables[id].content[key], id, recursion + 1, n);
      NoWayBack(tables, id, key, later, n);
    }
  }

  /** A table the walk does not get to plays no part in what is read. */
  lemma {:induction false} FrameValue(tables: seq<LuaTable>, id: nat, t: LuaTable, x: LuaValue, root: Json,
                                      recursion: nat)
    requires id < |tables| && !Leads(tables, x, id, Budget(recursion))
    ensures ReadValue(tables[id := t], x, root, recursion) == ReadValue(tables, x, root, recursion)
    decreases Budget(recursion), 1, 0
  {
    if recursion <= MAX_RECURSION && x.Table? && x.id < |tables| {
      FrameEntries(tables, id, t, x.id, 0, root, recursion);
    }
  }

  lemma {:induction false} FrameEntries(tables: seq<LuaTable>, id: nat, t: LuaTable, j: nat, p: nat, root: Json,
                                        recursion: nat)
    requires id < |tables| && j < |tables| && !Leads(tables, Table(j), id, Budget(recursion))
    requires recursion <= MAX_RECURSION && p <= |tables[j].order|
    ensures ReadEntries(tables[id := t], tables[j], p, root, recursion) ==
            ReadEntries(tables, tables[j], p, root, recursion)
    decreases Budget(recursion), 0, |tables[j].order| - p
  {
    var s := tables[j];
    if p < |s.order| {
      var v := Get(s, s.order[p]);
      assert !Leads(tables, v, id, Budget(recursion + 1)) by {
        hide ReadEntries;
        if s.order[p] !in s.content {
          assert v == Nil;
        }
      }
      FrameValue(tables, id, t, v, Null, recursion + 1);
      hide Leads;
      var r := EntryReading(tables, root, s.order[p], v, recursion);
      assert EntryReading(tables[id := t], root, s.order[p], v, recursion) == r;
      if r.Got? {
        FrameEntries(tables, id, t, j, p + 1, r.value, recursion);
      }
    }
  }

  /** The heap with key enumerated last in the table with this id. */
  function Last(tables: seq<LuaTable>, id: nat, key: LuaValue): seq<LuaTable>
    requires id < |tables| && IsOrderOf(tables[id].order, tables[id].content)
  {
    tables[id := WithLast(tables[id], key)]
  }

  lemma LastIsHeap(tables: seq<LuaTable>, id: nat, key: LuaValue)
    requires WfHeap(tables) && id < |tables| && key in tables[id].content
    ensures IsOrderOf(tables[id].order, tables[id].content)
    ensures WfHeap(Last(tables, id, key)) && SameContents(tables, Last(tables, id, key))
  {
    WfAt(tables, |tables|, |tables|, id);
    WithLastIsOrder(tables[id], key);
    hide IsOrderOf;
    WfAfterUpdate(tables, id, WithLast(tables[id], key));
  }

  /** Enumerated last, the entry is what is found under its key. */
  lemma LastReads(tables: seq<LuaTable>, id: nat, key: LuaValue, recursion: nat) returns (r: Json)
    requires WfHeap(tables) && Readable(tables, Table(id), recursion) && key in tables[id].content
    ensures IsOrderOf(tables[id].order, tables[id].content)
    ensures ReadValue(Last(tables, id, key), Table(id), Null, recursion) == Got(r)
    ensures IsIndexKey(key) || key.Text?
    ensures MemberOf(key) in Kids(r)
    ensures Got(Kids(r)[MemberOf(key)]) == ReadValue(tables, tables[id].content[key], Null, recursion + 1)
  {
    LastIsHeap(tables, id, key);
    var t := WithLast(tables[id], key);
    var b := Last(tables, id, key);
    ReadableIsOrderFree(tables, b, Table(id), recursion);
    ReadSucceedsExactly(b, Table(id), recursion);
    NoWayBack(tables, id, key, recursion, Budget(recursion + 1));
    FrameValue(tables, id, t, tables[id].content[key], Null, recursion + 1);
    hide Leads, WfHeap, Readable, Kids, MemberOf, IsIndexKey;
    assert b[id] == t && t.order[|t.order| - 1] == key && Get(t, key) == t.content[key];
    r := ReadValue(b, Table(id), Null, recursion).value;
    LastEntryStays(b, t, 0, Null, recursion);
  }

  /** A value that can be read and is not determined is read differently in some order. */
  lemma {:induction false} ReadDiffers(a: seq<LuaTable>, v: LuaValue, recursion: nat) returns (b: seq<LuaTable>)
    requires WfHeap(a) && Readable(a, v, recursion) && !Determined(a, v, recursion)
    ensures WfHeap(b) && SameContents(a, b) && !SameResult(a, b, v, recursion)
    decreases Budget(recursion)
  {
    var id, content := v.id, a[v.id].content;
    if key :| key in content && !Determined(a, content[key], recursion + 1) {
      EntryFacts(a, id, key, recursion);
      var other := ReadDiffers(a, content[key], recursion + 1);
      ReadableIsOrderFree(a, other, v, recursion);
      hide WfHeap, Readable, Determined, ReadValue, Kids, MemberOf, IsIndexKey;
      var x := LastReads(a, id, key, recursion);
      var y := LastReads(other, id, key, recursion);
      LastIsHeap(a, id, key);
      LastIsHeap(other, id, key);
      b := if ReadValue(a, v, Null, recursion) == Got(x) then Last(other, id, key) else Last(a, id, key);
    } else {
      var k1, k2 :| k1 in content && k2 in content && SameKey(k1, k2) &&
                    !Alike(a, content[k1], content[k2], recursion + 1);
      EntryFacts(a, id, k1, recursion);
      EntryFacts(a, id, k2, recursion);
      AlikeReads(a, content[k1], content[k2], recursion + 1);
      hide WfHeap, Readable, Determined, ReadValue, Kids, MemberOf, IsIndexKey, Alike, SameKey;
      var x := LastReads(a, id, k1, recursion);
      var y := LastReads(a, id, k2, recursion);
      SameKeySameMember(k1, k2);
      LastIsHeap(a, id, k1);
      LastIsHeap(a, id, k2);
      b := if ReadValue(a, v, Null, recursion) == Got(x) then Last(a, id, k2) else Last(a, id, k1);
    }
  }

  /** What is read is the same in every traversal order exactly when the value cannot be read in any, or names that
      agree up to a NUL have values that are read alike in every table the walk visits. */
  lemma OrderFreeExactly(a: seq<LuaTable>, v: LuaValue, recursion: nat)
    requires WfHeap(a)
    ensures OrderFree(a, v, recursion) <==> !Readable(a, v, recursion) || Determined(a, v, recursion)
  {
    if Readable(a, v, recursion) && !Determined(a, v, recursion) {
      var b := ReadDiffers(a, v, recursion);
    } else {
      forall b | WfHeap(b) && SameContents(a, b) ensures SameResult(a, b, v, recursion) {
        ReadSucceedsExactly(a, v, recursion);
        ReadIsOrderFree(a, b, v, recursion);
      }
    }
  }
}
