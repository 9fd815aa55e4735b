// The two walkers together: reading back what was pushed.
module LuaBridge {
  import opened JsonModel
  import opened LuaMachine
  import opened LuaPush
  import opened LuaRead
  import opened LuaOrder

  /** A null slot that holds neither a table nor what JSON has no counterpart for. */
  predicate IsPlain(z: LuaValue) {
    !z.Table? && !z.Opaque?
  }

  /** What such a slot reads as. */
  function ReadsAs(z: LuaValue): Json
    requires IsPlain(z)
  {
    match z
    case Nil => Null
    case Boolean(b) => Bool(b)
    case Number(n) => Real(n)
    case Text(s) => Str(s)
  }

  /** A child that has an entry in the table: a null has none if the null slot is nil. */
  predicate Stays(v: Json, z: LuaValue) {
    v != Null || z != Nil
  }

  /** What survives the trip through Lua with null slot z: numbers become reals, a null becomes what z reads as, null
      children disappear if z is nil, a container without children left becomes null. */
  function NormalForm(v: Json, z: LuaValue): Json
    requires IsPlain(z)
    decreases v, 1
  {
    match v
    case Null => ReadsAs(z)
    case Int(i) => Real(i as real)
    case UInt(u) => Real(u as real)
    case Str(s) => Str(CStr(s))
    case Arr(_) => if NormalKids(v, z) == map[] then Null else Arr(NormalKids(v, z))
    case Obj(_) => if NormalKids(v, z) == map[] then Null else Obj(NormalKids(v, z))
    case _ => v
  }

  function NormalKids(v: Json, z: LuaValue): (kids: map<Member, Json>)
    requires IsPlain(z)
    ensures kids.Keys == set k | k in Kids(v) && Stays(Kids(v)[k], z)
    decreases v, 0
  {
    map k | k in Kids(v) && Stays(Kids(v)[k], z) :: NormalForm(Kids(v)[k], z)
  }

  /** Levels the read walker enters: children without an entry are not there to be entered. */
  ghost function VisitedDepth(v: Json, z: LuaValue): (d: nat)
    ensures d >= 1
    decreases v, 1
  {
    if IsContainer(v) then 1 + MaxIn(VisitedDepths(v, z), VisitedDepths(v, z).Keys) else 1
  }

  ghost function VisitedDepths(v: Json, z: LuaValue): (ds: map<Member, nat>)
    ensures ds.Keys == set k | k in Kids(v) && Stays(Kids(v)[k], z)
    decreases v, 0
  {
    map k | k in Kids(v) && Stays(Kids(v)[k], z) :: VisitedDepth(Kids(v)[k], z)
  }

  lemma {:induction false} VisitedDepthAtMostDepth(v: Json, z: LuaValue)
    ensures VisitedDepth(v, z) <= Depth(v)
    decreases v
  {
    if IsContainer(v) && VisitedDepths(v, z).Keys != {} {
      var ds := VisitedDepths(v, z);
      var k :| k in ds.Keys && MaxIn(ds, ds.Keys) == ds[k];
      VisitedDepthAtMostDepth(Kids(v)[k], z);
      assert Depths(v)[k] <= MaxIn(Depths(v), Kids(v).Keys);
    }
  }

  /** A table with this content has an entry for each child of v that stays, and no other. */
  ghost predicate Mirrors(content: map<LuaValue, LuaValue>, v: Json, z: LuaValue)
    requires IsPlain(z)
  {
    && (forall key | key in content ::
          && (if v.Arr? then IsIndexKey(key) else key.Text?)
          && MemberOf(key) in NormalKids(v, z) && KeyOf(MemberOf(key)) == key)
    && (forall k | k in NormalKids(v, z) :: KeyOf(k) in content && MemberOf(KeyOf(k)) == k)
  }

  lemma KeyOfMember(v: Json, k: Member)
    requires IsContainer(v) && WellFormed(v) && NulFreeNames(v) && k in Kids(v)
    ensures if v.Arr? then IsIndexKey(KeyOf(k)) else KeyOf(k).Text?
    ensures MemberOf(KeyOf(k)) == k
  {
  }

  lemma PushedMirrors(tables: seq<LuaTable>, id: nat, v: Json, z: LuaValue)
    requires IsPlain(z) && IsContainer(v) && WellFormed(v) && NulFreeNames(v)
    requires RepresentsKids(tables, id, v, Kids(v).Keys, z) && WfTable(tables[id], |tables|)
    ensures Mirrors(tables[id].content, v, z)
    ensures forall k | k in NormalKids(v, z) ::
              Represents(tables, Get(tables[id], KeyOf(k)), Kids(v)[k], z, id + 1)
  {
    hide *;
    KeysThatStay(tables, id, v, z);
    forall key | key in tables[id].content ensures exists k :: k in Kids(v) && key == KeyOf(k) {
      var k := EntryOf(tables, id, v, z, key);
    }
    MirrorsIntro(tables[id].content, v, z);
    ChildrenStandThere(tables, id, v, z);
  }

  lemma KeysThatStay(tables: seq<LuaTable>, id: nat, v: Json, z: LuaValue)
    requires RepresentsKids(tables, id, v, Kids(v).Keys, z) && WfTable(tables[id], |tables|)
    ensures id < |tables| && forall k | k in Kids(v) :: Stays(Kids(v)[k], z) <==> KeyOf(k) in tables[id].content
  {
    forall k | k in Kids(v) ensures Stays(Kids(v)[k], z) <==> KeyOf(k) in tables[id].content {
      assert Represents(tables, Get(tables[id], KeyOf(k)), Kids(v)[k], z, id + 1);
      hide RepresentsKids, KeyOf;
      EntryOfKid(tables, Get(tables[id], KeyOf(k)), Kids(v)[k], z, id + 1);
    }
  }

  lemma MirrorsIntro(content: map<LuaValue, LuaValue>, v: Json, z: LuaValue)
    requires IsPlain(z) && IsContainer(v) && WellFormed(v) && NulFreeNames(v)
    requires forall k | k in Kids(v) :: Stays(Kids(v)[k], z) <==> KeyOf(k) in content
    requires forall key | key in content :: exists k :: k in Kids(v) && key == KeyOf(k)
    ensures Mirrors(content, v, z)
  {
    hide WellFormed, NulFreeNames, NormalForm, CStr, IsIndexKey, MemberOf, KeyOf, Stays;
    forall k | k in Kids(v)
      ensures (if v.Arr? then IsIndexKey(KeyOf(k)) else KeyOf(k).Text?) && MemberOf(KeyOf(k)) == k
    {
      KeyOfMember(v, k);
    }
  }

  /** Every entry is of some child. */
  lemma EntryOf(tables: seq<LuaTable>, id: nat, v: Json, z: LuaValue, key: LuaValue) returns (k: Member)
    requires RepresentsKids(tables, id, v, Kids(v).Keys, z) && key in tables[id].content
    ensures k in Kids(v) && key == KeyOf(k)
  {
    hide Represents, KeyOf;
    k :| k in Kids(v).Keys && key == KeyOf(k);
  }

  lemma ChildrenStandThere(tables: seq<LuaTable>, id: nat, v: Json, z: LuaValue)
    requires IsPlain(z) && RepresentsKids(tables, id, v, Kids(v).Keys, z)
    ensures forall k | k in NormalKids(v, z) ::
              Represents(tables, Get(tables[id], KeyOf(k)), Kids(v)[k], z, id + 1)
  {
    hide Represents, KeyOf, NormalForm, Stays;
  }

  lemma MirrorsUniform(content: map<LuaValue, LuaValue>, v: Json, z: LuaValue, vals: map<LuaValue, Json>)
    requires IsPlain(z) && IsContainer(v) && Mirrors(content, v, z) && vals.Keys == content.Keys
    requires forall key | key in content :: vals[key] == NormalKids(v, z)[MemberOf(key)]
    ensures Uniform(content) && Consistent(vals)
    ensures forall key | key in vals :: if v.Arr? then IsIndexKey(key) else key.Text?
  {
    hide CStr, KeyOf, NormalKids, IsIndexKey;
  }

  lemma NormalFormKids(v: Json, z: LuaValue)
    requires IsPlain(z) && IsContainer(v)
    ensures if NormalKids(v, z) == map[] then NormalForm(v, z) == Null
            else
              && (if v.Arr? then NormalForm(v, z).Arr? else NormalForm(v, z).Obj?)
              && Kids(NormalForm(v, z)) == NormalKids(v, z)
  {
    hide NormalKids, CStr;
  }

  /** The normal form is what the entries of the table add up to. */
  lemma NormalFormAssembles(content: map<LuaValue, LuaValue>, v: Json, z: LuaValue, vals: map<LuaValue, Json>)
    requires IsPlain(z) && IsContainer(v) && Mirrors(content, v, z) && vals.Keys == content.Keys
    requires forall key | key in content :: vals[key] == NormalKids(v, z)[MemberOf(key)]
    ensures Uniform(content) && Consistent(vals)
    ensures forall key | key in vals :: IsIndexKey(key) || key.Text?
    ensures Assembles(NormalForm(v, z), vals, vals.Keys)
  {
    hide CStr, KeyOf, NormalKids, NormalForm, IsIndexKey, Kids, Uniform, Consistent;
    MirrorsUniform(content, v, z, vals);
    NormalFormKids(v, z);
    forall m | m in NormalKids(v, z) ensures exists key :: key in vals.Keys && MemberOf(key) == m {
      assert KeyOf(m) in vals.Keys && MemberOf(KeyOf(m)) == m;
    }
    hide MemberOf;
    AssemblesIntro(NormalForm(v, z), v.Arr?, NormalKids(v, z), vals);
  }

  lemma AssemblesIntro(root: Json, isArray: bool, kids: map<Member, Json>, vals: map<LuaValue, Json>)
    requires forall key | key in vals :: if isArray then IsIndexKey(key) else key.Text?
    requires forall key | key in vals :: MemberOf(key) in kids && kids[MemberOf(key)] == vals[key]
    requires forall m | m in kids :: exists key :: key in vals.Keys && MemberOf(key) == m
    requires if kids == map[] then root == Null else (if isArray then root.Arr? else root.Obj?) && Kids(root) == kids
    ensures Assembles(root, vals, vals.Keys)
  {
    hide IsIndexKey, MemberOf, Kids;
    if kids != map[] {
      var m :| m in kids.Keys;
    }
  }

  /** Reading what stands for v succeeds exactly when the levels visited stay within the cap, in any traversal order,
      and gives the normal form. */
  lemma {:induction false} ReadBack(tables: seq<LuaTable>, lv: LuaValue, v: Json, z: LuaValue, lo: nat, recursion: nat)
    requires IsPlain(z) && WfHeap(tables) && WellFormed(v) && NulFreeNames(v) && Represents(tables, lv, v, z, lo)
    ensures ReadValue(tables, lv, Null, recursion) ==
            if recursion + VisitedDepth(v, z) <= 17 then Got(NormalForm(v, z)) else Refused
    decreases v, 2
  {
    hide ReadEntries, NormalForm, VisitedDepth, WfHeap, WellFormed, NulFreeNames;
    if !IsContainer(v) {
      ReadBackScalar(tables, lv, v, z, recursion);
    } else {
      assert lv.id < |tables|;
      hide RepresentsKids;
      if recursion <= MAX_RECURSION {
        ReadBackTable(tables, lv.id, v, z, recursion);
      }
    }
  }

  lemma ReadBackScalar(tables: seq<LuaTable>, lv: LuaValue, v: Json, z: LuaValue, recursion: nat)
    requires IsPlain(z) && !IsContainer(v) && lv == ScalarOf(v, z)
    ensures VisitedDepth(v, z) == 1
    ensures ReadValue(tables, lv, Null, recursion) == if recursion <= 16 then Got(NormalForm(v, z))
            else Refused
  {
    hide ReadEntries, CStr, VisitedDepths, NormalKids;
  }

  lemma {:induction false} ReadBackTable(tables: seq<LuaTable>, id: nat, v: Json, z: LuaValue, recursion: nat)
    requires WfHeap(tables) && IsContainer(v) && WellFormed(v) && NulFreeNames(v) && recursion <= MAX_RECURSION
    requires IsPlain(z) && RepresentsKids(tables, id, v, Kids(v).Keys, z)
    ensures ReadEntries(tables, tables[id], 0, Null, recursion) ==
            if recursion + VisitedDepth(v, z) <= 17 then Got(NormalForm(v, z)) else Refused
    decreases v, 1
  {
    var t := tables[id];
    WfAt(tables, |tables|, |tables|, id);
    PushedMirrors(tables, id, v, z);
    forall key | key in t.content
      ensures MemberOf(key) in NormalKids(v, z)
      ensures ReadValue(tables, t.content[key], Null, recursion + 1) ==
              if recursion + 1 + VisitedDepths(v, z)[MemberOf(key)] <= 17
              then Got(NormalKids(v, z)[MemberOf(key)]) else Refused
    {
      var k := MemberOf(key);
      assert k in NormalKids(v, z) && KeyOf(k) == key && Get(t, key) == t.content[key];
      ReadBackEntry(tables, id, v, z, k, recursion);
      assert NormalKids(v, z)[k] == NormalForm(Kids(v)[k], z) && VisitedDepths(v, z)[k] == VisitedDepth(Kids(v)[k], z);
    }
    hide WellFormed, NulFreeNames, CStr, NormalForm, VisitedDepth, ReadEntries, Represents, RepresentsKids, KeyOf,
      WfHeap, ReadValue;
    ReadBackContainer(tables, t, v, z, recursion);
  }

  lemma {:induction false} ReadBackEntry(tables: seq<LuaTable>, id: nat, v: Json, z: LuaValue, k: Member,
                                         recursion: nat)
    requires IsPlain(z) && WfHeap(tables) && WellFormed(v) && NulFreeNames(v) && k in Kids(v)
    requires RepresentsKids(tables, id, v, Kids(v).Keys, z)
    ensures ReadValue(tables, Get(tables[id], KeyOf(k)), Null, recursion + 1) ==
            if recursion + 1 + VisitedDepth(Kids(v)[k], z) <= 17 then Got(NormalForm(Kids(v)[k], z))
            else Refused
    decreases v, 0
  {
    hide *;
    KidStands(tables, id, v, z, k);
    KidFacts(v, k);
    ReadBack(tables, Get(tables[id], KeyOf(k)), Kids(v)[k], z, id + 1, recursion + 1);
  }

  lemma KidStands(tables: seq<LuaTable>, id: nat, v: Json, z: LuaValue, k: Member)
    requires RepresentsKids(tables, id, v, Kids(v).Keys, z) && k in Kids(v)
    ensures id < |tables| && Represents(tables, Get(tables[id], KeyOf(k)), Kids(v)[k], z, id + 1)
  {
    hide Represents, KeyOf;
  }

  lemma ReadBackContainer(tables: seq<LuaTable>, t: LuaTable, v: Json, z: LuaValue, recursion: nat)
    requires IsPlain(z) && IsContainer(v) && recursion <= MAX_RECURSION
    requires IsOrderOf(t.order, t.content) && Mirrors(t.content, v, z)
    requires forall key | key in t.content :: ReadValue(tables, t.content[key], Null, recursion + 1) ==
               if recursion + 1 + VisitedDepths(v, z)[MemberOf(key)] <= 17
               then Got(NormalKids(v, z)[MemberOf(key)]) else Refused
    ensures ReadEntries(tables, t, 0, Null, recursion) ==
            if recursion + VisitedDepth(v, z) <= 17 then Got(NormalForm(v, z)) else Refused
  {
    if recursion + VisitedDepth(v, z) <= 17 {
      hide CStr, KeyOf, NormalForm, NormalKids, Store, ReadEntries, ReadValue, Assembles, Consistent, WellFormed;
      forall key | key in t.content
        ensures ReadValue(tables, t.content[key], Null, recursion + 1) == Got(NormalKids(v, z)[MemberOf(key)])
      {
        assert MemberOf(key) in VisitedDepths(v, z).Keys;
      }
      hide VisitedDepth, VisitedDepths;
      ReadBackWithin(tables, t, v, z, recursion);
    } else {
      ReadBackTooDeep(tables, t, v, z, recursion);
    }
  }

  lemma ReadBackWithin(tables: seq<LuaTable>, t: LuaTable, v: Json, z: LuaValue, recursion: nat)
    requires IsPlain(z) && IsContainer(v) && recursion <= MAX_RECURSION
    requires IsOrderOf(t.order, t.content) && Mirrors(t.content, v, z)
    requires forall key | key in t.content ::
               ReadValue(tables, t.content[key], Null, recursion + 1) == Got(NormalKids(v, z)[MemberOf(key)])
    ensures ReadEntries(tables, t, 0, Null, recursion) == Got(NormalForm(v, z))
  {
    var vals := EntryValues(tables, t.content, recursion);
    hide CStr, KeyOf, NormalForm, NormalKids, Store, ReadEntries, ReadValue, Assembles, Consistent, WellFormed;
    NormalFormAssembles(t.content, v, z, vals);
    hide Mirrors;
    EntriesAssemble(tables, t, 0, Null, recursion, vals);
    AssemblesOnce(ReadEntries(tables, t, 0, Null, recursion).value, NormalForm(v, z), vals, t.content.Keys);
  }

  lemma MirroredKeys(content: map<LuaValue, LuaValue>, v: Json, z: LuaValue)
    requires IsPlain(z) && Mirrors(content, v, z)
    ensures forall key | key in content :: (IsIndexKey(key) || key.Text?) && MemberOf(key) in NormalKids(v, z)
    ensures forall k | k in NormalKids(v, z) ::
              KeyOf(k) in content && (IsIndexKey(KeyOf(k)) || KeyOf(k).Text?) && MemberOf(KeyOf(k)) == k
  {
    hide CStr, IsIndexKey;
  }

  lemma DeepestKid(v: Json, z: LuaValue) returns (k: Member)
    requires IsPlain(z) && IsContainer(v) && VisitedDepth(v, z) > 1
    ensures k in NormalKids(v, z) && VisitedDepth(v, z) == 1 + VisitedDepths(v, z)[k]
  {
    hide NormalForm;
    var depths := VisitedDepths(v, z);
    assert depths.Keys != {};
    k :| k in depths.Keys && MaxIn(depths, depths.Keys) == depths[k];
  }

  lemma ReadBackTooDeep(tables: seq<LuaTable>, t: LuaTable, v: Json, z: LuaValue, recursion: nat)
    requires IsPlain(z) && IsContainer(v) && recursion <= MAX_RECURSION && recursion + VisitedDepth(v, z) > 17
    requires IsOrderOf(t.order, t.content) && Mirrors(t.content, v, z)
    requires forall key | key in t.content :: ReadValue(tables, t.content[key], Null, recursion + 1) ==
               if recursion + 1 + VisitedDepths(v, z)[MemberOf(key)] <= 17
               then Got(NormalKids(v, z)[MemberOf(key)]) else Refused
    ensures ReadEntries(tables, t, 0, Null, recursion) == Refused
  {
    var k := DeepestKid(v, z);
    MirroredKeys(t.content, v, z);
    hide CStr, NormalForm, Store, KeyOf, VisitedDepths, VisitedDepth, NormalKids, ReadValue, ReadEntries, IsIndexKey,
      Mirrors;
    assert ReadValue(tables, t.content[KeyOf(k)], Null, recursion + 1) == Refused;
    DefinedEntries(tables, t, 0, Null, recursion);
    NotAllGot(tables, t, KeyOf(k), recursion);
  }

  lemma NotAllGot(tables: seq<LuaTable>, t: LuaTable, key: LuaValue, recursion: nat)
    requires recursion <= MAX_RECURSION && IsOrderOf(t.order, t.content) && key in t.content
    requires !ReadValue(tables, t.content[key], Null, recursion + 1).Got?
    ensures !ReadEntries(tables, t, 0, Null, recursion).Got?
  {
    hide ReadValue, ReadEntries, IsIndexKey;
    assert key in t.order;
    if ReadEntries(tables, t, 0, Null, recursion).Got? {
      EntriesNeed(tables, t, 0, Null, recursion);
    }
  }

  lemma {:induction false} DefinedEntries(tables: seq<LuaTable>, t: LuaTable, p: nat, root: Json, recursion: nat)
    requires p <= |t.order| && recursion <= MAX_RECURSION && IsOrderOf(t.order, t.content)
    requires forall key | key in t.content :: IsIndexKey(key) || key.Text?
    requires forall key | key in t.content :: !ReadValue(tables, t.content[key], Null, recursion + 1).Undefined?
    ensures !ReadEntries(tables, t, p, root, recursion).Undefined?
    decreases |t.order| - p
  {
    hide ReadValue, CStr, Kids;
    if p < |t.order| {
      assert t.order[p] in t.content;
      var r := EntryReading(tables, root, t.order[p], Get(t, t.order[p]), recursion);
      if r.Got? {
        DefinedEntries(tables, t, p + 1, r.value, recursion);
      }
    }
  }

  /** Pushing a JSON value and reading the new slot back, whatever order lua_next uses and whatever plain value is in
      the null slot. */
  method PushThenRead(L: LuaState, v: Json, nullIndex: nat) returns (r: Reading)
    requires WellFormed(v) && NulFreeNames(v) && Fits32(v)
    requires L.Valid() && 1 <= nullIndex <= |L.stack| && IsPlain(L.stack[nullIndex - 1])
    modifies L
    ensures L.Valid()
    ensures r == if VisitedDepth(v, old(L.stack)[nullIndex - 1]) <= 16
                 then Got(NormalForm(v, old(L.stack)[nullIndex - 1])) else Refused
    ensures Depth(v) <= 16 ==> r.Got?
    ensures r.Got? ==> L.stack == old(L.stack)
  {
    ghost var before, z := State(L), L.stack[nullIndex - 1];
    var pushed, threw := PushJson(L, v, nullIndex, true);
    hide NormalForm, VisitedDepth, Depth, NulFreeNames, WellFormed, Fits32, LuaState.Valid, Represents, Pushed,
      ReadValue;
    ghost var lv := PushedValue(before, State(L), v, nullIndex);
    WfKept(L);
    ReadBack(L.tables, lv, v, z, |before.tables|, 1);
    VisitedDepthAtMostDepth(v, z);
    ghost var now := FrameOf(L);
    r := ReadJson(L, Null, |L.stack|, 1);
    if r.Got? {
      GotPops(now, FrameOf(L), L.tables, |now.stack|, 1);
    }
  }

  lemma PushedValue(before: Snapshot, after: Snapshot, v: Json, nullIndex: nat) returns (lv: LuaValue)
    requires 1 <= nullIndex <= |before.stack| && Fits32(v) && NulFreeNames(v)
    requires Pushed(before, after, v, nullIndex, false)
    ensures after.stack == before.stack + [lv]
    ensures Represents(after.tables, lv, v, before.stack[nullIndex - 1], |before.tables|)
  {
    hide Represents, Fits32, NulFreeNames, SlotsNeeded;
    lv := after.stack[|before.stack|];
  }

  lemma GotPops(before: Frame, after: Frame, tables: seq<LuaTable>, index: nat, recursion: nat)
    requires 1 <= index <= |before.stack| && WasRead(before, after, tables, index, true, recursion)
    ensures after.stack == before.stack[..|before.stack| - 1]
  {
    hide ReadSlots;
  }

  // ---- Null slots that are not plain ----

  ghost predicate HasNull(v: Json) {
    exists path :: At(v, path) == Some(Null)
  }

  /** Without a null in the value it does not matter what is in the null slot. */
  lemma {:induction false} SlotDoesNotMatter(tables: seq<LuaTable>, lv: LuaValue, v: Json, z: LuaValue, y: LuaValue,
                                             lo: nat)
    requires Represents(tables, lv, v, z, lo) && !HasNull(v)
    ensures Represents(tables, lv, v, y, lo)
    decreases v
  {
    assert At(v, []) == Some(v);
    if IsContainer(v) {
      forall k | k in Kids(v) ensures Represents(tables, Get(tables[lv.id], KeyOf(k)), Kids(v)[k], y, lv.id + 1) {
        forall path ensures At(Kids(v)[k], path) != Some(Null) {
          AtKid(v, k, path);
        }
        SlotDoesNotMatter(tables, Get(tables[lv.id], KeyOf(k)), Kids(v)[k], z, y, lv.id + 1);
      }
    }
  }

  /** With a null in it, at the end of whatever path, and a null slot JSON has no counterpart for, reading is refused.
      */
  lemma {:induction false} OpaqueNullIsRefused(tables: seq<LuaTable>, lv: LuaValue, v: Json, z: LuaValue, lo: nat,
                                               path: seq<Member>, recursion: nat)
    requires WfHeap(tables) && z.Opaque? && Represents(tables, lv, v, z, lo) && At(v, path) == Some(Null)
    ensures !ReadValue(tables, lv, Null, recursion).Got?
    decreases |path|
  {
    ReadSucceedsExactly(tables, lv, recursion);
    if path != [] && Readable(tables, lv, recursion) {
      var k := path[0];
      var kid := Get(tables[lv.id], KeyOf(k));
      KidStands(tables, lv.id, v, z, k);
      EntryOfKid(tables, kid, Kids(v)[k], z, lv.id + 1);
      OpaqueNullIsRefused(tables, kid, Kids(v)[k], z, lv.id + 1, path[1..], recursion + 1);
      ReadSucceedsExactly(tables, kid, recursion + 1);
    }
  }

  // ---- The normal form, path by path ----

  lemma NormalFormKid(v: Json, z: LuaValue, k: Member)
    requires IsPlain(z)
    ensures k in Kids(NormalForm(v, z)) <==> k in Kids(v) && Stays(Kids(v)[k], z)
    ensures k in Kids(NormalForm(v, z)) ==> Kids(NormalForm(v, z))[k] == NormalForm(Kids(v)[k], z)
  {
  }

  /** The normal form has the paths of v, but for those to a null when the null slot is nil, and no other; at the end
      of each stands the number as a real, the text as C sees it, or for a null what the null slot reads as. */
  lemma {:induction false} NormalFormAt(v: Json, z: LuaValue, path: seq<Member>)
    requires IsPlain(z) && path != []
    ensures At(NormalForm(v, z), path).Some? <==> At(v, path).Some? && (At(v, path).value != Null || z != Nil)
    ensures At(NormalForm(v, z), path).Some? ==>
              At(NormalForm(v, z), path).value == NormalForm(At(v, path).value, z)
    decreases |path|
  {
    hide NormalForm, NormalKids;
    NormalFormKid(v, z, path[0]);
    if path[0] in Kids(v) && |path| > 1 {
      NormalFormAt(Kids(v)[path[0]], z, path[1..]);
    }
  }

  lemma NormalFormOfScalar(v: Json, z: LuaValue)
    requires IsPlain(z) && !IsContainer(v)
    ensures match v
            case Null =>
              (match z
               case Nil => NormalForm(v, z) == Null
               case Boolean(b) => NormalForm(v, z) == Bool(b)
               case Number(n) => NormalForm(v, z) == Real(n)
               case Text(s) => NormalForm(v, z) == Str(s))
            case Int(i) => NormalForm(v, z) == Real(i as real)
            case UInt(u) => NormalForm(v, z) == Real(u as real)
            case Str(s) => NormalForm(v, z).Str? && NormalForm(v, z).s <= s && ('\0' !in s ==> NormalForm(v, z) == v)
            case _ => NormalForm(v, z) == v
  {
  }

  // ---- The cap ----

  lemma {:induction false} NestedFacts(n: nat, z: LuaValue)
    requires IsPlain(z)
    ensures VisitedDepth(Nested(n), z) == n + 1 && NormalForm(Nested(n), z) == Nested(n)
    ensures WellFormed(Nested(n)) && NulFreeNames(Nested(n))
  {
    hide *;
    NestedUnfold(n);
    if n > 0 {
      NestedFacts(n - 1, z);
      OneKidForm(Nested(n), z, Name("k"));
      OneKidDepth(Nested(n), z, Name("k"));
      OneKidIsWell(Nested(n), Name("k"));
    } else {
      NormalFormOfScalar(Nested(0), z);
      ScalarIsWell(Nested(0), z);
    }
  }

  lemma NestedUnfold(n: nat)
    ensures if n == 0 then Nested(n) == Bool(true)
            else Nested(n) == Obj(map[Name("k") := Nested(n - 1)]) && Nested(n - 1) != Null
    ensures IsContainer(Nested(n)) <==> n > 0
    ensures n > 0 ==> Kids(Nested(n)) == map[Name("k") := Nested(n - 1)]
  {
  }

  lemma OneKidForm(v: Json, z: LuaValue, k: Member)
    requires IsPlain(z) && IsContainer(v) && k in Kids(v) && v.items == map[k := Kids(v)[k]] && Kids(v)[k] != Null
    ensures NormalForm(v, z) == v.(items := map[k := NormalForm(Kids(v)[k], z)])
  {
    assert NormalKids(v, z) == map[k := NormalForm(Kids(v)[k], z)];
    hide NormalKids;
  }

  lemma OneKidDepth(v: Json, z: LuaValue, k: Member)
    requires IsContainer(v) && k in Kids(v) && v.items == map[k := Kids(v)[k]] && Kids(v)[k] != Null
    ensures VisitedDepth(v, z) == 1 + VisitedDepth(Kids(v)[k], z)
  {
    var ds := VisitedDepths(v, z);
    assert k in ds.Keys && ds[k] == VisitedDepth(Kids(v)[k], z);
    assert forall j | j in ds :: j == k;
    hide VisitedDepths;
  }

  lemma OneKidIsWell(v: Json, k: Member)
    requires v.Obj? && k in Kids(v) && v.items == map[k := Kids(v)[k]] && k.Name? && '\0' !in k.s
    requires WellFormed(Kids(v)[k]) && NulFreeNames(Kids(v)[k])
    ensures WellFormed(v) && NulFreeNames(v)
  {
  }

  lemma ScalarIsWell(v: Json, z: LuaValue)
    requires !IsContainer(v)
    ensures WellFormed(v) && NulFreeNames(v) && VisitedDepth(v, z) == 1
  {
  }

  /** Sixteen levels come back, seventeen do not: fifteen and sixteen objects around a scalar. */
  lemma CapIsSixteen(tables: seq<LuaTable>, lv: LuaValue, z: LuaValue, lo: nat)
    requires WfHeap(tables) && IsPlain(z)
    ensures Represents(tables, lv, Nested(15), z, lo) ==> ReadValue(tables, lv, Null, 1) == Got(Nested(15))
    ensures Represents(tables, lv, Nested(16), z, lo) ==> ReadValue(tables, lv, Null, 1) == Refused
  {
    NestedFacts(15, z);
    NestedFacts(16, z);
    hide *;
    if Represents(tables, lv, Nested(15), z, lo) {
      ReadBack(tables, lv, Nested(15), z, lo, 1);
    }
    if Represents(tables, lv, Nested(16), z, lo) {
      ReadBack(tables, lv, Nested(16), z, lo, 1);
    }
  }
}
