// JSON -> Lua: the recursive walker that builds a tree of tables on the Lua stack.
module LuaPush {
  import opened JsonModel
  import opened LuaMachine

  ghost function Depth(v: Json): (d: nat)
    ensures d >= 1
    decreases v, 1
  {
    if IsContainer(v) then 1 + MaxIn(Depths(v), Kids(v).Keys) else 1
  }

  ghost function Depths(v: Json): (ds: map<Member, nat>)
    ensures ds.Keys == Kids(v).Keys
    decreases v, 0
  {
    map k | k in Kids(v) :: Depth(Kids(v)[k])
  }

  /** Depth is one more than the length of the longest path. */
  lemma {:induction false} PathsAreShort(v: Json, path: seq<Member>)
    requires At(v, path).Some?
    ensures |path| < Depth(v)
    decreases |path|
  {
    if path != [] {
      var k := path[0];
      assert Depths(v)[k] <= MaxIn(Depths(v), Kids(v).Keys);
      PathsAreShort(Kids(v)[k], path[1..]);
    }
  }

  lemma {:induction false} LongestPath(v: Json) returns (path: seq<Member>)
    ensures At(v, path).Some? && |path| + 1 == Depth(v)
    decreases v
  {
    path := [];
    if Kids(v) != map[] {
      var k :| k in Kids(v).Keys && MaxIn(Depths(v), Kids(v).Keys) == Depths(v)[k];
      path := LongestPath(Kids(v)[k]);
      AtKid(v, k, path);
      path := [k] + path;
    }
  }

  /** The most slots in use above the start while v is being pushed. */
  ghost function SlotsNeeded(v: Json): (n: nat)
    ensures n >= 1
    decreases v, 1
  {
    if Kids(v) == map[] then 1
    else SlotsPerLevel(v) + MaxIn(KidSlots(v), Kids(v).Keys)
  }

  ghost function KidSlots(v: Json): (ns: map<Member, nat>)
    ensures ns.Keys == Kids(v).Keys
    decreases v, 0
  {
    map k | k in Kids(v) :: SlotsNeeded(Kids(v)[k])
  }

  /** Slots in use when the walker descends to a child: the table, and in an object also the key. */
  function SlotsPerLevel(v: Json): nat {
    if v.Arr? then 1 else 2
  }

  /** asInt and asUInt throw on a number outside 32 bits. */
  predicate Number32(v: Json) {
    && (v.Int? ==> -0x8000_0000 <= v.i < 0x8000_0000)
    && (v.UInt? ==> v.u < 0x1_0000_0000)
  }

  ghost predicate Fits32(v: Json)
    decreases v
  {
    Number32(v) && forall k | k in Kids(v) :: Fits32(Kids(v)[k])
  }

  /** A number of the kinds that are converted to 32 bits is in the range of its kind. */
  predicate InRange(v: Json) {
    match v
    case Int(i) => -2147483648 <= i <= 2147483647
    case UInt(u) => u <= 4294967295
    case _ => true
  }

  /** v fits exactly when every number in it, at the end of whatever path, does. */
  lemma {:induction false} FitsAtEveryPath(v: Json)
    ensures Fits32(v) <==> forall path | At(v, path).Some? :: InRange(At(v, path).value)
    decreases v
  {
    forall path | Fits32(v) && At(v, path).Some? ensures InRange(At(v, path).value) {
      FitsAt(v, path);
    }
    if !Fits32(v) {
      var path := Misfit(v);
    }
  }

  lemma {:induction false} FitsAt(v: Json, path: seq<Member>)
    requires Fits32(v) && At(v, path).Some?
    ensures InRange(At(v, path).value)
    decreases |path|
  {
    if path != [] {
      FitsAt(Kids(v)[path[0]], path[1..]);
    }
  }

  lemma {:induction false} Misfit(v: Json) returns (path: seq<Member>)
    requires !Fits32(v)
    ensures At(v, path).Some? && !InRange(At(v, path).value)
    decreases v
  {
    path := [];
    if Number32(v) {
      var k :| k in Kids(v) && !Fits32(Kids(v)[k]);
      path := Misfit(Kids(v)[k]);
      AtKid(v, k, path);
      path := [k] + path;
    }
  }

  function KeyOf(k: Member): LuaValue {
    match k
    case Index(i) => Number((i + 1) as real)
    case Name(s) => Text(CStr(s))
  }

  function ScalarOf(v: Json, nullValue: LuaValue): LuaValue
    requires !IsContainer(v)
  {
    match v
    case Int(i) => Number(i as real)
    case UInt(u) => Number(u as real)
    case Real(r) => Number(r)
    case Str(s) => Text(CStr(s))
    case Bool(b) => Boolean(b)
    case _ => nullValue
  }

  /** Lua value lv stands for v in the heap; every table it uses has an id from lo on. */
  ghost predicate Represents(tables: seq<LuaTable>, lv: LuaValue, v: Json, nullValue: LuaValue, lo: nat)
    decreases v, 1
  {
    if IsContainer(v) then
      lv.Table? && lo <= lv.id && RepresentsKids(tables, lv.id, v, Kids(v).Keys, nullValue)
    else
      lv == ScalarOf(v, nullValue)
  }

  /** The table with this id holds exactly the children of v under the keys in dom. */
  ghost predicate RepresentsKids(tables: seq<LuaTable>, id: nat, v: Json, dom: set<Member>, nullValue: LuaValue)
    requires dom <= Kids(v).Keys
    decreases v, 0
  {
    && id < |tables|
    && (forall key | key in tables[id].content :: exists k :: k in dom && key == KeyOf(k))
    && (forall k | k in dom ::
          Represents(tables, Get(tables[id], KeyOf(k)), Kids(v)[k], nullValue, id + 1))
  }

  /** What stands for v keeps standing for it when only tables below lo change and new ones are added. */
  lemma {:induction false} RepresentsFrame(before: seq<LuaTable>, after: seq<LuaTable>, lv: LuaValue, v: Json,
                                           nullValue: LuaValue, lo: nat)
    requires Represents(before, lv, v, nullValue, lo)
    requires |before| <= |after| && forall i | lo <= i < |before| :: after[i] == before[i]
    ensures Represents(after, lv, v, nullValue, lo)
    decreases v
  {
    if IsContainer(v) {
      forall k | k in Kids(v)
        ensures Represents(after, Get(after[lv.id], KeyOf(k)), Kids(v)[k], nullValue, lv.id + 1)
      {
        RepresentsFrame(before, after, Get(before[lv.id], KeyOf(k)), Kids(v)[k], nullValue, lv.id + 1);
      }
    }
  }

  /** Adding the child under k to the table under construction keeps the children already there. */
  lemma ExtendKids(before: seq<LuaTable>, pushed: seq<LuaTable>, after: seq<LuaTable>, id: nat, v: Json,
                   dom: set<Member>, k: Member, lv: LuaValue, nullValue: LuaValue)
    requires dom <= Kids(v).Keys && k in Kids(v) && k !in dom && NulFreeNames(v)
    requires RepresentsKids(before, id, v, dom, nullValue)
    requires Extends(before, pushed) && |pushed| == |after|
    requires forall i | 0 <= i < |pushed| && i != id :: after[i] == pushed[i]
    requires Represents(pushed, lv, Kids(v)[k], nullValue, |before|)
    requires after[id].content == Assigned(pushed[id].content, KeyOf(k), lv)
    ensures RepresentsKids(after, id, v, dom + {k}, nullValue)
  {
    assert forall j | j in dom :: KeyOf(j) != KeyOf(k);
    forall j | j in dom + {k}
      ensures Represents(after, Get(after[id], KeyOf(j)), Kids(v)[j], nullValue, id + 1)
    {
      if j == k {
        RepresentsFrame(pushed, after, lv, Kids(v)[k], nullValue, |before|);
        assert Get(after[id], KeyOf(k)) == lv;
      } else {
        RepresentsFrame(before, after, Get(before[id], KeyOf(j)), Kids(v)[j], nullValue, id + 1);
      }
    }
    forall key | key in after[id].content
      ensures exists j :: j in dom + {k} && key == KeyOf(j)
    {
      if key != KeyOf(k) {
        var j :| j in dom && key == KeyOf(j);
        assert j in dom + {k};
      } else {
        assert k in dom + {k};
      }
    }
  }

  /** The comment in the source promises two slots for each level; one of them is never used. */
  lemma {:induction false} SlotsBound(v: Json)
    ensures SlotsNeeded(v) <= 2 * Depth(v) - 1
    decreases v
  {
    if Kids(v) != map[] {
      var k0 :| k0 in Kids(v);
      assert Kids(v).Keys != {};
      var k :| k in Kids(v) && MaxIn(KidSlots(v), Kids(v).Keys) == KidSlots(v)[k];
      SlotsBound(Kids(v)[k]);
      assert Depths(v)[k] <= MaxIn(Depths(v), Kids(v).Keys);
    }
  }

  /** A chain of n nested objects around a scalar reaches the bound at every depth. */
  function Nested(n: nat): Json {
    if n == 0 then Bool(true) else Obj(map[Name("k") := Nested(n - 1)])
  }

  lemma {:induction false} SlotsBoundTight(n: nat)
    ensures Depth(Nested(n)) == n + 1 && SlotsNeeded(Nested(n)) == 2 * n + 1
  {
    if n > 0 {
      SlotsBoundTight(n - 1);
      var v := Nested(n);
      assert Name("k") in Kids(v).Keys;
      assert Depths(v)[Name("k")] == n;
      assert KidSlots(v)[Name("k")] == 2 * n - 1;
    }
  }

  method GetDepth(v: Json) returns (depth: nat)
    ensures depth == Depth(v)
    decreases v
  {
    if !v.Arr? && !v.Obj? {
      return 1;
    }
    var kids := Kids(v);
    var maxdepth := 0;
    var rest := kids.Keys;
    while rest != {}
      invariant rest <= kids.Keys
      invariant maxdepth == MaxIn(Depths(v), kids.Keys - rest)
    {
      var k :| k in rest;
      var elemdepth := GetDepth(kids[k]);
      if elemdepth > maxdepth {
        maxdepth := elemdepth;
      }
      MaxInAdd(Depths(v), kids.Keys - rest, k);
      assert (kids.Keys - rest) + {k} == kids.Keys - (rest - {k});
      rest := rest - {k};
    }
    assert kids.Keys - rest == kids.Keys;
    return maxdepth + 1;
  }

  // The state of the Lua stack and heap at one moment.
  datatype Snapshot = Snapshot(stack: seq<LuaValue>, tables: seq<LuaTable>, peak: nat)

  ghost function State(L: LuaState): Snapshot
    reads L
  {
    Snapshot(L.stack, L.tables, L.peak)
  }

  /** What pushing v does: it throws exactly when a number does not fit; otherwise there is one more slot, which stands
      for v, and the slots in use never exceeded what v needs, a need that is reached. Nothing below changes. */
  ghost predicate Pushed(before: Snapshot, after: Snapshot, v: Json, nullIndex: nat, threw: bool)
    requires 1 <= nullIndex <= |before.stack|
  {
    && (threw <==> !Fits32(v))
    && Extends(before.tables, after.tables) && before.stack <= after.stack
    && (!threw ==> |after.stack| == |before.stack| + 1)
    && (!threw && NulFreeNames(v) ==>
          Represents(after.tables, after.stack[|before.stack|], v, before.stack[nullIndex - 1], |before.tables|))
    && after.peak <= Max(before.peak, |before.stack| + SlotsNeeded(v))
    && (!threw ==> after.peak == Max(before.peak, |before.stack| + SlotsNeeded(v)))
  }

  /** push_json_value_helper. */
  method PushHelper(L: LuaState, v: Json, nullIndex: nat) returns (threw: bool)
    requires WellFormed(v) && L.Valid() && 1 <= nullIndex <= |L.stack|
    modifies L`stack, L`tables, L`peak
    ensures L.Valid()
    ensures Pushed(old(State(L)), State(L), v, nullIndex, threw)
    decreases v, 3
  {
    if !IsContainer(v) {
      if !Number32(v) {
        return true;
      }
      L.Push(ScalarOf(v, L.stack[nullIndex - 1]));
      return false;
    }
    threw := PushContainer(L, v, nullIndex);
  }

  /** The array and object cases: a new table is filled child by child, in any order. */
  method PushContainer(L: LuaState, v: Json, nullIndex: nat) returns (threw: bool)
    requires IsContainer(v)
    requires WellFormed(v) && L.Valid() && 1 <= nullIndex <= |L.stack|
    modifies L`stack, L`tables, L`peak
    ensures L.Valid()
    ensures Pushed(old(State(L)), State(L), v, nullIndex, threw)
    decreases v, 2
  {
    ghost var start := State(L);
    SlotsAll(v);
    L.NewTable();
    BuildingStarts(State(L), start, v, nullIndex);
    var kids := Kids(v).Keys;
    var rest := kids;
    ghost var done: set<Member> := {};
    hide *;
    while rest != {}
      invariant rest !! done && rest + done == kids
      invariant L.Valid() && Building(State(L), start, v, done, nullIndex)
      decreases rest
    {
      var k :| k in rest;
      threw := PushNext(L, v, start, done, k, nullIndex);
      if threw {
        return;
      }
      rest, done := rest - {k}, done + {k};
    }
    BuildingEnds(State(L), start, v, nullIndex);
    return false;
  }

  /** Between two rounds of the loop: the table on top holds the children under the keys in done. */
  ghost predicate Building(now: Snapshot, start: Snapshot, v: Json, done: set<Member>, nullIndex: nat)
    requires done <= Kids(v).Keys && 1 <= nullIndex <= |start.stack|
  {
    var id := |start.tables|;
    && now.stack == start.stack + [Table(id)]
    && id < |now.tables| && Extends(start.tables, now.tables)
    && (forall k | k in done :: Fits32(Kids(v)[k]))
    && (NulFreeNames(v) ==> RepresentsKids(now.tables, id, v, done, start.stack[nullIndex - 1]))
    && now.peak == Max(start.peak, |start.stack| + SlotsSoFar(v, done))
  }

  lemma BuildingStarts(now: Snapshot, start: Snapshot, v: Json, nullIndex: nat)
    requires IsContainer(v) && 1 <= nullIndex <= |start.stack|
    requires now.stack == start.stack + [Table(|start.tables|)]
    requires now.tables == start.tables + [LuaTable(map[], [])]
    requires now.peak == Max(start.peak, |start.stack| + 1)
    ensures Building(now, start, v, {}, nullIndex)
  {
  }

  lemma BuildingEnds(now: Snapshot, start: Snapshot, v: Json, nullIndex: nat)
    requires IsContainer(v) && 1 <= nullIndex <= |start.stack|
    requires Building(now, start, v, Kids(v).Keys, nullIndex)
    ensures Pushed(start, now, v, nullIndex, false)
  {
    SlotsAll(v);
  }

  /** One round of the loop. */
  method PushNext(L: LuaState, v: Json, ghost start: Snapshot, ghost done: set<Member>, k: Member, nullIndex: nat)
    returns (threw: bool)
    requires WellFormed(v) && done <= Kids(v).Keys && k in Kids(v) && k !in done
    requires L.Valid() && 1 <= nullIndex <= |start.stack|
    requires Building(State(L), start, v, done, nullIndex)
    modifies L`stack, L`tables, L`peak
    ensures L.Valid()
    ensures !threw ==> Building(State(L), start, v, done + {k}, nullIndex)
    ensures threw ==> Pushed(start, State(L), v, nullIndex, true)
    decreases v, 1
  {
    assert L.stack == start.stack + [Table(|start.tables|)] && |start.tables| < |L.tables|;
    hide *;
    ghost var before := State(L);
    ghost var pushed, lv;
    threw, pushed, lv := PushKid(L, v, start.stack, |start.tables|, k, nullIndex);
    if threw {
      BuildingAborts(before, State(L), start, v, done, k, pushed, lv, nullIndex);
    } else {
      BuildingGoesOn(before, State(L), start, v, done, k, pushed, lv, nullIndex);
    }
  }

  lemma BuildingAborts(before: Snapshot, now: Snapshot, start: Snapshot, v: Json, done: set<Member>, k: Member,
                       pushed: seq<LuaTable>, lv: LuaValue, nullIndex: nat)
    requires done <= Kids(v).Keys && k in Kids(v) && 1 <= nullIndex <= |start.stack|
    requires Building(before, start, v, done, nullIndex)
    requires KidPushed(before, now, v, start.stack, |start.tables|, k, nullIndex, true, pushed, lv)
    ensures Pushed(start, now, v, nullIndex, true)
  {
    SlotsStep(v, done, k);
    hide SlotsNeeded, Represents, RepresentsKids, NulFreeNames, SlotsSoFar;
  }

  lemma BuildingGoesOn(before: Snapshot, now: Snapshot, start: Snapshot, v: Json, done: set<Member>, k: Member,
                       pushed: seq<LuaTable>, lv: LuaValue, nullIndex: nat)
    requires done <= Kids(v).Keys && k in Kids(v) && k !in done && 1 <= nullIndex <= |start.stack|
    requires Building(before, start, v, done, nullIndex)
    requires KidPushed(before, now, v, start.stack, |start.tables|, k, nullIndex, false, pushed, lv)
    ensures Building(now, start, v, done + {k}, nullIndex)
  {
    SlotsStep(v, done, k);
    KidsGoOn(before, now, start, v, done, k, pushed, lv, nullIndex);
    hide SlotsNeeded, Represents, RepresentsKids, SlotsSoFar, NulFreeNames, Fits32, KeyOf, Assigned;
  }

  lemma KidsGoOn(before: Snapshot, now: Snapshot, start: Snapshot, v: Json, done: set<Member>, k: Member,
                 pushed: seq<LuaTable>, lv: LuaValue, nullIndex: nat)
    requires done <= Kids(v).Keys && k in Kids(v) && k !in done && 1 <= nullIndex <= |start.stack|
    requires Building(before, start, v, done, nullIndex)
    requires KidPushed(before, now, v, start.stack, |start.tables|, k, nullIndex, false, pushed, lv)
    ensures NulFreeNames(v) ==>
              RepresentsKids(now.tables, |start.tables|, v, done + {k}, start.stack[nullIndex - 1])
  {
    KidFacts(v, k);
    hide SlotsNeeded, Represents, RepresentsKids, SlotsSoFar, NulFreeNames, Fits32, KeyOf, Assigned;
    if NulFreeNames(v) {
      ExtendKids(before.tables, pushed, now.tables, |start.tables|, v, done, k, lv, start.stack[nullIndex - 1]);
    }
  }

  ghost function SlotsSoFar(v: Json, dom: set<Member>): nat
    requires dom <= Kids(v).Keys
  {
    if dom == {} then 1 else SlotsPerLevel(v) + MaxIn(KidSlots(v), dom)
  }

  lemma SlotsAll(v: Json)
    requires IsContainer(v)
    ensures SlotsSoFar(v, {}) == 1 && SlotsSoFar(v, Kids(v).Keys) == SlotsNeeded(v)
  {
  }

  lemma SlotsStep(v: Json, dom: set<Member>, k: Member)
    requires dom <= Kids(v).Keys && k in Kids(v)
    ensures SlotsSoFar(v, dom + {k}) == Max(SlotsSoFar(v, dom), SlotsPerLevel(v) + SlotsNeeded(Kids(v)[k]))
    ensures SlotsSoFar(v, dom + {k}) <= SlotsNeeded(v)
  {
    MaxInAdd(KidSlots(v), dom, k);
    var j :| j in dom + {k} && MaxIn(KidSlots(v), dom + {k}) == KidSlots(v)[j];
    assert j in Kids(v).Keys;
  }

  /** The loop body: the child under k is pushed and stored in the table with this id, which is on top. */
  method PushKid(L: LuaState, v: Json, ghost below: seq<LuaValue>, ghost id: nat, k: Member, nullIndex: nat)
    returns (threw: bool, ghost pushed: seq<LuaTable>, ghost lv: LuaValue)
    requires WellFormed(v) && k in Kids(v)
    requires L.Valid() && L.stack == below + [Table(id)] && 1 <= nullIndex <= |below| && id < |L.tables|
    modifies L`stack, L`tables, L`peak
    ensures L.Valid()
    ensures KidPushed(old(State(L)), State(L), v, below, id, k, nullIndex, threw, pushed, lv)
    decreases v, 0
  {
    hide WellFormed, LuaState.Valid, CStr, Kids, Pushed;
    ghost var before := State(L);
    KidKind(v, k);
    if k.Name? {
      L.Push(Text(CStr(k.s)));
    }
    ghost var deeper := State(L);
    threw := PushHelper(L, Kids(v)[k], nullIndex);
    pushed := L.tables;
    lv := PushedSlot(deeper, State(L), Kids(v)[k], nullIndex, threw);
    ghost var now := State(L);
    if !threw {
      if k.Index? {
        assert L.stack == below + [Table(id), lv];
        L.RawSetI(k.i + 1, below, id, lv);
      } else {
        assert L.stack == below + [Table(id), KeyOf(k), lv];
        L.RawSet(below, id, KeyOf(k), lv);
      }
    }
    KidPushedIntro(before, deeper, now, State(L), v, below, id, k, nullIndex, threw, pushed, lv);
  }

  lemma KidKind(v: Json, k: Member)
    requires WellFormed(v) && k in Kids(v)
    ensures WellFormed(Kids(v)[k])
    ensures if v.Arr? then k.Index? else k.Name?
  {
  }

  lemma PushedSlot(before: Snapshot, after: Snapshot, v: Json, nullIndex: nat, threw: bool) returns (lv: LuaValue)
    requires 1 <= nullIndex <= |before.stack| && Pushed(before, after, v, nullIndex, threw)
    ensures !threw ==> after.stack == before.stack + [lv]
    ensures |before.tables| <= |after.tables|
  {
    lv := if threw then Nil else after.stack[|before.stack|];
  }

  /** What the loop body does: pushed is the heap between pushing the child and storing it. */
  ghost predicate KidPushed(before: Snapshot, after: Snapshot, v: Json, below: seq<LuaValue>, id: nat, k: Member,
                            nullIndex: nat, threw: bool, pushed: seq<LuaTable>, lv: LuaValue)
    requires k in Kids(v) && 1 <= nullIndex <= |below|
  {
    var kid := Kids(v)[k];
    && (threw <==> !Fits32(kid))
    && Extends(before.tables, pushed) && |pushed| == |after.tables| && id < |pushed|
    && (forall i | 0 <= i < |pushed| && i != id :: after.tables[i] == pushed[i])
    && below <= after.stack
    && (!threw ==>
          && after.stack == below + [Table(id)]
          && after.tables[id].content == Assigned(pushed[id].content, KeyOf(k), lv)
          && (NulFreeNames(kid) ==> Represents(pushed, lv, kid, below[nullIndex - 1], |before.tables|)))
    && after.peak <= Max(before.peak, |below| + SlotsPerLevel(v) + SlotsNeeded(kid))
    && (!threw ==> after.peak == Max(before.peak, |below| + SlotsPerLevel(v) + SlotsNeeded(kid)))
  }

  lemma KidPushedIntro(before: Snapshot, deeper: Snapshot, now: Snapshot, after: Snapshot, v: Json,
                       below: seq<LuaValue>, id: nat, k: Member, nullIndex: nat, threw: bool, pushed: seq<LuaTable>,
                       lv: LuaValue)
    requires k in Kids(v) && 1 <= nullIndex <= |below| && id < |before.tables|
    requires before.stack == below + [Table(id)]
    requires deeper.stack == before.stack + if v.Arr? then [] else [KeyOf(k)]
    requires deeper.tables == before.tables
    requires deeper.peak == if v.Arr? then before.peak else Max(before.peak, |before.stack| + 1)
    requires Pushed(deeper, now, Kids(v)[k], nullIndex, threw) && pushed == now.tables
    requires !threw ==> now.stack == deeper.stack + [lv]
    requires after.peak == now.peak && |after.tables| == |pushed|
    requires forall i | 0 <= i < |pushed| && i != id :: after.tables[i] == pushed[i]
    requires if threw then after.stack == now.stack else after.stack == below + [Table(id)]
    requires !threw && id < |pushed| ==> after.tables[id].content == Assigned(pushed[id].content, KeyOf(k), lv)
    ensures KidPushed(before, after, v, below, id, k, nullIndex, threw, pushed, lv)
  {
    hide Represents, Fits32, SlotsNeeded, NulFreeNames, KeyOf, Assigned;
  }

  /** push_json_value: reserves two slots for each level of v and walks it. A negative null index counts from the
      top. Reports whether the stack could be reserved, and whether the walk ended in an exception. */
  method PushJson(L: LuaState, v: Json, nullIndex: int, memory: bool) returns (ok: bool, threw: bool)
    requires WellFormed(v) && L.Valid()
    requires 1 <= nullIndex <= |L.stack| || -|L.stack| <= nullIndex <= -1
    modifies L
    ensures L.Valid()
    ensures !memory ==> !ok && !threw && unchanged(L)
    ensures memory ==> ok == !threw
    ensures memory ==> Pushed(old(State(L)), State(L), v, SlotOf(nullIndex, |old(L.stack)|), threw)
    // Every slot in use lies below what lua_checkstack has promised.
    ensures old(L.peak) <= old(L.reserved) ==> L.peak <= L.reserved
  {
    var slot := SlotOf(nullIndex, |L.stack|);
    var depth := GetDepth(v);
    ghost var before := State(L);
    hide LuaState.Valid, WellFormed, Depth, Pushed, Fits32, NulFreeNames, SlotsNeeded, Represents;
    ok := L.CheckStack(depth * 2, memory);
    if !ok {
      return false, false;
    }
    threw := PushHelper(L, v, slot);
    StaysReserved(before, State(L), v, slot, threw, old(L.reserved), L.reserved);
    ok := !threw;
  }

  lemma StaysReserved(before: Snapshot, after: Snapshot, v: Json, nullIndex: nat, threw: bool, was: nat, now: nat)
    requires 1 <= nullIndex <= |before.stack| && Pushed(before, after, v, nullIndex, threw)
    requires now == Max(was, |before.stack| + Depth(v) * 2)
    ensures before.peak <= was ==> after.peak <= now
  {
    ReservationHolds(before, after, v, nullIndex, threw);
    hide Pushed, Depth;
  }

  function SlotOf(index: int, top: nat): int {
    if index < 0 then top + 1 + index else index
  }

  lemma ReservationHolds(before: Snapshot, after: Snapshot, v: Json, nullIndex: nat, threw: bool)
    requires 1 <= nullIndex <= |before.stack| && Pushed(before, after, v, nullIndex, threw)
    ensures after.peak <= Max(before.peak, |before.stack| + 2 * Depth(v))
  {
    SlotsBound(v);
    hide Represents, Fits32, NulFreeNames, SlotsNeeded, Depth;
  }

  // ---- What a null becomes ----

  /** Pushing a null copies the null slot, whatever it holds. */
  lemma NullIsTheSlot(before: Snapshot, after: Snapshot, nullIndex: nat, threw: bool)
    requires 1 <= nullIndex <= |before.stack| && Pushed(before, after, Null, nullIndex, threw)
    ensures !threw && after.stack == before.stack + [before.stack[nullIndex - 1]]
  {
    hide SlotsNeeded;
  }

  /** Where a script finds the child under k: an array is counted from 1. */
  function ScriptKey(k: Member): LuaValue {
    match k
    case Index(i) => Number(i as real + 1.0)
    case Name(s) => Text(s)
  }

  /** A container becomes a new table with an entry for every child and no other; the entry of a null child is the
      value of the null slot. Only if that is nil a null child has none. */
  lemma NullsInTable(before: Snapshot, after: Snapshot, v: Json, nullIndex: nat) returns (id: nat)
    requires IsContainer(v) && NulFreeNames(v) && WfHeap(after.tables)
    requires 1 <= nullIndex <= |before.stack| && Pushed(before, after, v, nullIndex, false)
    ensures after.stack == before.stack + [Table(id)] && |before.tables| <= id < |after.tables|
    ensures var content, z := after.tables[id].content, before.stack[nullIndex - 1];
            && content.Keys == (set k | k in Kids(v) && (Kids(v)[k] != Null || z != Nil) :: ScriptKey(k))
            && forall k | k in Kids(v) && Kids(v)[k] == Null && z != Nil :: content[ScriptKey(k)] == z
  {
    hide SlotsNeeded, Fits32, NulFreeNames, Represents, RepresentsKids;
    id := NullsInTableAt(after.tables, after.stack[|before.stack|], v, before.stack[nullIndex - 1], |before.tables|);
  }

  lemma NullsInTableAt(tables: seq<LuaTable>, lv: LuaValue, v: Json, z: LuaValue, lo: nat) returns (id: nat)
    requires IsContainer(v) && NulFreeNames(v) && WfHeap(tables) && Represents(tables, lv, v, z, lo)
    ensures lv == Table(id) && lo <= id < |tables|
    ensures var content := tables[id].content;
            && content.Keys == (set k | k in Kids(v) && (Kids(v)[k] != Null || z != Nil) :: ScriptKey(k))
            && forall k | k in Kids(v) && Kids(v)[k] == Null && z != Nil :: content[ScriptKey(k)] == z
  {
    id := lv.id;
    assert RepresentsKids(tables, id, v, Kids(v).Keys, z);
    WfAt(tables, |tables|, |tables|, id);
    var content := tables[id].content;
    forall k | k in Kids(v)
      ensures KeyOf(k) == ScriptKey(k)
      ensures ScriptKey(k) in content <==> Kids(v)[k] != Null || z != Nil
      ensures Kids(v)[k] == Null && z != Nil ==> content[ScriptKey(k)] == z
    {
      KeyIsScriptKey(v, k);
      EntryOfKid(tables, Get(tables[id], KeyOf(k)), Kids(v)[k], z, id + 1);
    }
    forall key | key in content ensures exists k :: k in Kids(v) && key == ScriptKey(k) {
      var k :| k in Kids(v).Keys && key == KeyOf(k);
    }
  }

  lemma KeyIsScriptKey(v: Json, k: Member)
    requires NulFreeNames(v) && k in Kids(v)
    ensures KeyOf(k) == ScriptKey(k)
  {
    assert k.Index? ==> (k.i + 1) as real == k.i as real + 1.0;
  }

  /** Only a null can stand as nil. */
  lemma EntryOfKid(tables: seq<LuaTable>, lv: LuaValue, v: Json, z: LuaValue, lo: nat)
    requires Represents(tables, lv, v, z, lo)
    ensures lv == Nil <==> v == Null && z == Nil
    ensures v == Null ==> lv == z
  {
    hide RepresentsKids;
  }
}
