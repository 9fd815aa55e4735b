// Lua -> JSON: the recursive walker that reads a value, enumerating tables in whatever order lua_next gives.
module LuaRead {
  import opened JsonModel
  import opened LuaMachine

  const MAX_RECURSION: nat := 16

  function Budget(recursion: nat): nat {
    if recursion > MAX_RECURSION then 0 else MAX_RECURSION + 1 - recursion
  }

  /** A key that is the index of an array element: a whole number from 1 on that fits 32 bits. */
  predicate IsIndexKey(key: LuaValue) {
    key.Number? && key.n >= 1.0 && key.n.Floor as real == key.n && key.n < 0x1_0000_0000 as real
  }

  /** Where the value under key lands in the JSON container. A name stops at its first NUL. */
  function MemberOf(key: LuaValue): Member
    requires IsIndexKey(key) || key.Text?
  {
    if key.Text? then Name(CStr(key.s)) else Index(key.n.Floor - 1)
  }

  // What a read ends in: a value, false, or the conversion to an array index of a number beyond 32 bits, which C++
  // leaves undefined.
  datatype Reading = Got(value: Json) | Refused | Undefined

  /** One round of the loop body after the recursive call: root[key] = value, or the reason to give up. */
  function Store(root: Json, key: LuaValue, value: Json): Reading {
    match key
    case Number(n) =>
      if !root.Null? && !root.Arr? then Refused
      else if n < 1.0 then Refused
      else if n.Floor as real != n then Refused
      else if n >= 0x1_0000_0000 as real then Undefined
      else Got(Arr(Kids(root)[Index(n.Floor - 1) := value]))
    case Text(s) =>
      if !root.Null? && !root.Obj? then Refused
      else Got(Obj(Kids(root)[Name(CStr(s)) := value]))
    case _ => Refused
  }

  /** What reading v into root gives, the tables being enumerated in the order they have. */
  function ReadValue(tables: seq<LuaTable>, v: LuaValue, root: Json, recursion: nat): Reading
    decreases Budget(recursion), 1, 0
  {
    if recursion > MAX_RECURSION then Refused else
      match v
      case Nil => Got(Null)
      case Boolean(b) => Got(Bool(b))
      case Number(n) => Got(Real(n))
      case Text(s) => Got(Str(s))
      case Table(id) => if id < |tables| then ReadEntries(tables, tables[id], 0, root, recursion) else Refused
      case Opaque(_) => Refused
  }

  function ReadEntries(tables: seq<LuaTable>, t: LuaTable, p: nat, root: Json, recursion: nat): Reading
    requires p <= |t.order| && recursion <= MAX_RECURSION
    decreases Budget(recursion), 0, |t.order| - p
  {
    if p == |t.order| then Got(root) else
      var r := EntryReading(tables, root, t.order[p], Get(t, t.order[p]), recursion);
      if r.Got? then ReadEntries(tables, t, p + 1, r.value, recursion) else r
  }

  /** The entry v under key, read and stored. */
  function EntryReading(tables: seq<LuaTable>, root: Json, key: LuaValue, v: LuaValue, recursion: nat): Reading
    requires recursion <= MAX_RECURSION
    decreases Budget(recursion), 0, 0
  {
    var r := ReadValue(tables, v, Null, recursion + 1);
    if r.Got? then Store(root, key, r.value) else r
  }

  // ---- Which values can be read ----

  ghost predicate Uniform(content: map<LuaValue, LuaValue>) {
    (forall key | key in content :: IsIndexKey(key)) || (forall key | key in content :: key.Text?)
  }

  /** At most 16 levels are visited, every value has a JSON counterpart, and the keys of each table are all names or
      all indexes. Orders play no part in this. */
  ghost predicate Readable(tables: seq<LuaTable>, v: LuaValue, recursion: nat)
    decreases Budget(recursion)
  {
    && recursion <= 16
    && !v.Opaque?
    && (v.Table? ==>
          && v.id < |tables|
          && Uniform(tables[v.id].content)
          && forall key | key in tables[v.id].content ::
               Readable(tables, tables[v.id].content[key], recursion + 1))
  }

  ghost predicate KindFits(root: Json, content: map<LuaValue, LuaValue>) {
    || root.Null?
    || (root.Arr? && forall key | key in content :: IsIndexKey(key))
    || (root.Obj? && forall key | key in content :: key.Text?)
  }

  lemma {:induction false} EntriesSucceed(tables: seq<LuaTable>, t: LuaTable, p: nat, root: Json, recursion: nat)
    requires p <= |t.order| && recursion <= MAX_RECURSION && IsOrderOf(t.order, t.content)
    requires Uniform(t.content) && KindFits(root, t.content)
    requires forall key | key in t.content :: ReadValue(tables, t.content[key], Null, recursion + 1).Got?
    ensures ReadEntries(tables, t, p, root, recursion).Got?
    decreases |t.order| - p
  {
    if p < |t.order| {
      var key := t.order[p];
      assert key in t.content;
      var r := EntryReading(tables, root, key, Get(t, key), recursion);
      EntriesSucceed(tables, t, p + 1, r.value, recursion);
    }
  }

  lemma {:induction false} EntriesNeed(tables: seq<LuaTable>, t: LuaTable, p: nat, root: Json, recursion: nat)
    requires p <= |t.order| && recursion <= MAX_RECURSION
    requires ReadEntries(tables, t, p, root, recursion).Got?
    ensures forall q | p <= q < |t.order| :: ReadValue(tables, Get(t, t.order[q]), Null, recursion + 1).Got?
    ensures root.Arr? ==> forall q | p <= q < |t.order| :: IsIndexKey(t.order[q])
    ensures root.Obj? ==> forall q | p <= q < |t.order| :: t.order[q].Text?
    ensures || (forall q | p <= q < |t.order| :: IsIndexKey(t.order[q]))
            || (forall q | p <= q < |t.order| :: t.order[q].Text?)
    decreases |t.order| - p
  {
    if p < |t.order| {
      var r := EntryReading(tables, root, t.order[p], Get(t, t.order[p]), recursion);
      EntriesNeed(tables, t, p + 1, r.value, recursion);
    }
  }

  lemma {:induction false} ReadSucceedsExactly(tables: seq<LuaTable>, v: LuaValue, recursion: nat)
    requires WfHeap(tables)
    ensures ReadValue(tables, v, Null, recursion).Got? <==> Readable(tables, v, recursion)
    decreases Budget(recursion)
  {
    if recursion <= MAX_RECURSION && v.Table? && v.id < |tables| {
      var t := tables[v.id];
      WfAt(tables, |tables|, |tables|, v.id);
      forall key | key in t.content
        ensures ReadValue(tables, t.content[key], Null, recursion + 1).Got? <==>
                Readable(tables, t.content[key], recursion + 1)
      {
        ReadSucceedsExactly(tables, t.content[key], recursion + 1);
      }
      if Readable(tables, v, recursion) {
        EntriesSucceed(tables, t, 0, Null, recursion);
      } else if ReadValue(tables, v, Null, recursion).Got? {
        EntriesNeed(tables, t, 0, Null, recursion);
        assert forall key | key in t.content :: key in t.order;
        assert false;
      }
    }
  }

  ghost predicate HasEntryInto(tables: seq<LuaTable>, id: nat, targets: set<nat>) {
    id < |tables| && exists key | key in tables[id].content ::
      tables[id].content[key].Table? && tables[id].content[key].id in targets
  }

  /** A table from which the walk can go on for ever, through tables of one set, is refused. */
  lemma {:induction false} CyclesAreRefused(tables: seq<LuaTable>, cycle: set<nat>, id: nat, recursion: nat)
    requires id in cycle && forall i | i in cycle :: HasEntryInto(tables, i, cycle)
    ensures !Readable(tables, Table(id), recursion)
    decreases Budget(recursion)
  {
    hide Readable, HasEntryInto;
    if Readable(tables, Table(id), recursion) {
      var key := EntryInto(tables, id, cycle);
      ReadableEntry(tables, id, key, recursion);
      CyclesAreRefused(tables, cycle, tables[id].content[key].id, recursion + 1);
    }
  }

  lemma EntryInto(tables: seq<LuaTable>, id: nat, targets: set<nat>) returns (key: LuaValue)
    requires HasEntryInto(tables, id, targets)
    ensures id < |tables| && key in tables[id].content
    ensures tables[id].content[key].Table? && tables[id].content[key].id in targets
  {
    key :| key in tables[id].content && tables[id].content[key].Table? && tables[id].content[key].id in targets;
  }

  lemma ReadableEntry(tables: seq<LuaTable>, id: nat, key: LuaValue, recursion: nat)
    requires Readable(tables, Table(id), recursion) && key in tables[id].content
    ensures recursion <= MAX_RECURSION && Readable(tables, tables[id].content[key], recursion + 1)
  {
    hide Uniform;
  }

  /** In every table the walk can visit, numeric keys fit 32 bits. */
  ghost predicate IndexesFit(tables: seq<LuaTable>, v: LuaValue, recursion: nat)
    decreases Budget(recursion)
  {
    recursion <= MAX_RECURSION && v.Table? && v.id < |tables| ==>
      forall key | key in tables[v.id].content ::
        (key.Number? ==> key.n < 0x1_0000_0000 as real) && IndexesFit(tables, tables[v.id].content[key], recursion + 1)
  }

  /** The conversion of a key is undefined only if there is a numeric key that does not fit. */
  lemma {:induction false} FittingIsDefined(tables: seq<LuaTable>, v: LuaValue, root: Json, recursion: nat)
    requires WfHeap(tables) && IndexesFit(tables, v, recursion)
    ensures !ReadValue(tables, v, root, recursion).Undefined?
    decreases Budget(recursion), 1, 0
  {
    if recursion <= MAX_RECURSION && v.Table? && v.id < |tables| {
      FittingEntriesAreDefined(tables, v.id, 0, root, recursion);
    }
  }

  lemma {:induction false} FittingEntriesAreDefined(tables: seq<LuaTable>, id: nat, p: nat, root: Json, recursion: nat)
    requires WfHeap(tables) && id < |tables| && IndexesFit(tables, Table(id), recursion)
    requires recursion <= MAX_RECURSION && p <= |tables[id].order|
    ensures !ReadEntries(tables, tables[id], p, root, recursion).Undefined?
    decreases Budget(recursion), 0, |tables[id].order| - p
  {
    var t := tables[id];
    if p < |t.order| {
      WfAt(tables, |tables|, |tables|, id);
      assert t.order[p] in t.content;
      FittingIsDefined(tables, Get(t, t.order[p]), Null, recursion + 1);
      var r := EntryReading(tables, root, t.order[p], Get(t, t.order[p]), recursion);
      if r.Got? {
        FittingEntriesAreDefined(tables, id, p + 1, r.value, recursion);
      }
    }
  }

  // ---- The walker on the stack ----

  /** The most slots in use above the start while a value that can be read is read. */
  ghost function ReadSlots(tables: seq<LuaTable>, v: LuaValue, recursion: nat): (n: nat)
    ensures n <= 2 * Budget(recursion)
    decreases Budget(recursion), 1
  {
    if recursion > MAX_RECURSION || !v.Table? || v.id >= |tables| then 0
    else if tables[v.id].content == map[] then 1
    else 2 + MaxIn(EntrySlots(tables, tables[v.id].content, recursion), tables[v.id].content.Keys)
  }

  ghost function EntrySlots(tables: seq<LuaTable>, content: map<LuaValue, LuaValue>, recursion: nat)
    : (slots: map<LuaValue, nat>)
    requires recursion <= MAX_RECURSION
    ensures slots.Keys == content.Keys
    ensures forall key | key in slots :: slots[key] <= 2 * Budget(recursion + 1)
    decreases Budget(recursion), 0
  {
    map key | key in content :: ReadSlots(tables, content[key], recursion + 1)
  }

  function Visited(t: LuaTable, p: nat): (keys: set<LuaValue>)
    requires p <= |t.order|
    ensures p == 0 ==> keys == {}
    ensures p == |t.order| && IsOrderOf(t.order, t.content) ==> keys == t.content.Keys
  {
    set q | 0 <= q < p :: t.order[q]
  }

  /** Slots that were in use after p entries. */
  ghost function LoopSlots(tables: seq<LuaTable>, t: LuaTable, p: nat, recursion: nat): (n: nat)
    requires p <= |t.order| && recursion <= MAX_RECURSION && IsOrderOf(t.order, t.content)
    ensures (p == 0 ==> n == 1) && n <= 2 * Budget(recursion)
  {
    if p == 0 then 1
    else
      assert forall k | k in Visited(t, p) :: k in t.order;
      2 + MaxIn(EntrySlots(tables, t.content, recursion), Visited(t, p))
  }

  lemma LoopSlotsStep(tables: seq<LuaTable>, t: LuaTable, p: nat, recursion: nat)
    requires p < |t.order| && recursion <= MAX_RECURSION && IsOrderOf(t.order, t.content)
    ensures t.order[p] in t.content
    ensures LoopSlots(tables, t, p + 1, recursion) ==
            Max(LoopSlots(tables, t, p, recursion), 2 + ReadSlots(tables, t.content[t.order[p]], recursion + 1))
  {
    hide ReadSlots;
    assert t.order[p] in t.content;
    assert forall k | k in Visited(t, p) :: k in t.order;
    assert Visited(t, p + 1) == Visited(t, p) + {t.order[p]};
    MaxInAdd(EntrySlots(tables, t.content, recursion), Visited(t, p), t.order[p]);
  }

  lemma LoopSlotsAll(tables: seq<LuaTable>, id: nat, recursion: nat)
    requires WfHeap(tables) && id < |tables| && recursion <= MAX_RECURSION
    ensures IsOrderOf(tables[id].order, tables[id].content)
    ensures LoopSlots(tables, tables[id], |tables[id].order|, recursion) == ReadSlots(tables, Table(id), recursion)
  {
    var t := tables[id];
    WfAt(tables, |tables|, |tables|, id);
    if t.order != [] {
      assert t.order[0] in t.content;
    }
  }

  // The parts of the Lua state that reading changes.
  datatype Frame = Frame(stack: seq<LuaValue>, peak: nat)

  ghost function FrameOf(L: LuaState): Frame
    reads L
  {
    Frame(L.stack, L.peak)
  }

  /** From before to after: on success the stack is as given and the peak exact; otherwise more may be on the stack, but
      nothing of what is to be kept is lost. */
  ghost predicate Moved(before: Frame, after: Frame, got: bool, stack: seq<LuaValue>, kept: seq<LuaValue>, most: nat,
                        cap: nat)
  {
    && after.peak <= Max(before.peak, cap)
    && if got then after.stack == stack && after.peak == Max(before.peak, most) else kept <= after.stack
  }

  /** From before to after a call of the walker on the value at the index: one slot less on success. */
  ghost predicate WasRead(before: Frame, after: Frame, tables: seq<LuaTable>, index: nat, got: bool, recursion: nat)
    requires 1 <= index <= |before.stack|
  {
    var s := before.stack;
    Moved(before, after, got, s[..|s| - 1], s, |s| + ReadSlots(tables, s[index - 1], recursion),
          |s| + 2 * Budget(recursion))
  }

  /** Without a table nothing is pushed; a table is left on the stack as it was, and popped. */
  lemma ReadAfterPop(before: Frame, now: Frame, tables: seq<LuaTable>, index: nat, recursion: nat)
    requires 1 <= index <= |before.stack| <= before.peak
    requires if before.stack[index - 1].Table? then TableWasRead(before, now, tables, index, true, recursion)
             else now == before
    ensures WasRead(before, now.(stack := before.stack[..|before.stack| - 1]), tables, index, true, recursion)
    ensures now.stack == before.stack
  {
    hide EntrySlots;
  }

  ghost predicate TableWasRead(before: Frame, after: Frame, tables: seq<LuaTable>, index: nat, got: bool,
                               recursion: nat)
    requires 1 <= index <= |before.stack|
  {
    var s := before.stack;
    Moved(before, after, got, s, s, |s| + ReadSlots(tables, s[index - 1], recursion), |s| + 2 * Budget(recursion))
  }

  lemma NotRead(before: Frame, now: Frame, tables: seq<LuaTable>, index: nat, recursion: nat)
    requires 1 <= index <= |before.stack|
    requires now == before || TableWasRead(before, now, tables, index, false, recursion)
    ensures WasRead(before, now, tables, index, false, recursion)
  {
    hide ReadSlots;
  }

  lemma ReadOther(tables: seq<LuaTable>, v: LuaValue, root: Json, recursion: nat)
    requires InHeap(v, |tables|)
    ensures ReadValue(tables, v, root, recursion) ==
            if recursion > MAX_RECURSION || v.Opaque? then Refused
            else if v.Table? then ReadEntries(tables, tables[v.id], 0, root, recursion)
            else if v.Nil? then Got(Null)
            else if v.Boolean? then Got(Bool(v.b))
            else if v.Number? then Got(Real(v.n))
            else Got(Str(v.s))
  {
    hide ReadEntries;
  }

  /** read_json_value on the value at an absolute stack index. It pops one slot when it succeeds. */
  method ReadJson(L: LuaState, root: Json, index: nat, recursion: nat) returns (r: Reading)
    requires L.Valid() && 1 <= index <= |L.stack| && recursion <= 0xFF
    modifies L`stack, L`peak
    ensures L.Valid()
    ensures r == ReadValue(L.tables, old(L.stack)[index - 1], root, recursion)
    ensures WasRead(old(FrameOf(L)), FrameOf(L), L.tables, index, r.Got?, recursion)
    decreases Budget(recursion), 4
  {
    ghost var before := FrameOf(L);
    assert InHeap(L.stack[index - 1], |L.tables|) && |L.stack| <= L.peak;
    ReadOther(L.tables, L.stack[index - 1], root, recursion);
    hide LuaState.Valid, ReadEntries, ReadValue, WasRead, TableWasRead, Moved;
    if recursion > MAX_RECURSION {
      NotRead(before, before, L.tables, index, recursion);
      return Refused;
    }
    match L.stack[index - 1] {
      case Boolean(b) => r := Got(Bool(b));
      case Number(n) => r := Got(Real(n));
      case Text(s) => r := Got(Str(s));
      case Table(id) =>
        r := ReadTable(L, root, index, recursion);
        if !r.Got? {
          NotRead(before, FrameOf(L), L.tables, index, recursion);
          return;
        }
      case Nil => r := Got(Null);
      case Opaque(_) =>
        NotRead(before, before, L.tables, index, recursion);
        return Refused;
    }
    ReadAfterPop(before, FrameOf(L), L.tables, index, recursion);
    L.Pop();
  }

  /** The table case: every entry is read into root. */
  method ReadTable(L: LuaState, root: Json, index: nat, recursion: nat) returns (r: Reading)
    requires L.Valid() && 1 <= index <= |L.stack| && L.stack[index - 1].Table? && recursion <= MAX_RECURSION
    requires L.stack[index - 1].id < |L.tables|
    modifies L`stack, L`peak
    ensures L.Valid()
    ensures r == ReadEntries(L.tables, L.tables[old(L.stack)[index - 1].id], 0, root, recursion)
    ensures TableWasRead(old(FrameOf(L)), FrameOf(L), L.tables, index, r.Got?, recursion)
    decreases Budget(recursion), 3
  {
    ghost var start := FrameOf(L);
    ghost var id := L.stack[index - 1].id;
    LoopSlotsAll(L.tables, id, recursion);
    hide LuaState.Valid, ReadEntries, ReadSlots, LoopSlots, IsOrderOf, TableWasRead, Walking, Cursor;
    L.Push(Nil);
    WalkStarts(start, FrameOf(L), L.tables, id, recursion);
    r := ReadLoop(L, root, index, start, id, recursion);
  }

  /** The lua_next loop, with nil on top of the stack. */
  method ReadLoop(L: LuaState, root: Json, index: nat, ghost start: Frame, ghost id: nat, recursion: nat)
    returns (r: Reading)
    requires L.Valid() && recursion <= MAX_RECURSION && id < |L.tables|
    requires 1 <= index <= |start.stack| && start.stack[index - 1] == Table(id)
    requires IsOrderOf(L.tables[id].order, L.tables[id].content)
    requires Walking(start, FrameOf(L), L.tables, id, 0, true, recursion)
    modifies L`stack, L`peak
    ensures L.Valid()
    ensures r == ReadEntries(L.tables, L.tables[id], 0, root, recursion)
    ensures TableWasRead(start, FrameOf(L), L.tables, index, r.Got?, recursion)
    decreases Budget(recursion), 2
  {
    hide LuaState.Valid, ReadEntries, EntryReading, ReadSlots, IsOrderOf, Moved, Walking, Round, Cursor;
    r := Got(root);
    ghost var p := 0;
    var more := true;
    while more
      invariant L.Valid() && p <= |L.tables[id].order| && r.Got? && (!more ==> p == |L.tables[id].order|)
      invariant Walking(start, FrameOf(L), L.tables, id, p, more, recursion)
      invariant ReadEntries(L.tables, L.tables[id], p, r.value, recursion) ==
                ReadEntries(L.tables, L.tables[id], 0, root, recursion)
      decreases |L.tables[id].order| - p, more
    {
      ghost var before := FrameOf(L);
      EntriesGoOn(L.tables, id, p, r.value, recursion);
      WalkStack(start, before, L.tables, id, p, recursion);
      more, r := ReadNext(L, r.value, index, start.stack, id, p, recursion);
      WalkGoesOn(start, before, FrameOf(L), L.tables, id, p, more, r.Got?, recursion);
      if !r.Got? {
        return;
      }
      if more {
        p := p + 1;
      }
    }
    EntriesGoOn(L.tables, id, p, r.value, recursion);
    WfKept(L);
    WalkEnds(start, FrameOf(L), L.tables, id, recursion);
  }

  lemma WfKept(L: LuaState)
    requires L.Valid()
    ensures WfHeap(L.tables)
  {
  }

  /** What holds in the loop over the table with this id, after p entries. */
  ghost predicate Walking(start: Frame, now: Frame, tables: seq<LuaTable>, id: nat, p: nat, more: bool, recursion: nat)
    requires id < |tables| && p <= |tables[id].order| && recursion <= MAX_RECURSION
    requires IsOrderOf(tables[id].order, tables[id].content)
  {
    && now.stack == start.stack + Cursor(tables[id], p, more)
    && now.peak == Max(start.peak, |start.stack| + LoopSlots(tables, tables[id], p, recursion))
  }

  lemma WalkStarts(start: Frame, now: Frame, tables: seq<LuaTable>, id: nat, recursion: nat)
    requires id < |tables| && recursion <= MAX_RECURSION && IsOrderOf(tables[id].order, tables[id].content)
    requires now.stack == start.stack + [Nil] && now.peak == Max(start.peak, |start.stack| + 1)
    ensures Walking(start, now, tables, id, 0, true, recursion)
  {
    hide IsOrderOf;
  }

  lemma WalkStack(start: Frame, now: Frame, tables: seq<LuaTable>, id: nat, p: nat, recursion: nat)
    requires id < |tables| && p <= |tables[id].order| && recursion <= MAX_RECURSION
    requires IsOrderOf(tables[id].order, tables[id].content)
    requires Walking(start, now, tables, id, p, true, recursion)
    ensures now.stack == start.stack + Cursor(tables[id], p, true)
  {
    hide IsOrderOf, LoopSlots;
  }

  /** One round: a frame as before the call of lua_next, and the one after the entry was read. */
  ghost predicate Round(before: Frame, after: Frame, base: seq<LuaValue>, tables: seq<LuaTable>, id: nat, p: nat,
                        more: bool, got: bool, recursion: nat)
    requires id < |tables| && p <= |tables[id].order|
    requires IsOrderOf(tables[id].order, tables[id].content)
  {
    if p == |tables[id].order| then !more && got && after == before.(stack := base)
    else
      var key := tables[id].order[p];
      assert key in tables[id].content;
      more && Moved(before, after, got, base + [key], base,
                    |base| + 2 + ReadSlots(tables, tables[id].content[key], recursion + 1),
                    |base| + 2 * Budget(recursion))
  }

  lemma WalkGoesOn(start: Frame, before: Frame, after: Frame, tables: seq<LuaTable>, id: nat, p: nat, more: bool,
                   got: bool, recursion: nat)
    requires id < |tables| && p <= |tables[id].order| && recursion <= MAX_RECURSION
    requires IsOrderOf(tables[id].order, tables[id].content)
    requires Walking(start, before, tables, id, p, true, recursion)
    requires Round(before, after, start.stack, tables, id, p, more, got, recursion)
    ensures more == (p < |tables[id].order|) && (!more ==> got)
    ensures got ==> Walking(start, after, tables, id, if more then p + 1 else p, more, recursion)
    ensures !got ==> Moved(start, after, false, start.stack, start.stack,
                           |start.stack| + ReadSlots(tables, Table(id), recursion),
                           |start.stack| + 2 * Budget(recursion))
  {
    hide ReadSlots, LoopSlots;
    if p < |tables[id].order| {
      LoopSlotsStep(tables, tables[id], p, recursion);
    }
    hide IsOrderOf;
  }

  lemma WalkEnds(start: Frame, now: Frame, tables: seq<LuaTable>, id: nat, recursion: nat)
    requires WfHeap(tables) && id < |tables| && recursion <= MAX_RECURSION
    requires IsOrderOf(tables[id].order, tables[id].content)
    requires Walking(start, now, tables, id, |tables[id].order|, false, recursion)
    ensures Moved(start, now, true, start.stack, start.stack,
                  |start.stack| + ReadSlots(tables, Table(id), recursion), |start.stack| + 2 * Budget(recursion))
  {
    LoopSlotsAll(tables, id, recursion);
    hide ReadSlots, LoopSlots, IsOrderOf;
  }

  /** lua_next and, if there is an entry, the loop body. */
  method ReadNext(L: LuaState, root: Json, index: nat, ghost base: seq<LuaValue>, ghost id: nat, ghost p: nat,
                  recursion: nat)
    returns (more: bool, r: Reading)
    requires L.Valid() && recursion <= MAX_RECURSION && 1 <= index <= |base| && base[index - 1] == Table(id)
    requires id < |L.tables| && p <= |L.tables[id].order| && L.stack == base + Cursor(L.tables[id], p, true)
    requires IsOrderOf(L.tables[id].order, L.tables[id].content)
    modifies L`stack, L`peak
    ensures L.Valid()
    ensures Round(old(FrameOf(L)), FrameOf(L), base, L.tables, id, p, more, r.Got?, recursion)
    ensures var t := L.tables[id];
            r == if more then EntryReading(L.tables, root, t.order[p], Get(t, t.order[p]), recursion) else Got(root)
    decreases Budget(recursion), 1
  {
    hide LuaState.Valid, EntryReading, ReadSlots, IsOrderOf;
    r := Got(root);
    more := L.Next(index, base, p);
    if more {
      ghost var key := L.tables[id].order[p];
      r := ReadEntry(L, root, base, key, L.tables[id].content[key], recursion);
    }
  }

  lemma EntriesGoOn(tables: seq<LuaTable>, id: nat, p: nat, root: Json, recursion: nat)
    requires id < |tables| && p <= |tables[id].order| && recursion <= MAX_RECURSION
    ensures var t := tables[id];
            ReadEntries(tables, t, p, root, recursion) ==
            if p == |t.order| then Got(root)
            else
              var r := EntryReading(tables, root, t.order[p], Get(t, t.order[p]), recursion);
              if r.Got? then ReadEntries(tables, t, p + 1, r.value, recursion) else r
  {
  }

  /** What lua_next has on top of the stack after p keys: the last of them, or nothing once it is done. */
  ghost function Cursor(t: LuaTable, p: nat, more: bool): seq<LuaValue>
    requires p <= |t.order|
  {
    if !more then [] else [if p == 0 then Nil else t.order[p - 1]]
  }

  /** The loop body: key and value are on top; the value is read into root under the key, which stays. */
  method ReadEntry(L: LuaState, root: Json, ghost base: seq<LuaValue>, ghost key: LuaValue, ghost v: LuaValue,
                   recursion: nat)
    returns (r: Reading)
    requires L.Valid() && recursion <= MAX_RECURSION && L.stack == base + [key, v]
    modifies L`stack, L`peak
    ensures L.Valid()
    ensures r == EntryReading(L.tables, root, key, v, recursion)
    ensures Moved(old(FrameOf(L)), FrameOf(L), r.Got?, base + [key], base,
                  |base| + 2 + ReadSlots(L.tables, v, recursion + 1), |base| + 2 * Budget(recursion))
    decreases Budget(recursion), 0
  {
    hide LuaState.Valid, ReadValue, ReadSlots, Store;
    r := ReadJson(L, Null, |L.stack|, recursion + 1);
    if r.Got? {
      assert L.stack == base + [key];
      r := Store(root, L.stack[|L.stack| - 1], r.value);
    }
  }
}
