// The part of the Lua virtual machine the JSON bridge drives: the value stack and the heap of tables.
module LuaMachine {

  datatype LuaValue =
    | Nil
    | Boolean(b: bool)
    | Number(n: real)
    | Text(s: string)
    | Table(id: nat)
    | Opaque(id: nat)  // functions, userdata and threads

  // A table: its contents and the order in which lua_next enumerates its keys.
  datatype LuaTable = LuaTable(content: map<LuaValue, LuaValue>, order: seq<LuaValue>)

  predicate InHeap(v: LuaValue, size: nat) {
    v.Table? ==> v.id < size
  }

  ghost predicate IsOrderOf(order: seq<LuaValue>, content: map<LuaValue, LuaValue>) {
    && (forall i, j | 0 <= i < j < |order| :: order[i] != order[j])
    && (forall k :: k in order <==> k in content)
  }

  ghost predicate WfTable(t: LuaTable, size: nat) {
    && IsOrderOf(t.order, t.content)
    && (forall k | k in t.content :: k != Nil && t.content[k] != Nil)
    && (forall k | k in t.content :: InHeap(k, size) && InHeap(t.content[k], size))
  }

  /** The first n tables are well formed in a heap of the given size. */
  ghost predicate WfTables(tables: seq<LuaTable>, n: nat, size: nat)
    requires n <= |tables|
  {
    n == 0 || (WfTable(tables[n - 1], size) && WfTables(tables, n - 1, size))
  }

  ghost predicate WfHeap(tables: seq<LuaTable>) {
    WfTables(tables, |tables|, |tables|)
  }

  lemma {:induction false} WfAt(tables: seq<LuaTable>, n: nat, size: nat, i: nat)
    requires i < n <= |tables| && WfTables(tables, n, size)
    ensures WfTable(tables[i], size)
  {
    if i < n - 1 {
      WfAt(tables, n - 1, size, i);
    }
  }

  lemma {:induction false} WfIntro(tables: seq<LuaTable>, n: nat, size: nat)
    requires n <= |tables| && forall i | 0 <= i < n :: WfTable(tables[i], size)
    ensures WfTables(tables, n, size)
  {
    if n > 0 {
      WfIntro(tables, n - 1, size);
    }
  }

  lemma WfAfterUpdate(tables: seq<LuaTable>, id: nat, t: LuaTable)
    requires WfHeap(tables) && id < |tables| && WfTable(t, |tables|)
    ensures WfHeap(tables[id := t])
  {
    var after := tables[id := t];
    forall i | 0 <= i < |tables| ensures WfTable(after[i], |tables|) {
      WfAt(tables, |tables|, |tables|, i);
    }
    WfIntro(after, |tables|, |tables|);
  }

  lemma WfAfterAppend(tables: seq<LuaTable>)
    requires WfHeap(tables)
    ensures WfHeap(tables + [LuaTable(map[], [])])
  {
    var after := tables + [LuaTable(map[], [])];
    forall i | 0 <= i < |tables| ensures WfTable(after[i], |after|) {
      WfAt(tables, |tables|, |tables|, i);
    }
    WfIntro(after, |after|, |after|);
  }

  /** t[k] as a script sees it: absent keys read as nil. */
  function Get(t: LuaTable, k: LuaValue): LuaValue {
    if k in t.content then t.content[k] else Nil
  }

  /** The contents after t[k] = v: assigning nil removes the key. */
  function Assigned(content: map<LuaValue, LuaValue>, k: LuaValue, v: LuaValue): map<LuaValue, LuaValue> {
    if v == Nil then content - {k} else content[k := v]
  }

  /** The enumeration order without k. */
  function Without(order: seq<LuaValue>, k: LuaValue): (r: seq<LuaValue>)
    requires forall i, j | 0 <= i < j < |order| :: order[i] != order[j]
    ensures forall i, j | 0 <= i < j < |r| :: r[i] != r[j]
    ensures forall x :: x in r <==> x in order && x != k
  {
    if order == [] then []
    else if order[0] == k then order[1..]
    else
      assert order[0] !in order[1..];
      [order[0]] + Without(order[1..], k)
  }

  function AfterAssign(t: LuaTable, k: LuaValue, v: LuaValue): (r: LuaTable)
    requires forall i, j | 0 <= i < j < |t.order| :: t.order[i] != t.order[j]
  {
    LuaTable(Assigned(t.content, k, v), Without(t.order, k) + if v == Nil then [] else [k])
  }

  lemma AfterAssignWf(t: LuaTable, k: LuaValue, v: LuaValue, size: nat)
    requires WfTable(t, size) && k != Nil && InHeap(k, size) && InHeap(v, size)
    ensures WfTable(AfterAssign(t, k, v), size)
  {
    var r := AfterAssign(t, k, v);
    var rest := Without(t.order, k);
    assert k !in rest;
    assert forall i, j | 0 <= i < j < |r.order| :: r.order[i] != r.order[j] by {
      assert forall i | 0 <= i < |rest| :: rest[i] in rest;
    }
    assert forall x :: x in r.order <==> x in r.content;
  }

  function Max(a: nat, b: nat): nat {
    if a >= b then a else b
  }

  /** after still has every table of before, unchanged. */
  ghost predicate Extends(before: seq<LuaTable>, after: seq<LuaTable>) {
    |before| <= |after| && forall i | 0 <= i < |before| :: after[i] == before[i]
  }

  class LuaState {
    var stack: seq<LuaValue>
    var tables: seq<LuaTable>
    // Slots lua_checkstack has promised, and the most slots that were ever in use.
    var reserved: nat
    var peak: nat

    ghost predicate Valid()
      reads this
    {
      && |stack| <= peak
      && (forall i | 0 <= i < |stack| :: InHeap(stack[i], |tables|))
      && WfHeap(tables)
    }

    constructor ()
      ensures Valid() && stack == [] && tables == [] && reserved == peak == 0
    {
      stack, tables, reserved, peak := [], [], 0, 0;
    }

    /** lua_checkstack: may refuse; when it succeeds, n more slots are promised. */
    method CheckStack(n: nat, memory: bool) returns (ok: bool)
      requires Valid()
      modifies this`reserved
      ensures Valid()
      ensures ok == memory
      ensures reserved == if ok then Max(old(reserved), |stack| + n) else old(reserved)
    {
      ok := memory;
      if ok {
        reserved := Max(reserved, |stack| + n);
      }
    }

    /** lua_pushnil, lua_pushboolean, lua_pushnumber, lua_pushinteger, lua_pushstring. */
    method Push(v: LuaValue)
      requires Valid() && InHeap(v, |tables|)
      modifies this`stack, this`peak
      ensures Valid()
      ensures stack == old(stack) + [v] && peak == Max(old(peak), |old(stack)| + 1)
    {
      stack := stack + [v];
      peak := Max(peak, |stack|);
    }

    method Pop()
      requires Valid() && |stack| > 0
      modifies this`stack
      ensures Valid()
      ensures stack == old(stack)[..|old(stack)| - 1]
    {
      stack := stack[..|stack| - 1];
    }

    /** lua_newtable: a fresh empty table on top of the stack. */
    method NewTable()
      requires Valid()
      modifies this`stack, this`peak, this`tables
      ensures Valid()
      ensures tables == old(tables) + [LuaTable(map[], [])]
      ensures stack == old(stack) + [Table(|old(tables)|)] && peak == Max(old(peak), |old(stack)| + 1)
    {
      WfAfterAppend(tables);
      tables := tables + [LuaTable(map[], [])];
      stack := stack + [Table(|tables| - 1)];
      peak := Max(peak, |stack|);
    }

    /** Assigns in place. The caller learns nothing about where the key ends up in the enumeration order. */
    method Assign(id: nat, k: LuaValue, v: LuaValue)
      requires Valid() && id < |tables| && k != Nil && InHeap(k, |tables|) && InHeap(v, |tables|)
      modifies this`tables
      ensures Valid()
      ensures |tables| == |old(tables)| && forall i | 0 <= i < |tables| && i != id :: tables[i] == old(tables)[i]
      ensures tables[id].content == Assigned(old(tables)[id].content, k, v)
    {
      WfAt(tables, |tables|, |tables|, id);
      AfterAssignWf(tables[id], k, v, |tables|);
      WfAfterUpdate(tables, id, AfterAssign(tables[id], k, v));
      tables := tables[id := AfterAssign(tables[id], k, v)];
    }

    /** lua_rawset(L, -3): table below key below value. The ghost arguments are the stack below the table and the three
        slots. */
    method RawSet(ghost below: seq<LuaValue>, ghost id: nat, ghost k: LuaValue, ghost v: LuaValue)
      requires Valid() && id < |tables| && k != Nil && stack == below + [Table(id), k, v]
      modifies this`stack, this`tables
      ensures Valid()
      ensures stack == below + [Table(id)]
      ensures |tables| == |old(tables)| && forall i | 0 <= i < |tables| && i != id :: tables[i] == old(tables)[i]
      ensures tables[id].content == Assigned(old(tables)[id].content, k, v)
    {
      var n := |stack|;
      assert stack[n - 3] == Table(id) && stack[n - 2] == k && stack[n - 1] == v;
      Assign(stack[n - 3].id, stack[n - 2], stack[n - 1]);
      stack := stack[..n - 2];
    }

    /** lua_rawseti(L, -2, i): table below value. */
    method RawSetI(i: nat, ghost below: seq<LuaValue>, ghost id: nat, ghost v: LuaValue)
      requires Valid() && id < |tables| && stack == below + [Table(id), v]
      modifies this`stack, this`tables
      ensures Valid()
      ensures stack == below + [Table(id)]
      ensures |tables| == |old(tables)| && forall j | 0 <= j < |tables| && j != id :: tables[j] == old(tables)[j]
      ensures tables[id].content == Assigned(old(tables)[id].content, Number(i as real), v)
    {
      var n := |stack|;
      assert stack[n - 2] == Table(id) && stack[n - 1] == v;
      Assign(stack[n - 2].id, Number(i as real), stack[n - 1]);
      stack := stack[..n - 1];
    }

    /** lua_next on the table at absolute index: replaces the key on top by the next key and its value, or pops it.
        The ghost arguments are the stack below the key and the number of keys enumerated so far. */
    method Next(index: nat, ghost base: seq<LuaValue>, ghost p: nat) returns (more: bool)
      requires Valid() && 1 <= index <= |base|
      requires base[index - 1].Table? && base[index - 1].id < |tables|
      requires var order := tables[base[index - 1].id].order;
               p <= |order| && stack == base + [if p == 0 then Nil else order[p - 1]]
      modifies this`stack, this`peak
      ensures Valid()
      ensures var t := tables[base[index - 1].id];
              && more == (p < |t.order|)
              && (more ==> t.order[p] in t.content)
              && stack == base + if more then [t.order[p], t.content[t.order[p]]] else []
      ensures peak == if more then Max(old(peak), |base| + 2) else old(peak)
    {
      var t := tables[stack[index - 1].id];
      WfAt(tables, |tables|, |tables|, stack[index - 1].id);
      var key := stack[|stack| - 1];
      var at := 0;
      if key != Nil {
        assert key in t.order;
        var q :| 0 <= q < |t.order| && t.order[q] == key;
        at := q + 1;
      }
      assert p > 0 ==> t.order[p - 1] in t.content;
      assert at == p;
      stack := stack[..|stack| - 1];
      assert stack == base;
      more := at < |t.order|;
      if more {
        var k := t.order[at];
        assert k in t.content;
        stack := stack + [k, t.content[k]];
        peak := Max(peak, |stack|);
      }
    }
  }
}
