// Channels of one AMQP connection: which are valid, which the connection still knows, what callbacks they have, and
// what was handed to the client library for each. The broker's answers are parameters of the calls.
module Amqp {
  import opened JsonModel

  datatype Envelope = Envelope(consumerTag: string, deliveryTag: nat, body: string)

  // A std::function, possibly empty.
  type Callback = Option<Envelope -> bool>

  // The requests that wait for an answer of the broker, basic.consume apart.
  datatype Request =
    | DeclareExchange | DeleteExchange | BindExchange | UnbindExchange | DeclareQueue | DeleteQueue | PurgeQueue
    | BindQueue | UnbindQueue | BasicQos | BasicPublish

  /** The requests whose failure the code takes to mean that the broker closed the channel. */
  predicate FailureClosesChannel(r: Request) {
    r.BindExchange? || r.UnbindExchange? || r.BindQueue? || r.UnbindQueue? || r.BasicQos?
  }

  // What is handed to the client library, with the channel it is for.
  datatype Frame =
    | Open(id: int) | Close(id: int) | Ack(id: int, deliveryTag: nat) | Consume(id: int, tag: string)
    | Asked(id: int, request: Request) | CloseConnection

  // One call of distribute_envelope, and whether it acknowledged.
  datatype Delivery = Delivery(id: int, envelope: Envelope, acked: bool)

  datatype Chan = Chan(valid: bool, callbacks: map<string, Callback>)

  // The id last given out, the ids in the connection's map, whether the connection exists, every channel that was ever
  // created, and what was sent and distributed.
  datatype State = State(
    next: nat, known: set<int>, live: bool, book: map<int, Chan>, wire: seq<Frame>, deliveries: seq<Delivery>)

  const INITIAL := State(0, {}, true, map[], [], [])

  // ---- What each call does ----

  function Sent(s: State, f: Frame): State {
    s.(wire := s.wire + [f])
  }

  function Put(s: State, id: int, c: Chan): State {
    s.(book := s.book[id := c])
  }

  predicate IsValid(s: State, id: int) {
    id in s.book && s.book[id].valid
  }

  /** The id counter has 16 bits. */
  function NextId(id: int): int {
    if id == 0xFFFF then 0 else id + 1
  }

  /** create_channel: the id is used up even if opening the channel throws. */
  function AfterCreate(s: State, max: int, opens: bool): State {
    if |s.known| == max then s
    else
      var id := NextId(s.next);
      var t := Sent(s, Open(id)).(next := id);
      if opens then Put(t, id, Chan(true, map[])).(known := s.known + {id}) else t
  }

  function AfterClose(s: State, id: int): State {
    if IsValid(s, id) then Put(Sent(s, Close(id)), id, s.book[id].(valid := false)) else s
  }

  function AfterDestroy(s: State, id: int): State {
    AfterClose(s.(known := s.known - {id}), id)
  }

  function AfterAsk(s: State, id: int, r: Request, answered: bool): State {
    if !IsValid(s, id) then s
    else
      var t := Sent(s, Asked(id, r));
      if !answered && FailureClosesChannel(r) then Put(t, id, s.book[id].(valid := false)) else t
  }

  function AfterConsume(s: State, id: int, tag: string, f: Callback, answered: bool): State {
    if !IsValid(s, id) || tag in s.book[id].callbacks then s
    else
      var c := s.book[id];
      Put(Sent(s, Consume(id, tag)), id,
          if answered then c.(callbacks := c.callbacks[tag := f]) else c.(valid := false))
  }

  /** Whether the envelope is for a valid channel of the map and the callback registered for its tag takes it. */
  predicate Takes(s: State, id: int, e: Envelope) {
    && id in s.known && IsValid(s, id) && e.consumerTag in s.book[id].callbacks
    && (match s.book[id].callbacks[e.consumerTag]
        case None => false
        case Some(f) => f(e))
  }

  function AfterDistribute(s: State, id: int, e: Envelope): State {
    var takes := Takes(s, id, e);
    var t := s.(deliveries := s.deliveries + [Delivery(id, e, takes)]);
    if takes then Sent(t, Ack(id, e.deliveryTag)) else t
  }

  function Invalidated(s: State): State {
    s.(book := map i | i in s.book :: if i in s.known then s.book[i].(valid := false) else s.book[i])
  }

  /** The destructor of the connection: the library closes the channels with the connection. */
  function AfterDrop(s: State): State {
    Sent(Invalidated(s), CloseConnection).(live := false, known := {})
  }

  datatype Op =
    | OpCreate(max: int, opens: bool)
    | OpDestroy(id: int)
    | OpAsk(id: int, request: Request, answered: bool)
    | OpConsume(id: int, tag: string, callback: Callback, answered: bool)
    | OpDistribute(id: int, envelope: Envelope)
    | OpClose(id: int)
    | OpDrop

  function Apply(s: State, op: Op): State {
    match op
    case OpCreate(max, opens) => AfterCreate(s, max, opens)
    case OpDestroy(id) => AfterDestroy(s, id)
    case OpAsk(id, r, answered) => AfterAsk(s, id, r, answered)
    case OpConsume(id, tag, f, answered) => AfterConsume(s, id, tag, f, answered)
    case OpDistribute(id, e) => AfterDistribute(s, id, e)
    case OpClose(id) => AfterClose(s, id)
    case OpDrop => AfterDrop(s)
  }

  /** A connection that is gone can only be reached through channels its callers kept; an id has 16 bits. */
  predicate Enabled(s: State, op: Op) {
    match op
    case OpCreate(_, _) => s.live && s.next < 65535
    case OpDestroy(id) => s.live && id in s.book
    case OpDistribute(_, _) => s.live
    case OpDrop => s.live
    case _ => true
  }

  predicate Runs(s: State, ops: seq<Op>)
    decreases |ops|
  {
    ops == [] || (Enabled(s, ops[0]) && Runs(Apply(s, ops[0]), ops[1..]))
  }

  function Final(s: State, ops: seq<Op>): State
    decreases |ops|
  {
    if ops == [] then s else Final(Apply(s, ops[0]), ops[1..])
  }

  // ---- What every run keeps ----

  /** Ids are distinct keys, between 1 and the last one given out; the map has only created channels, and a valid
      channel is in the map of a connection that exists, so that its weak pointer can be locked. */
  ghost predicate TableInv(s: State) {
    && s.next <= 65535
    && (forall i | i in s.book :: 1 <= i <= s.next)
    && (forall i | i in s.known :: i in s.book)
    && (forall i | IsValid(s, i) :: s.live && i in s.known)
  }

  /** No channel is closed twice, and none that is valid was closed. */
  ghost predicate ClosesInv(s: State) {
    && (forall k | 0 <= k < |s.wire| && s.wire[k].Close? :: s.wire[k].id in s.book && !IsValid(s, s.wire[k].id))
    && (forall j, k | 0 <= j < k < |s.wire| && s.wire[j].Close? && s.wire[k].Close? :: s.wire[j].id != s.wire[k].id)
  }

  function Acks(wire: seq<Frame>): seq<(int, nat)> {
    if wire == [] then []
    else
      var last := wire[|wire| - 1];
      Acks(wire[..|wire| - 1]) + if last.Ack? then [(last.id, last.deliveryTag)] else []
  }

  function Earned(deliveries: seq<Delivery>): seq<(int, nat)> {
    if deliveries == [] then []
    else
      var last := deliveries[|deliveries| - 1];
      Earned(deliveries[..|deliveries| - 1]) + if last.acked then [(last.id, last.envelope.deliveryTag)] else []
  }

  /** The acknowledgements sent are those of the deliveries that earned one: one each, in the same order. */
  ghost predicate AcksInv(s: State) {
    Acks(s.wire) == Earned(s.deliveries)
  }

  ghost predicate Inv(s: State) {
    TableInv(s) && ClosesInv(s) && AcksInv(s)
  }

  lemma AcksAppend(wire: seq<Frame>, f: Frame)
    ensures Acks(wire + [f]) == Acks(wire) + if f.Ack? then [(f.id, f.deliveryTag)] else []
  {
    assert (wire + [f])[..|wire|] == wire;
  }

  lemma EarnedAppend(deliveries: seq<Delivery>, d: Delivery)
    ensures Earned(deliveries + [d]) == Earned(deliveries) + if d.acked then [(d.id, d.envelope.deliveryTag)] else []
  {
    assert (deliveries + [d])[..|deliveries|] == deliveries;
  }

  lemma StepKeepsTable(s: State, op: Op)
    requires TableInv(s) && Enabled(s, op)
    ensures TableInv(Apply(s, op))
  {
  }

  /** Creating a channel keeps the table as it should be exactly until the counter wraps: then the channel gets id 0. */
  lemma CreateKeepsTableExactly(s: State, max: int)
    requires TableInv(s) && s.live && |s.known| != max
    ensures TableInv(AfterCreate(s, max, true)) <==> s.next < 65535
  {
    var t := AfterCreate(s, max, true);
    if s.next == 65535 {
      assert 0 in t.book;
    } else {
      StepKeepsTable(s, OpCreate(max, true));
    }
  }

  lemma StepKeepsCloses(s: State, op: Op)
    requires TableInv(s) && ClosesInv(s) && Enabled(s, op)
    ensures ClosesInv(Apply(s, op))
  {
    hide Takes, FailureClosesChannel;
    match op
    case OpCreate(_, _) =>
    case OpDestroy(_) =>
    case OpAsk(_, _, _) =>
    case OpConsume(_, _, _, _) =>
    case OpDistribute(_, _) =>
    case OpClose(_) =>
    case OpDrop =>
  }

  lemma StepKeepsAcks(s: State, op: Op)
    requires AcksInv(s)
    ensures AcksInv(Apply(s, op))
  {
    hide Acks, Earned, Takes;
    var t := Apply(s, op);
    if |t.wire| == |s.wire| + 1 {
      AcksAppend(s.wire, t.wire[|s.wire|]);
    }
    if op.OpDistribute? {
      EarnedAppend(s.deliveries, t.deliveries[|s.deliveries|]);
    }
  }

  lemma StepKeepsInv(s: State, op: Op)
    requires Inv(s) && Enabled(s, op)
    ensures Inv(Apply(s, op))
  {
    StepKeepsTable(s, op);
    StepKeepsCloses(s, op);
    StepKeepsAcks(s, op);
    hide TableInv, ClosesInv, AcksInv, Apply, Enabled;
  }

  lemma {:induction false} RunKeepsInv(s: State, ops: seq<Op>)
    requires Inv(s) && Runs(s, ops)
    ensures Inv(Final(s, ops))
    decreases |ops|
  {
    hide TableInv, ClosesInv, AcksInv, Apply, Enabled;
    if ops != [] {
      StepKeepsInv(s, ops[0]);
      RunKeepsInv(Apply(s, ops[0]), ops[1..]);
    }
  }

  /** Over every run: the table invariant, no channel closed twice, and exactly the earned acknowledgements. */
  lemma EveryRunKeepsInv(ops: seq<Op>)
    requires Runs(INITIAL, ops)
    ensures Inv(Final(INITIAL, ops))
  {
    RunKeepsInv(INITIAL, ops);
  }

  /** Validity never returns, and a registered tag keeps its callback. */
  ghost predicate Later(s: State, t: State) {
    forall i | i in s.book ::
      && i in t.book && (t.book[i].valid ==> s.book[i].valid)
      && forall tag | tag in s.book[i].callbacks ::
           tag in t.book[i].callbacks && t.book[i].callbacks[tag] == s.book[i].callbacks[tag]
  }

  lemma StepIsLater(s: State, op: Op)
    requires TableInv(s) && Enabled(s, op)
    ensures Later(s, Apply(s, op))
  {
    hide Takes, FailureClosesChannel;
    match op
    case OpCreate(_, _) =>
    case OpDestroy(_) =>
    case OpAsk(_, _, _) =>
    case OpConsume(_, _, _, _) =>
    case OpDistribute(_, _) =>
    case OpClose(_) =>
    case OpDrop =>
  }

  lemma {:induction false} RunIsLater(s: State, ops: seq<Op>)
    requires TableInv(s) && Runs(s, ops)
    ensures Later(s, Final(s, ops))
    decreases |ops|
  {
    hide TableInv, Apply, Enabled;
    if ops != [] {
      var u := Apply(s, ops[0]);
      StepKeepsTable(s, ops[0]);
      StepIsLater(s, ops[0]);
      RunIsLater(u, ops[1..]);
    }
  }

  /** A channel that the connection does not know any more is invalid: its destructor, or closing it again, sends
      nothing. */
  lemma ForgottenIsClosed(ops: seq<Op>, id: int)
    requires Runs(INITIAL, ops) && id !in Final(INITIAL, ops).known
    ensures AfterClose(Final(INITIAL, ops), id) == Final(INITIAL, ops)
  {
    EveryRunKeepsInv(ops);
  }

  // ---- How channels end ----

  /** The call ends the channel, which is valid: it is closed or destroyed, the connection goes, or a consume or one of
      five requests of its own fails. */
  ghost predicate Ends(s: State, op: Op, id: int) {
    && IsValid(s, id)
    && match op
       case OpClose(i) => i == id
       case OpDestroy(i) => i == id
       case OpDrop => true
       case OpConsume(i, tag, _, answered) => i == id && !answered && tag !in s.book[id].callbacks
       case OpAsk(i, r, answered) =>
         && i == id && !answered
         && (r.BindExchange? || r.UnbindExchange? || r.BindQueue? || r.UnbindQueue? || r.BasicQos?)
       case _ => false
  }

  /** How many times the broker is told to close the channel. */
  function Closes(wire: seq<Frame>, id: int): nat {
    if wire == [] then 0
    else Closes(wire[..|wire| - 1], id) + if wire[|wire| - 1] == Close(id) then 1 else 0
  }

  lemma ClosesAppend(wire: seq<Frame>, f: Frame, id: int)
    ensures Closes(wire + [f], id) == Closes(wire, id) + if f == Close(id) then 1 else 0
  {
    assert (wire + [f])[..|wire|] == wire;
  }

  /** A valid channel stays valid unless the call ends it, one that is not does not become valid, and a new one is. */
  lemma StepEndsExactly(s: State, op: Op, id: int)
    requires TableInv(s) && Enabled(s, op)
    ensures IsValid(s, id) ==> id in Apply(s, op).book && (IsValid(Apply(s, op), id) <==> !Ends(s, op, id))
    ensures id in s.book && !IsValid(s, id) ==> id in Apply(s, op).book && !IsValid(Apply(s, op), id)
    ensures id !in s.book && id in Apply(s, op).book ==> IsValid(Apply(s, op), id)
  {
    hide Takes;
    match op
    case OpCreate(_, _) =>
    case OpDestroy(_) =>
    case OpAsk(_, _, _) =>
    case OpConsume(_, _, _, _) =>
    case OpDistribute(_, _) =>
    case OpClose(_) =>
    case OpDrop =>
  }

  /** A close is sent exactly when a valid channel is closed or destroyed. */
  lemma StepCloses(s: State, op: Op, id: int)
    requires TableInv(s) && Enabled(s, op)
    ensures Closes(Apply(s, op).wire, id) ==
            Closes(s.wire, id) + if Ends(s, op, id) && (op.OpClose? || op.OpDestroy?) then 1 else 0
  {
    hide Closes, Takes, FailureClosesChannel;
    var t := Apply(s, op);
    if |t.wire| == |s.wire| + 1 {
      ClosesAppend(s.wire, t.wire[|s.wire|], id);
    }
  }

  /** Over every run: a channel that was created and is not valid any more was ended by one call, and the broker was
      told to close it exactly once if that call closed or destroyed it, and never otherwise. */
  lemma {:induction false} EveryEndIsAccounted(s: State, ops: seq<Op>, id: int) returns (n: nat)
    requires TableInv(s) && Runs(s, ops) && (id in s.book ==> IsValid(s, id)) && Closes(s.wire, id) == 0
    ensures var t := Final(s, ops);
            if id in t.book && !t.book[id].valid then
              && n < |ops| && Ends(Final(s, ops[..n]), ops[n], id)
              && Closes(t.wire, id) == if ops[n].OpClose? || ops[n].OpDestroy? then 1 else 0
            else
              Closes(t.wire, id) == 0
    decreases |ops|
  {
    hide Apply, Enabled, Ends, TableInv, Closes;
    n := 0;
    if ops != [] {
      var u := Apply(s, ops[0]);
      StepKeepsTable(s, ops[0]);
      StepEndsExactly(s, ops[0], id);
      StepCloses(s, ops[0], id);
      NoEndBefore(s, ops[0], id);
      if Ends(s, ops[0], id) {
        assert ops[..0] == [];
        EndedStays(u, ops[1..], id);
      } else {
        n := EveryEndIsAccounted(u, ops[1..], id);
        if n < |ops[1..]| {
          assert ops[..n + 1][1..] == ops[1..][..n];
        }
        n := n + 1;
      }
    }
  }

  lemma NoEndBefore(s: State, op: Op, id: int)
    ensures Ends(s, op, id) ==> IsValid(s, id)
  {
  }

  lemma {:induction false} EndedStays(s: State, ops: seq<Op>, id: int)
    requires TableInv(s) && Runs(s, ops) && id in s.book && !IsValid(s, id)
    ensures var t := Final(s, ops); id in t.book && !IsValid(t, id) && Closes(t.wire, id) == Closes(s.wire, id)
    decreases |ops|
  {
    hide Apply, Enabled, Ends, TableInv, Closes;
    if ops != [] {
      StepKeepsTable(s, ops[0]);
      StepEndsExactly(s, ops[0], id);
      StepCloses(s, ops[0], id);
      NoEndBefore(s, ops[0], id);
      EndedStays(Apply(s, ops[0]), ops[1..], id);
    }
  }

  lemma OnlyDistributeDelivers(s: State, op: Op)
    ensures var t := Apply(s, op);
            t.deliveries == s.deliveries +
              if op.OpDistribute? then [Delivery(op.id, op.envelope, Takes(s, op.id, op.envelope))] else []
  {
    hide Takes;
  }

  /** Every delivery was judged by the channel and the callback there were when it was distributed. */
  lemma {:induction false} JudgedWhenDistributed(s: State, ops: seq<Op>, k: nat) returns (n: nat)
    requires Runs(s, ops) && |s.deliveries| <= k < |Final(s, ops).deliveries|
    ensures n < |ops|
    ensures var u, d := Final(s, ops[..n]), Final(s, ops).deliveries[k];
            && |u.deliveries| == k && ops[n] == OpDistribute(d.id, d.envelope)
            && (d.acked <==> Takes(u, d.id, d.envelope))
    decreases |ops|
  {
    hide Apply, Enabled, Takes;
    var u := Apply(s, ops[0]);
    OnlyDistributeDelivers(s, ops[0]);
    if |s.deliveries| == k && ops[0].OpDistribute? {
      n := 0;
      DeliveriesStay(u, ops[1..]);
    } else {
      n := JudgedWhenDistributed(u, ops[1..], k);
      n := n + 1;
      assert ops[..n][1..] == ops[1..][..n - 1];
    }
  }

  lemma {:induction false} DeliveriesStay(s: State, ops: seq<Op>)
    requires Runs(s, ops)
    ensures s.deliveries <= Final(s, ops).deliveries
    decreases |ops|
  {
    hide Apply, Enabled, Takes;
    if ops != [] {
      OnlyDistributeDelivers(s, ops[0]);
      DeliveriesStay(Apply(s, ops[0]), ops[1..]);
    }
  }

  // ---- The objects ----

  // The same steps, spelled out for the objects that perform them.

  lemma CreateIs(s: State, max: int, opens: bool)
    requires Inv(s) && Enabled(s, OpCreate(max, opens))
    ensures Inv(AfterCreate(s, max, opens)) && NextId(s.next) == s.next + 1
    ensures s.next + 1 !in s.known && s.next + 1 !in s.book
    ensures |s.known| == max ==> AfterCreate(s, max, opens) == s
    ensures |s.known| != max && !opens ==>
              AfterCreate(s, max, opens) == s.(next := s.next + 1, wire := s.wire + [Open(s.next + 1)])
    ensures |s.known| != max && opens ==>
              AfterCreate(s, max, opens) == s.(next := s.next + 1, wire := s.wire + [Open(s.next + 1)],
                                               known := s.known + {s.next + 1},
                                               book := s.book[s.next + 1 := Chan(true, map[])])
  {
    StepKeepsInv(s, OpCreate(max, opens));
    hide ClosesInv, AcksInv;
  }

  lemma AskIs(s: State, id: int, r: Request, answered: bool)
    requires Inv(s)
    ensures Inv(AfterAsk(s, id, r, answered))
    ensures !IsValid(s, id) ==> AfterAsk(s, id, r, answered) == s
    ensures IsValid(s, id) ==>
              AfterAsk(s, id, r, answered) ==
              s.(wire := s.wire + [Asked(id, r)],
                 book := if answered || !FailureClosesChannel(r) then s.book
                         else s.book[id := Chan(false, s.book[id].callbacks)])
  {
    StepKeepsInv(s, OpAsk(id, r, answered));
    hide Inv, FailureClosesChannel;
  }

  lemma ConsumeIs(s: State, id: int, tag: string, f: Callback, answered: bool)
    requires Inv(s)
    ensures Inv(AfterConsume(s, id, tag, f, answered))
    ensures !IsValid(s, id) || tag in s.book[id].callbacks ==> AfterConsume(s, id, tag, f, answered) == s
    ensures IsValid(s, id) && tag !in s.book[id].callbacks ==>
              AfterConsume(s, id, tag, f, answered) ==
              s.(wire := s.wire + [Consume(id, tag)],
                 book := s.book[id := if answered then Chan(true, s.book[id].callbacks[tag := f])
                                      else Chan(false, s.book[id].callbacks)])
  {
    StepKeepsInv(s, OpConsume(id, tag, f, answered));
    hide Inv;
  }

  class Channel {
    const id: int
    const conn: Connection
    var valid: bool
    var callbacks: map<string, Callback>

    constructor (id: int, conn: Connection)
      ensures this.id == id && this.conn == conn && valid && callbacks == map[]
    {
      this.id, this.conn := id, conn;
      valid, callbacks := true, map[];
    }

    /** Its connection is as it should be, and has this channel unless it is invalid. */
    ghost predicate Usable()
      reads this, conn, conn.channels.Values
    {
      conn.Valid() && (if valid then conn.Has(this) else !IsValid(conn.s, id))
    }

    method Close()
      requires Usable()
      modifies this`valid, conn`wire, conn`s
      ensures Usable() && conn.s == AfterClose(old(conn.s), id) && !valid
      ensures conn.wire == old(conn.wire) + if old(valid) then [Frame.Close(id)] else []
    {
      if !valid {
        return;
      }
      StepKeepsInv(conn.s, OpClose(id));
      assert Inv(AfterClose(conn.s, id));
      assert conn.live;
      hide Inv, Apply;
      conn.wire := conn.wire + [Frame.Close(id)];
      valid := false;
      conn.s := AfterClose(conn.s, id);
    }

    /** A request and its answer. Every request method has this shape. */
    method Ask(r: Request, answered: bool) returns (ok: bool)
      requires Usable()
      modifies this`valid, conn`wire, conn`s
      ensures Usable() && conn.s == AfterAsk(old(conn.s), id, r, answered)
      ensures ok <==> old(valid) && answered
      ensures conn.wire == old(conn.wire) + if old(valid) then [Asked(id, r)] else []
      ensures valid <==> old(valid) && (answered || r.DeclareExchange? || r.DeleteExchange? || r.DeclareQueue? ||
                                        r.DeleteQueue? || r.PurgeQueue? || r.BasicPublish?)
    {
      AskIs(conn.s, id, r, answered);
      assert valid ==> conn.live;
      hide Inv, Apply, AfterAsk, Put, Sent;
      if !valid {
        return false;
      }
      conn.wire := conn.wire + [Asked(id, r)];
      if FailureClosesChannel(r) {
        valid := answered;
      }
      conn.s := AfterAsk(conn.s, id, r, answered);
      ok := answered;
    }

    method BasicConsume(tag: string, f: Callback, answered: bool) returns (ok: bool)
      requires Usable()
      modifies this`valid, this`callbacks, conn`wire, conn`s
      ensures Usable() && conn.s == AfterConsume(old(conn.s), id, tag, f, answered)
      ensures ok <==> old(valid) && tag !in old(callbacks) && answered
      ensures valid <==> old(valid) && (tag in old(callbacks) || answered)
      ensures callbacks == if ok then old(callbacks)[tag := f] else old(callbacks)
      ensures conn.wire == old(conn.wire) + if old(valid) && tag !in old(callbacks) then [Consume(id, tag)] else []
    {
      ConsumeIs(conn.s, id, tag, f, answered);
      assert valid ==> conn.live;
      hide Inv, Apply, AfterConsume, Put, Sent;
      if !valid {
        return false;
      }
      if tag in callbacks {
        return false;
      }
      conn.wire := conn.wire + [Consume(id, tag)];
      if !answered {
        valid := false;
      } else {
        callbacks := callbacks[tag := f];
      }
      conn.s := AfterConsume(conn.s, id, tag, f, answered);
      ok := answered;
    }

    method OnEnvelopeReceived(e: Envelope) returns (acked: bool)
      requires valid ==> conn.live
      modifies conn`wire
      ensures acked <==> valid && e.consumerTag in callbacks &&
                         match callbacks[e.consumerTag] case None => false case Some(f) => f(e)
      ensures conn.wire == old(conn.wire) + if acked then [Frame.Ack(id, e.deliveryTag)] else []
    {
      if !valid {
        return false;
      }
      assert conn.live;
      if e.consumerTag !in callbacks {
        return false;
      }
      var f := callbacks[e.consumerTag];
      if f.Some? && f.value(e) {
        conn.wire := conn.wire + [Frame.Ack(id, e.deliveryTag)];
        return true;
      }
      return false;
    }
  }

  class Connection {
    var nextChannelId: int
    var channels: map<int, Channel>
    var live: bool
    var wire: seq<Frame>
    ghost var s: State

    /** The fields and the channels of the map are as the state s says. */
    ghost predicate Valid()
      reads this, channels.Values
    {
      && Inv(s)
      && nextChannelId == s.next && live == s.live && wire == s.wire && channels.Keys == s.known
      && forall i | i in channels ::
           && channels[i].id == i && channels[i].conn == this
           && s.book[i] == Chan(channels[i].valid, channels[i].callbacks)
    }

    ghost predicate Has(c: Channel)
      reads this
    {
      c.id in channels && channels[c.id] == c
    }

    constructor ()
      ensures Valid() && s == INITIAL
      ensures nextChannelId == 0 && channels == map[] && live && wire == []
    {
      nextChannelId, channels, live, wire := 0, map[], true, [];
      s := INITIAL;
    }

    /** Takes the next id and constructs its channel, which throws when the broker does not open it. */
    method OpenChannel(opens: bool) returns (r: Option<Channel>)
      modifies this`nextChannelId, this`wire
      ensures nextChannelId == NextId(old(nextChannelId)) && wire == old(wire) + [Open(nextChannelId)]
      ensures r.Some? <==> opens
      ensures r.Some? ==> fresh(r.value) && r.value.valid && r.value.callbacks == map[]
      ensures r.Some? ==> r.value.id == nextChannelId && r.value.conn == this
    {
      nextChannelId := NextId(nextChannelId);
      wire := wire + [Open(nextChannelId)];
      if !opens {
        return None;
      }
      var channel := new Channel(nextChannelId, this);
      r := Some(channel);
    }

    /** The fields still agree with the state after a new channel has gone into the map. */
    twostate lemma Grown(new c: Channel)
      requires old(Valid()) && Inv(s) && c !in old(channels).Values
      requires forall d | d in old(channels).Values :: unchanged(d)
      requires nextChannelId == s.next && live == s.live && wire == s.wire && s.known == old(s.known) + {c.id}
      requires channels == old(channels)[c.id := c] && c.conn == this && c.id !in old(s.book)
      requires s.book == old(s.book)[c.id := Chan(c.valid, c.callbacks)]
      ensures Valid()
    {
      assert forall i | i in old(s.known) :: i in old(s.book);
      hide Inv;
      forall i | i in channels && i != c.id
        ensures channels[i] == old(channels)[i] && s.book[i] == Chan(channels[i].valid, channels[i].callbacks)
      {
        assert i in old(channels) && old(channels)[i] in old(channels).Values;
        assert unchanged(channels[i]);
      }
    }

    /** None when the map is full; the constructor of the channel throws when opening fails. */
    method CreateChannel(max: int, opens: bool) returns (r: Option<Channel>, throws: bool)
      requires Valid() && Enabled(s, OpCreate(max, opens))
      modifies this
      ensures Valid() && s == AfterCreate(old(s), max, opens)
      ensures r.Some? <==> |old(channels)| != max && opens
      ensures throws <==> |old(channels)| != max && !opens
      ensures r.Some? ==> fresh(r.value) && r.value.valid && Has(r.value) && r.value.id == old(nextChannelId) + 1
      ensures wire == old(wire) + if |old(channels)| != max then [Open(old(nextChannelId) + 1)] else []
    {
      CreateIs(s, max, opens);
      hide Inv, Apply, Enabled, NextId, AfterCreate, Put, Sent, IsValid;
      assert |channels| == |s.known|;
      r, throws := None, false;
      if |channels| != max {
        r := OpenChannel(opens);
        s := AfterCreate(s, max, opens);
        throws := r.None?;
        if r.Some? {
          assert forall i | i in channels :: channels[i] != r.value;
          channels := channels[r.value.id := r.value];
          Grown(r.value);
        }
      }
    }

    method DestroyChannel(c: Channel)
      requires c.conn == this && c.Usable() && Enabled(s, OpDestroy(c.id))
      modifies this, c`valid
      ensures c.Usable() && s == AfterDestroy(old(s), c.id) && !c.valid && channels == old(channels) - {c.id}
      ensures wire == old(wire) + if old(c.valid) then [Frame.Close(c.id)] else []
    {
      StepKeepsInv(s, OpDestroy(c.id));
      assert Inv(AfterDestroy(s, c.id));
      hide Inv, Apply;
      channels := channels - {c.id};
      if c.valid {
        wire := wire + [Frame.Close(c.id)];
        c.valid := false;
      }
      s := AfterDestroy(s, c.id);
    }

    method FindChannel(id: int) returns (r: Option<Channel>)
      ensures r == if id in channels then Some(channels[id]) else None
    {
      r := if id in channels then Some(channels[id]) else None;
    }

    method DistributeEnvelope(e: Envelope, id: int) returns (acked: bool)
      requires Valid() && live
      modifies this
      ensures Valid() && s == AfterDistribute(old(s), id, e)
      ensures acked <==> Takes(old(s), id, e)
      ensures acked <==>
                && id in channels && channels[id].valid && e.consumerTag in channels[id].callbacks
                && match channels[id].callbacks[e.consumerTag] case None => false case Some(f) => f(e)
      ensures wire == old(wire) + if acked then [Frame.Ack(id, e.deliveryTag)] else []
    {
      StepKeepsInv(s, OpDistribute(id, e));
      assert Inv(AfterDistribute(s, id, e));
      hide Inv, Apply;
      var c := FindChannel(id);
      if c.None? {
        s := AfterDistribute(s, id, e);
        return false;
      }
      acked := c.value.OnEnvelopeReceived(e);
      s := AfterDistribute(s, id, e);
    }

    /** The destructor; it meets the channels in the order the map has them in. */
    method Drop(order: seq<int>)
      requires Valid() && live
      requires (forall k | 0 <= k < |order| :: order[k] in channels) && forall i | i in channels :: i in order
      modifies this, channels.Values`valid
      ensures Valid() && s == AfterDrop(old(s)) && forall i | i in old(channels) :: !old(channels)[i].valid
      ensures wire == old(wire) + [CloseConnection] && !live && channels == map[]
    {
      StepKeepsInv(s, OpDrop);
      assert Inv(AfterDrop(s));
      hide Inv, Apply;
      for k := 0 to |order|
        invariant forall j | 0 <= j < k :: !channels[order[j]].valid
        modifies channels.Values`valid
      {
        channels[order[k]].valid := false;
      }
      channels, live, wire := map[], false, wire + [CloseConnection];
      s := AfterDrop(s);
    }
  }
}
