// The event loop that answers over AMQP and reconnects by itself, with any number of threads pushing responses. The
// answers of the broker are parameters of the loop's steps.
module InOutExchange {
  import opened JsonModel
  import Amqp

  // ---- Getting an exchange ----

  // A channel object: the number of the connection that made it, and its id there.
  datatype Handle = Handle(conn: nat, id: int)

  // What the loop holds: the number and the state of its connection, its channel, and the channel its command queue
  // has a weak pointer to. A pointer that is not set is None.
  datatype Link = Link(conn: nat, state: Amqp.State, channel: Option<Handle>, queue: Option<Handle>)

  const UNLINKED := Link(0, Amqp.INITIAL, None, None)

  // What the world does to one attempt to connect: whether there is a connection, the channels it allows, whether the
  // channel opens, and the answers to the declarations, the bind and the consume.
  datatype Attempt = Attempt(
    connects: bool, max: int, opens: bool, declares: bool, makesQueue: bool, binds: bool, consumes: bool)

  // Crash: a call on a pointer that is not set, which ends the process.
  datatype Outcome = Got(ok: bool) | Crash

  /** Somebody holds the channel object: the loop, or the map of its connection. Connections that were replaced are
      gone. */
  predicate Alive(l: Link, h: Handle) {
    l.channel == Some(h) || (h.conn == l.conn && h.id in l.state.known)
  }

  predicate IsValid(l: Link, h: Handle) {
    h.conn == l.conn && Amqp.IsValid(l.state, h.id)
  }

  /** A request on the channel a pointer leads to. */
  function Ask(l: Link, h: Option<Handle>, r: Amqp.Request, answered: bool): (Outcome, Link) {
    if h.None? || !Alive(l, h.value) then (Crash, l)
    else if h.value.conn != l.conn then (Got(false), l)
    else (Got(IsValid(l, h.value) && answered), l.(state := Amqp.AfterAsk(l.state, h.value.id, r, answered)))
  }

  /** m_command_queue->bind_exchange(exchange): both have to be there. */
  function BindQueue(l: Link, exchange: bool, binds: bool): (Outcome, Link) {
    if !exchange then (Crash, l) else Ask(l, l.queue, Amqp.BindQueue, binds)
  }

  /** m_rabbitmq_channel->declare_queue, whose result is the command queue. */
  function MakeQueue(l: Link, answered: bool): (Outcome, Link) {
    var (r, m) := Ask(l, l.channel, Amqp.DeclareQueue, answered);
    (r, m.(queue := if r == Got(true) then m.channel else None))
  }

  /** A new connection with what create_channel gives on it; opening the channel may throw. */
  function Connected(l: Link, a: Attempt): Link {
    var m := l.(conn := l.conn + 1, state := Amqp.AfterCreate(Amqp.INITIAL, a.max, a.opens));
    if Throws(a) then m
    else m.(channel := if m.state.known == {} then None else Some(Handle(m.conn, m.state.next)))
  }

  /** The constructor of the channel throws. */
  predicate Throws(a: Attempt) {
    a.max != 0 && !a.opens
  }

  function Consumed(l: Link, a: Attempt): Link {
    if l.queue.None? then l
    else l.(state := Amqp.AfterConsume(l.state, l.queue.value.id, "", None, a.consumes))
  }

  /** connect_to_rabbitmq: whether it succeeds, and what it leaves. */
  function Connect(l: Link, a: Attempt): (Outcome, Link) {
    if !a.connects then (Got(false), l)
    else if Throws(a) then (Got(false), Connected(l, a))
    else
      var m := Connected(l, a);
      var (r1, l1) := Ask(m, m.channel, Amqp.DeclareExchange, a.declares);
      if r1 != Got(true) then (r1, l1)
      else
        var (r2, l2) := MakeQueue(l1, a.makesQueue);
        if r2 == Crash then (r2, l2)
        else
          var (r3, l3) := BindQueue(l2, true, a.binds);
          if r3 != Got(true) then (r3, l3) else (Got(true), Consumed(l3, a))
  }

  // The world's part in one get_valid_exchange: two attempts to connect, two declarations and the bind.
  datatype Answers = Answers(first: Attempt, declared: bool, second: Attempt, declaredAgain: bool, binds: bool)

  /** get_valid_exchange once there is a channel. */
  function Declare(l: Link, a: Answers): (Outcome, Link) {
    var (r, m) := Ask(l, l.channel, Amqp.DeclareExchange, a.declared);
    if r == Got(false) then
      var (c, n) := Connect(m, a.second);
      if c != Got(true) then (c, n)
      else
        var (d, k) := Ask(n, n.channel, Amqp.DeclareExchange, a.declaredAgain);
        if d == Crash then (d, k) else Bound(k, d.ok, a.binds)
    else if r == Crash then (r, m)
    else Bound(m, true, a.binds)
  }

  /** The bind that ends get_valid_exchange; what it answers is not looked at. */
  function Bound(l: Link, exchange: bool, binds: bool): (Outcome, Link) {
    var (r, m) := BindQueue(l, exchange, binds);
    (if r == Crash then Crash else Got(true), m)
  }

  /** get_valid_exchange: whether there is one, and what is left. */
  function GetValidExchange(l: Link, a: Answers): (Outcome, Link) {
    if l.channel.Some? then Declare(l, a)
    else
      var (r, m) := Connect(l, a.first);
      if r != Got(true) then (r, m) else Declare(m, a)
  }

  // ---- When the process ends ----

  /** The attempt is refused a channel, or stops at the queue. */
  predicate Breaks(a: Attempt) {
    a.connects && (a.max == 0 || (a.opens && a.declares && !a.makesQueue))
  }

  predicate StopsAtExchange(a: Attempt) {
    a.connects && a.max != 0 && a.opens && !a.declares
  }

  predicate Succeeds(a: Attempt) {
    a.connects && a.max != 0 && a.opens && a.declares && a.makesQueue && a.binds
  }

  /** The channel held can still declare; the queue has lost its channel or was never there. */
  predicate CanDeclare(l: Link) {
    l.channel.Some? && IsValid(l, l.channel.value)
  }

  predicate QueueGone(l: Link) {
    l.queue.None? || !Alive(l, l.queue.value)
  }

  /** Objects come from the connections made so far. */
  predicate Sound(l: Link) {
    && (l.channel.Some? ==> l.channel.value.conn <= l.conn)
    && (l.queue.Some? ==> l.queue.value.conn <= l.conn)
  }

  /** A channel that opened on a new connection. */
  lemma ConnectedFacts(l: Link, a: Attempt)
    ensures var m := Connected(l, a);
            && m.conn == l.conn + 1 && m.queue == l.queue
            && (a.max == 0 ==> m.channel == None)
            && (Throws(a) ==> m.channel == l.channel)
            && (a.max != 0 && a.opens ==>
                  && m.channel == Some(Handle(m.conn, 1)) && m.state.known == {1}
                  && 1 in m.state.book && m.state.book[1] == Amqp.Chan(true, map[]))
  {
  }

  /** What an attempt to connect comes to, and the link it leaves. */
  lemma ConnectFacts(l: Link, a: Attempt)
    ensures var (r, m) := Connect(l, a);
            && (r == Crash <==> Breaks(a))
            && (r == Got(true) <==> Succeeds(a))
            && (Succeeds(a) ==> m.channel.Some? && !QueueGone(m) && (CanDeclare(m) <==> a.consumes))
            && (StopsAtExchange(a) ==>
                  CanDeclare(m) && m.queue == l.queue && m.channel == Some(Handle(m.conn, 1)) && m.state.known == {1})
            && (if a.connects then m.conn == l.conn + 1 else m == l)
            && (a.connects && Throws(a) ==> m.channel == l.channel && m.queue == l.queue)
            && (a.connects && a.opens && a.declares && a.makesQueue && a.max != 0 ==> m.queue == m.channel)
            && (Sound(l) ==> Sound(m))
  {
    ConnectedFacts(l, a);
    hide Connected;
  }

  /** The second attempt to connect is made. */
  predicate Reconnects(l: Link, a: Answers) {
    if l.channel.Some? then !(CanDeclare(l) && a.declared)
    else Succeeds(a.first) && !(a.first.consumes && a.declared)
  }

  /** From any link, get_valid_exchange calls on a pointer that is not set exactly when the first attempt to connect
      breaks, the channel it holds declares the exchange and the queue is gone, the second attempt breaks, or the
      reconnection succeeds and the exchange can still not be declared. */
  predicate RunsIntoNull(l: Link, a: Answers) {
    || (l.channel.None? && Breaks(a.first))
    || (CanDeclare(l) && a.declared && QueueGone(l))
    || (Reconnects(l, a) && (Breaks(a.second) || (Succeeds(a.second) && !(a.second.consumes && a.declaredAgain))))
  }

  lemma DeclareFacts(l: Link, a: Answers)
    requires l.channel.Some?
    ensures var again := !(CanDeclare(l) && a.declared);
            Declare(l, a).0 == Crash <==>
            || (CanDeclare(l) && a.declared && QueueGone(l))
            || (again && (Breaks(a.second) || (Succeeds(a.second) && !(a.second.consumes && a.declaredAgain))))
    ensures Declare(l, a).0 == Got(true) <==>
            Declare(l, a).0 != Crash && ((CanDeclare(l) && a.declared) || Succeeds(a.second))
    ensures Sound(l) ==> Sound(Declare(l, a).1)
  {
    var (r, m) := Ask(l, l.channel, Amqp.DeclareExchange, a.declared);
    ConnectFacts(m, a.second);
    var n := Connect(m, a.second).1;
    AskFacts(l, l.channel, Amqp.DeclareExchange, a.declared);
    AskFacts(n, n.channel, Amqp.DeclareExchange, a.declaredAgain);
    assert Alive(l, l.channel.value) && (n.channel.Some? ==> Alive(n, n.channel.value));
    hide Connect, Ask, Alive, QueueGone;
    BoundFacts(m, true, a.binds);
    BoundFacts(Ask(n, n.channel, Amqp.DeclareExchange, a.declaredAgain).1, a.second.consumes && a.declaredAgain,
               a.binds);
    hide Bound;
  }

  /** A request on a channel that is held is answered, and changes neither what is held nor what is alive. */
  lemma AskFacts(l: Link, h: Option<Handle>, r: Amqp.Request, answered: bool)
    ensures var (o, m) := Ask(l, h, r, answered);
            && (o == Crash <==> h.None? || !Alive(l, h.value))
            && (o == Crash <==>
                  h.None? || (l.channel != h && (h.value.conn != l.conn || h.value.id !in l.state.known)))
            && (o == Got(true) <==> h.Some? && Alive(l, h.value) && IsValid(l, h.value) && answered)
            && m == l.(state := m.state) && m.state.known == l.state.known
            && (QueueGone(m) <==> QueueGone(l))
  {
  }

  /** It reaches the broker exactly if the channel is of this connection and valid, and some failures cost the
      channel. */
  lemma AskReaches(l: Link, h: Handle, r: Amqp.Request, answered: bool)
    requires Alive(l, h)
    ensures var m, sent := Ask(l, Some(h), r, answered).1, h.conn == l.conn && Amqp.IsValid(l.state, h.id);
            && m.state.wire == l.state.wire + (if sent then [Amqp.Asked(h.id, r)] else [])
            && (IsValid(m, h) <==> sent && (answered || !Amqp.FailureClosesChannel(r)))
            && (!sent ==> m == l)
  {
  }

  lemma BoundFacts(l: Link, exchange: bool, binds: bool)
    ensures var (o, m) := Bound(l, exchange, binds);
            && (o == Crash <==> !exchange || QueueGone(l)) && (o != Crash ==> o == Got(true))
            && (Sound(l) ==> Sound(m))
  {
    AskFacts(l, l.queue, Amqp.BindQueue, binds);
    hide Ask;
  }

  /** When get_valid_exchange crashes, and when it gives an exchange: every attempt to connect that it has to make
      succeeds. */
  lemma CrashesExactly(l: Link, a: Answers)
    ensures GetValidExchange(l, a).0 == Crash <==> RunsIntoNull(l, a)
    ensures GetValidExchange(l, a).0 == Got(true) <==>
            && !RunsIntoNull(l, a)
            && (l.channel.None? ==> Succeeds(a.first)) && (Reconnects(l, a) ==> Succeeds(a.second))
    ensures Sound(l) ==> Sound(GetValidExchange(l, a).1)
  {
    ConnectFacts(l, a.first);
    if l.channel.Some? {
      DeclareFacts(l, a);
    } else if Succeeds(a.first) {
      DeclareFacts(Connect(l, a.first).1, a);
    }
    hide Connect, Declare, QueueGone, CanDeclare;
  }

  /** After an attempt that stopped at the exchange, the next call that can declare it binds a queue that is not
      there. */
  lemma HalfALinkCrashes(l: Link, at: Attempt, a: Answers)
    requires Sound(l) && StopsAtExchange(at) && a.declared
    ensures Connect(l, at).0 == Got(false) && GetValidExchange(Connect(l, at).1, a).0 == Crash
  {
    ConnectFacts(l, at);
    CrashesExactly(Connect(l, at).1, a);
    hide Connect, GetValidExchange;
  }

  // ---- The code ----

  class InOut<R> {
    var link: Link
    var responses: seq<R>
    var published: seq<R>

    /** The first connection is made on construction; what comes of it is not looked at. */
    constructor (first: Attempt)
      ensures link == Connect(UNLINKED, first).1 && responses == [] && published == []
    {
      link, responses, published := UNLINKED, [], [];
      new;
      var o := ConnectToRabbitmq(first);
    }

    method PushResponse(r: R)
      modifies this`responses
      ensures responses == old(responses) + [r]
    {
      responses := responses + [r];
    }

    method AskChannel(h: Option<Handle>, r: Amqp.Request, answered: bool) returns (o: Outcome)
      modifies this`link
      ensures (o, link) == Ask(old(link), h, r, answered)
    {
      if h.None? || !Alive(link, h.value) {
        return Crash;
      }
      if h.value.conn != link.conn {
        return Got(false);
      }
      o := Got(IsValid(link, h.value) && answered);
      link := link.(state := Amqp.AfterAsk(link.state, h.value.id, r, answered));
    }

    method ConnectToRabbitmq(a: Attempt) returns (o: Outcome)
      modifies this`link
      ensures (o, link) == Connect(old(link), a)
    {
      if !a.connects {
        return Got(false);
      }
      hide Ask, Connected;
      link := Connected(link, a);
      if Throws(a) {
        return Got(false);
      }
      o := AskChannel(link.channel, Amqp.DeclareExchange, a.declares);
      if o != Got(true) {
        return;
      }
      o := AskChannel(link.channel, Amqp.DeclareQueue, a.makesQueue);
      link := link.(queue := if o == Got(true) then link.channel else None);
      if o == Crash {
        return;
      }
      o := AskChannel(link.queue, Amqp.BindQueue, a.binds);
      if o != Got(true) {
        return;
      }
      link := Consumed(link, a);
    }

    method GetExchange(a: Answers) returns (o: Outcome)
      modifies this`link
      ensures (o, link) == GetValidExchange(old(link), a)
    {
      hide Ask, Connect;
      if link.channel.None? {
        o := ConnectToRabbitmq(a.first);
        if o != Got(true) {
          return;
        }
      }
      var exchange := AskChannel(link.channel, Amqp.DeclareExchange, a.declared);
      if exchange == Crash {
        return Crash;
      }
      if exchange == Got(false) {
        o := ConnectToRabbitmq(a.second);
        if o != Got(true) {
          return;
        }
        exchange := AskChannel(link.channel, Amqp.DeclareExchange, a.declaredAgain);
        if exchange == Crash {
          return Crash;
        }
      }
      if !exchange.ok {
        return Crash;
      }
      o := AskChannel(link.queue, Amqp.BindQueue, a.binds);
      if o != Crash {
        o := Got(true);
      }
    }

    /** One turn of run(): what is handed over and queued stays in order, and at most one response is handed over. */
    method Turn(a: Answers, consumed: bool, locked: bool) returns (crashed: bool)
      modifies this
      ensures crashed <==> RunsIntoNull(old(link), a)
      ensures link == GetValidExchange(old(link), a).1
      ensures published + responses == old(published) + old(responses)
      ensures published == old(published) +
                HandedOver(old(responses), GetValidExchange(old(link), a).0 == Got(true), consumed, locked)
    {
      CrashesExactly(link, a);
      hide GetValidExchange, RunsIntoNull;
      var o := GetExchange(a);
      if o == Crash {
        return true;
      }
      if o == Got(false) {
        return false;
      }
      if !consumed {
        return false;
      }
      if locked {
        if responses != [] {
          published := published + [responses[0]];
          responses := responses[1..];
        }
      }
      return false;
    }
  }

  // ---- The loop and the pushing threads, one access at a time ----

  // Each name but the last two is what the loop does next.
  datatype Place =
    | ChecksStop | GetsExchange | Consumes | TriesLock | Looks | Publishes | Pops | Unlocks | Stopped | Crashed

  datatype Pusher<R> = Idle | Locks(r: R) | Pushes(r: R) | Releases

  datatype Owner = Nobody | TheLoop | Thread(who: nat)

  // `turn` counts what was handed over in this iteration.
  datatype Loop = Loop(place: Place, link: Link, stop: bool, turn: nat)

  datatype Shared<R> = Shared(owner: Owner, queue: seq<R>, pushed: seq<R>, handed: seq<R>)

  datatype State<R> = State(loop: Loop, shared: Shared<R>, pushers: map<nat, Pusher<R>>)

  datatype Action<R> =
    | Push(who: nat, r: R) | PusherStep(who: nat) | Stop
    | LoopStep(answers: Answers, consumed: bool, locks: bool)

  function Initial<R>(first: Attempt): State<R> {
    var (r, l) := Connect(UNLINKED, first);
    State(Loop(if r == Crash then Crashed else ChecksStop, l, false, 0), Shared(Nobody, [], [], []), map[])
  }

  function PusherOf<R>(s: State<R>, w: nat): Pusher<R> {
    if w in s.pushers then s.pushers[w] else Idle
  }

  predicate Enabled<R>(s: State<R>, a: Action<R>) {
    match a
    case Push(w, _) => PusherOf(s, w).Idle?
    case PusherStep(w) => !PusherOf(s, w).Idle? && (PusherOf(s, w).Locks? ==> s.shared.owner.Nobody?)
    case Stop => true
    case LoopStep(_, _, _) => !s.loop.place.Stopped? && !s.loop.place.Crashed?
  }

  function At<R>(s: State<R>, place: Place): State<R> {
    s.(loop := s.loop.(place := place))
  }

  /** The loop up to the lock; try_lock may also fail when nobody holds it. */
  function Approach<R>(s: State<R>, answers: Answers, consumed: bool, locks: bool): State<R> {
    match s.loop.place
    case ChecksStop => if s.loop.stop then At(s, Stopped) else s.(loop := s.loop.(place := GetsExchange, turn := 0))
    case GetsExchange =>
      var (r, l) := GetValidExchange(s.loop.link, answers);
      s.(loop := s.loop.(link := l, place := if r == Crash then Crashed else if r.ok then Consumes else ChecksStop))
    case Consumes => At(s, if consumed then TriesLock else ChecksStop)
    case _ =>
      if s.shared.owner.Nobody? && locks then At(s, Looks).(shared := s.shared.(owner := TheLoop))
      else At(s, ChecksStop)
  }

  /** The loop while it holds the lock. */
  function Hold<R>(s: State<R>): State<R> {
    match s.loop.place
    case Looks => At(s, if |s.shared.queue| == 0 then Unlocks else Publishes)
    case Publishes =>
      if |s.shared.queue| == 0 then At(s, Crashed)
      else
        s.(loop := s.loop.(place := Pops, turn := s.loop.turn + 1),
           shared := s.shared.(handed := s.shared.handed + [s.shared.queue[0]]))
    case Pops =>
      if |s.shared.queue| == 0 then At(s, Crashed)
      else At(s, Unlocks).(shared := s.shared.(queue := s.shared.queue[1..]))
    case _ => At(s, ChecksStop).(shared := s.shared.(owner := Nobody))
  }

  predicate Holds(p: Place) {
    p.Looks? || p.Publishes? || p.Pops? || p.Unlocks?
  }

  function PusherStepOf<R>(s: State<R>, w: nat): State<R> {
    match PusherOf(s, w)
    case Idle => s
    case Locks(r) => s.(pushers := s.pushers[w := Pushes(r)], shared := s.shared.(owner := Thread(w)))
    case Pushes(r) =>
      s.(pushers := s.pushers[w := Releases],
         shared := s.shared.(queue := s.shared.queue + [r], pushed := s.shared.pushed + [r]))
    case Releases => s.(pushers := s.pushers[w := Idle], shared := s.shared.(owner := Nobody))
  }

  function Apply<R>(s: State<R>, a: Action<R>): State<R>
    requires Enabled(s, a)
  {
    match a
    case Push(w, r) => s.(pushers := s.pushers[w := Locks(r)])
    case PusherStep(w) => PusherStepOf(s, w)
    case Stop => s.(loop := s.loop.(stop := true))
    case LoopStep(answers, consumed, locks) =>
      if Holds(s.loop.place) then Hold(s) else Approach(s, answers, consumed, locks)
  }

  predicate Runs<R>(s: State<R>, actions: seq<Action<R>>)
    decreases |actions|
  {
    actions == [] || (Enabled(s, actions[0]) && Runs(Apply(s, actions[0]), actions[1..]))
  }

  function Final<R>(s: State<R>, actions: seq<Action<R>>): State<R>
    requires Runs(s, actions)
    decreases |actions|
  {
    if actions == [] then s else Final(Apply(s, actions[0]), actions[1..])
  }

  // ---- What every run keeps ----

  ghost predicate LockInv<R>(s: State<R>) {
    && (s.shared.owner == TheLoop <==> Holds(s.loop.place))
    && (forall w: nat :: s.shared.owner == Thread(w) <==> PusherOf(s, w).Pushes? || PusherOf(s, w).Releases?)
  }

  /** The responses pushed are those handed over followed by those queued; while the loop has handed one over and not
      yet removed it, that one is at the front of the queue. */
  predicate Conserved<R(==)>(s: State<R>) {
    var q := s.shared.queue;
    && (s.loop.place.Publishes? || s.loop.place.Pops? ==> q != [])
    && (s.loop.place.Pops? ==> s.shared.handed != [] && s.shared.handed[|s.shared.handed| - 1] == q[0])
    && s.shared.pushed == s.shared.handed + if s.loop.place.Pops? then q[1..] else q
  }

  /** At most one response an iteration. */
  predicate OneATurn<R>(s: State<R>) {
    s.loop.turn <= 1 &&
    (s.loop.turn == 1 ==>
       s.loop.place.Pops? || s.loop.place.Unlocks? || s.loop.place.ChecksStop? || s.loop.place.Stopped?)
  }

  ghost predicate Inv<R>(s: State<R>) {
    LockInv(s) && Conserved(s) && OneATurn(s)
  }

  lemma LoopKeepsInv<R>(s: State<R>, a: Action<R>)
    requires Inv(s) && Enabled(s, a) && a.LoopStep?
    ensures Inv(Apply(s, a))
  {
    if Holds(s.loop.place) {
      HoldKeepsInv(s);
    } else {
      ApproachKeepsInv(s, a);
    }
    hide Inv, Hold, Approach;
  }

  lemma HoldKeepsInv<R>(s: State<R>)
    requires Inv(s) && Holds(s.loop.place)
    ensures Inv(Hold(s))
  {
    assert forall w: nat :: PusherOf(Hold(s), w) == PusherOf(s, w);
    hide PusherOf;
  }

  lemma ApproachKeepsInv<R>(s: State<R>, a: Action<R>)
    requires Inv(s) && Enabled(s, a) && a.LoopStep? && !Holds(s.loop.place)
    ensures Inv(Approach(s, a.answers, a.consumed, a.locks))
  {
    hide GetValidExchange;
    assert forall w: nat :: PusherOf(Approach(s, a.answers, a.consumed, a.locks), w) == PusherOf(s, w);
    hide PusherOf;
  }

  lemma PusherKeepsInv<R>(s: State<R>, a: Action<R>)
    requires Inv(s) && Enabled(s, a) && !a.LoopStep?
    ensures Inv(Apply(s, a))
  {
    hide GetValidExchange;
  }

  lemma StepKeepsInv<R>(s: State<R>, a: Action<R>)
    requires Inv(s) && Enabled(s, a)
    ensures Inv(Apply(s, a))
  {
    if a.LoopStep? {
      LoopKeepsInv(s, a);
    } else {
      PusherKeepsInv(s, a);
    }
  }

  lemma {:induction false} RunKeepsInv<R>(s: State<R>, actions: seq<Action<R>>)
    requires Inv(s) && Runs(s, actions)
    ensures Inv(Final(s, actions))
    decreases |actions|
  {
    if actions != [] {
      StepKeepsInv(s, actions[0]);
      hide Inv, Apply, Enabled;
      RunKeepsInv(Apply(s, actions[0]), actions[1..]);
    }
  }

  /** Under every interleaving and whatever the broker answers, each response is handed over at most once and in the
      order it was pushed, one an iteration at most, and none is lost from the queue; the front of an empty queue is
      never asked for. */
  lemma ResponsesAreConserved<R>(first: Attempt, actions: seq<Action<R>>)
    requires Runs(Initial(first), actions)
    ensures var s := Final(Initial(first), actions);
            && Conserved(s) && OneATurn(s)
            && s.shared.handed <= s.shared.pushed
            && (!s.loop.place.Pops? ==> s.shared.pushed == s.shared.handed + s.shared.queue)
  {
    RunKeepsInv(Initial(first), actions);
  }

  // ---- One iteration ----

  // What the world has answered in an iteration so far: to the request for an exchange, to consuming, to the lock, and
  // the queue the loop then looked at.
  datatype Notes<R> = Notes(
    answers: Option<Answers>, consumed: Option<bool>, locked: Option<bool>, queue: Option<seq<R>>)

  function Nothing<R>(): Notes<R> {
    Notes(None, None, None, None)
  }

  function Noted<R>(s: State<R>, a: Action<R>, n: Notes<R>): Notes<R> {
    if !a.LoopStep? then n
    else
      match s.loop.place
      case GetsExchange => n.(answers := Some(a.answers))
      case Consumes => n.(consumed := Some(a.consumed))
      case TriesLock => n.(locked := Some(a.locks && s.shared.owner == Nobody))
      case Looks => n.(queue := Some(s.shared.queue))
      case _ => n
  }

  function AllNoted<R>(s: State<R>, actions: seq<Action<R>>, n: Notes<R>): Notes<R>
    requires Runs(s, actions)
    decreases |actions|
  {
    if actions == [] then n else AllNoted(Apply(s, actions[0]), actions[1..], Noted(s, actions[0], n))
  }

  /** The loop does not begin another iteration. */
  predicate NoNextTurn<R>(s: State<R>, actions: seq<Action<R>>)
    requires Runs(s, actions)
    decreases |actions|
  {
    actions == [] ||
    (!(actions[0].LoopStep? && s.loop.place.ChecksStop?) && NoNextTurn(Apply(s, actions[0]), actions[1..]))
  }

  /** The iteration was asked as far as it got: an exchange, then consuming, then the lock, then the queue. */
  predicate AskedInTurn<R>(l: Link, n: Notes<R>) {
    && n.answers.Some?
    && (n.consumed.Some? <==> GetValidExchange(l, n.answers.value).0 == Got(true))
    && (n.locked.Some? <==> n.consumed == Some(true))
    && (n.queue.Some? <==> n.locked == Some(true))
  }

  /** The response an iteration hands over, if it does. */
  function HandedOver<R>(queue: seq<R>, exchange: bool, consumed: bool, locked: bool): seq<R> {
    if exchange && consumed && locked && |queue| > 0 then [queue[0]] else []
  }

  /** Where the iteration is, what the world has answered, and what has been handed over since it began with the link l
      and after the responses h. */
  ghost predicate InTurn<R>(l: Link, h: seq<R>, s: State<R>, n: Notes<R>) {
    var exchange := n.answers.Some? && GetValidExchange(l, n.answers.value) == (Got(true), s.loop.link);
    match s.loop.place
    case GetsExchange => n == Nothing() && s.loop.link == l && s.shared.handed == h
    case Consumes => exchange && n == Nothing().(answers := n.answers) && s.shared.handed == h
    case TriesLock => exchange && n == Notes(n.answers, Some(true), None, None) && s.shared.handed == h
    case Looks => exchange && n == Notes(n.answers, Some(true), Some(true), None) && s.shared.handed == h
    case Publishes =>
      && exchange && n == Notes(n.answers, Some(true), Some(true), Some(s.shared.queue)) && s.shared.queue != []
      && s.shared.handed == h
    case Pops =>
      && exchange && n == Notes(n.answers, Some(true), Some(true), Some(s.shared.queue)) && s.shared.queue != []
      && s.shared.handed == h + [s.shared.queue[0]]
    case Unlocks =>
      && exchange && n.queue.Some? && n == Notes(n.answers, Some(true), Some(true), n.queue)
      && s.shared.handed == h + HandedOver(n.queue.value, true, true, true)
    case ChecksStop => TurnIsOver(l, h, s, n)
    case Stopped => false
    case Crashed => true
  }

  ghost predicate TurnIsOver<R>(l: Link, h: seq<R>, s: State<R>, n: Notes<R>) {
    && AskedInTurn(l, n)
    && s.loop.link == GetValidExchange(l, n.answers.value).1
    && s.shared.handed == h + HandedOver(if n.queue.Some? then n.queue.value else [], n.consumed.Some?,
                                         n.consumed == Some(true), n.locked == Some(true))
  }

  lemma LoopKeepsTurn<R>(l: Link, h: seq<R>, s: State<R>, a: Action<R>, n: Notes<R>)
    requires Inv(s) && InTurn(l, h, s, n) && Enabled(s, a) && a.LoopStep? && !s.loop.place.ChecksStop?
    ensures InTurn(l, h, Apply(s, a), Noted(s, a, n))
  {
    hide GetValidExchange, LockInv, OneATurn;
    assert h + [] == h;
  }

  lemma PusherKeepsTurn<R>(l: Link, h: seq<R>, s: State<R>, a: Action<R>, n: Notes<R>)
    requires Inv(s) && InTurn(l, h, s, n) && Enabled(s, a) && !a.LoopStep?
    ensures InTurn(l, h, Apply(s, a), Noted(s, a, n))
  {
    hide GetValidExchange, Conserved, OneATurn;
  }

  lemma {:induction false} TurnGoesOn<R>(l: Link, h: seq<R>, s: State<R>, actions: seq<Action<R>>, n: Notes<R>)
    requires Inv(s) && InTurn(l, h, s, n) && Runs(s, actions) && NoNextTurn(s, actions)
    ensures InTurn(l, h, Final(s, actions), AllNoted(s, actions, n))
    decreases |actions|
  {
    if actions != [] {
      StepKeepsInv(s, actions[0]);
      if actions[0].LoopStep? {
        LoopKeepsTurn(l, h, s, actions[0], n);
      } else {
        PusherKeepsTurn(l, h, s, actions[0], n);
      }
      hide Inv, InTurn, Apply, Enabled, Noted;
      TurnGoesOn(l, h, Apply(s, actions[0]), actions[1..], Noted(s, actions[0], n));
    }
  }

  /** A whole iteration, whatever the pushing threads do in between: when the loop is back at its beginning it has
      asked for everything its answers let it ask for, has the link get_valid_exchange leaves, and has handed over the
      response that was in front exactly when there was an exchange, consuming succeeded, the lock was got and the
      queue was not empty. */
  lemma WholeTurn<R>(s: State<R>, actions: seq<Action<R>>)
    requires Inv(s) && s.loop.place.ChecksStop? && !s.loop.stop && Runs(s, actions)
    requires actions != [] && actions[0].LoopStep? && NoNextTurn(Apply(s, actions[0]), actions[1..])
    ensures var t, n := Final(s, actions), AllNoted(s, actions, Nothing());
            t.loop.place.ChecksStop? ==>
              && AskedInTurn(s.loop.link, n)
              && t.loop.link == GetValidExchange(s.loop.link, n.answers.value).1
              && t.shared.handed == s.shared.handed +
                   if n.queue.Some? && n.queue.value != [] then [n.queue.value[0]] else []
  {
    StepKeepsInv(s, actions[0]);
    hide Inv, GetValidExchange;
    TurnGoesOn(s.loop.link, s.shared.handed, Apply(s, actions[0]), actions[1..], Nothing());
  }

  /** The loop ends exactly when it finds at the beginning of an iteration that it was told to. */
  lemma StopsExactly<R>(s: State<R>, a: Action<R>)
    requires Enabled(s, a) && !s.loop.place.Stopped?
    ensures Apply(s, a).loop.place.Stopped? <==> a.LoopStep? && s.loop.place.ChecksStop? && s.loop.stop
    ensures Apply(s, a).loop.stop <==> s.loop.stop || a.Stop?
    ensures Enabled(s, Action.Stop)
  {
    hide GetValidExchange;
  }

  /** So it does not end unless it was told to. */
  lemma GoesOnUntilTold<R>(first: Attempt, actions: seq<Action<R>>)
    requires Runs(Initial(first), actions) && forall i | 0 <= i < |actions| :: !actions[i].Stop?
    ensures !Final(Initial(first), actions).loop.place.Stopped?
  {
    NotToldGoesOn(Initial(first), actions);
  }

  lemma {:induction false} NotToldGoesOn<R>(s: State<R>, actions: seq<Action<R>>)
    requires !s.loop.stop && !s.loop.place.Stopped? && Runs(s, actions)
    requires forall i | 0 <= i < |actions| :: !actions[i].Stop?
    ensures !Final(s, actions).loop.place.Stopped?
    decreases |actions|
  {
    if actions != [] {
      StopsExactly(s, actions[0]);
      hide Apply, Enabled;
      NotToldGoesOn(Apply(s, actions[0]), actions[1..]);
    }
  }

  /** What the steps of thread w append to the queue. */
  function AppendedBy<R>(s: State<R>, actions: seq<Action<R>>, w: nat): seq<R>
    requires Runs(s, actions)
    decreases |actions|
  {
    if actions == [] then []
    else
      var t := Apply(s, actions[0]);
      (if actions[0] == PusherStep(w) && |t.shared.queue| > |s.shared.queue| then t.shared.queue[|s.shared.queue|..]
       else []) + AppendedBy(t, actions[1..], w)
  }

  lemma {:induction false} PushGoesOn<R>(s: State<R>, actions: seq<Action<R>>, w: nat, r: R)
    requires Runs(s, actions) && PusherOf(Final(s, actions), w).Idle?
    requires || PusherOf(s, w) == Locks(r) || PusherOf(s, w) == Pushes(r)
             || PusherOf(s, w).Releases? || PusherOf(s, w).Idle?
    requires forall i | 0 <= i < |actions| :: !(actions[i].Push? && actions[i].who == w)
    ensures AppendedBy(s, actions, w) == if PusherOf(s, w).Locks? || PusherOf(s, w).Pushes? then [r] else []
    decreases |actions|
  {
    if actions != [] {
      PusherMoves(s, actions[0], w);
      hide Apply, Enabled, PusherOf;
      PushGoesOn(Apply(s, actions[0]), actions[1..], w, r);
    }
  }

  /** push_response, cut at every access to the mutex and the queue, has appended its response once when it returns. */
  lemma PushAppendsOnce<R>(s: State<R>, actions: seq<Action<R>>, w: nat, r: R)
    requires actions != [] && actions[0] == Push(w, r) && Runs(s, actions) && PusherOf(Final(s, actions), w).Idle?
    requires forall i | 0 < i < |actions| :: !(actions[i].Push? && actions[i].who == w)
    ensures AppendedBy(s, actions, w) == [r]
  {
    PushGoesOn(Apply(s, actions[0]), actions[1..], w, r);
  }

  lemma PusherMoves<R>(s: State<R>, a: Action<R>, w: nat)
    requires Enabled(s, a) && !(a.Push? && a.who == w)
    ensures var t := Apply(s, a);
            if a != PusherStep(w) then PusherOf(t, w) == PusherOf(s, w)
            else match PusherOf(s, w)
                 case Idle => false
                 case Locks(r) => PusherOf(t, w) == Pushes(r) && t.shared.queue == s.shared.queue
                 case Pushes(r) => PusherOf(t, w).Releases? && t.shared.queue == s.shared.queue + [r]
                 case Releases => PusherOf(t, w).Idle? && t.shared.queue == s.shared.queue
  {
    hide GetValidExchange;
  }

  // ---- Which runs end in a crash ----

  /** The step asks for an exchange with a link and answers that run into a pointer that is not set. */
  predicate StepsIntoNull<R>(s: State<R>, a: Action<R>) {
    a.LoopStep? && s.loop.place == GetsExchange && RunsIntoNull(s.loop.link, a.answers)
  }

  lemma StepCrashesExactly<R>(s: State<R>, a: Action<R>)
    requires Inv(s) && Enabled(s, a) && !s.loop.place.Crashed?
    ensures Apply(s, a).loop.place.Crashed? <==> StepsIntoNull(s, a)
  {
    if a.LoopStep? {
      CrashesExactly(s.loop.link, a.answers);
    }
    hide GetValidExchange, RunsIntoNull;
  }

  lemma {:induction false} CrashIsFinal<R>(s: State<R>, actions: seq<Action<R>>)
    requires Runs(s, actions) && s.loop.place.Crashed?
    ensures Final(s, actions).loop.place.Crashed?
    decreases |actions|
  {
    if actions != [] {
      assert Apply(s, actions[0]).loop.place.Crashed?;
      hide Apply, Enabled;
      CrashIsFinal(Apply(s, actions[0]), actions[1..]);
    }
  }

  /** Some step of the run from s steps into a null pointer. */
  predicate MeetsNull<R>(s: State<R>, actions: seq<Action<R>>)
    requires Runs(s, actions)
    decreases |actions|
  {
    actions != [] && (StepsIntoNull(s, actions[0]) || MeetsNull(Apply(s, actions[0]), actions[1..]))
  }

  lemma {:induction false} RunCrashes<R>(s: State<R>, actions: seq<Action<R>>)
    requires Inv(s) && Runs(s, actions) && !s.loop.place.Crashed?
    ensures Final(s, actions).loop.place.Crashed? <==> MeetsNull(s, actions)
    decreases |actions|
  {
    if actions != [] {
      StepCrashesExactly(s, actions[0]);
      StepKeepsInv(s, actions[0]);
      hide Inv, Apply, Enabled, StepsIntoNull;
      var t := Apply(s, actions[0]);
      if t.loop.place.Crashed? {
        CrashIsFinal(t, actions[1..]);
      } else {
        RunCrashes(t, actions[1..]);
      }
    }
  }

  /** Over every run, whatever the broker answers and however the threads interleave: the process is gone exactly when
      the attempt on construction broke, or some request for an exchange ran into a pointer that was not set. */
  lemma RunCrashesExactly<R>(first: Attempt, actions: seq<Action<R>>)
    requires Runs(Initial(first), actions)
    ensures Final(Initial(first), actions).loop.place.Crashed? <==> Breaks(first) || MeetsNull(Initial(first), actions)
  {
    ConnectFacts(UNLINKED, first);
    hide Connect;
    if Breaks(first) {
      CrashIsFinal(Initial(first), actions);
    } else {
      RunCrashes(Initial(first), actions);
    }
  }

  // ---- Brokers that let the loop go on ----

  /** A channel the loop holds has its queue. */
  predicate Linked(l: Link) {
    l.channel.Some? ==> l.queue == l.channel
  }

  /** No attempt stops between the channel and the bind, and a reconnection is good for the declaration after it. */
  predicate Kind(a: Answers) {
    Clean(a.first) && Clean(a.second) && (Succeeds(a.second) ==> a.second.consumes && a.declaredAgain)
  }

  predicate Clean(a: Attempt) {
    !Breaks(a) && !StopsAtExchange(a)
  }

  lemma CleanKeepsLinked(l: Link, a: Attempt)
    requires Clean(a) && Linked(l)
    ensures Linked(Connect(l, a).1)
  {
    ConnectFacts(l, a);
    hide Connect, QueueGone;
  }

  lemma KindKeepsLinked(l: Link, a: Answers)
    requires Linked(l) && Kind(a)
    ensures !RunsIntoNull(l, a) && Linked(GetValidExchange(l, a).1)
  {
    CleanKeepsLinked(l, a.first);
    if l.channel.Some? {
      DeclareKeepsLinked(l, a);
    } else if Succeeds(a.first) {
      ConnectFacts(l, a.first);
      DeclareKeepsLinked(Connect(l, a.first).1, a);
    } else {
      ConnectFacts(l, a.first);
    }
    hide Connect, Declare;
  }

  lemma DeclareKeepsLinked(l: Link, a: Answers)
    requires Linked(l) && Kind(a) && l.channel.Some?
    ensures Linked(Declare(l, a).1)
  {
    var m := Ask(l, l.channel, Amqp.DeclareExchange, a.declared).1;
    AskFacts(l, l.channel, Amqp.DeclareExchange, a.declared);
    CleanKeepsLinked(m, a.second);
    var n := Connect(m, a.second).1;
    AskFacts(n, n.channel, Amqp.DeclareExchange, a.declaredAgain);
    hide Connect, Kind, Alive, QueueGone;
    AskFacts(m, m.queue, Amqp.BindQueue, a.binds);
    var k := Ask(n, n.channel, Amqp.DeclareExchange, a.declaredAgain).1;
    AskFacts(k, k.queue, Amqp.BindQueue, a.binds);
    hide Ask;
  }

  lemma {:induction false} KindRunsGoOn<R>(s: State<R>, actions: seq<Action<R>>)
    requires Inv(s) && Runs(s, actions) && Linked(s.loop.link) && !s.loop.place.Crashed?
    requires forall i | 0 <= i < |actions| && actions[i].LoopStep? :: Kind(actions[i].answers)
    ensures !Final(s, actions).loop.place.Crashed?
    decreases |actions|
  {
    if actions != [] {
      StepKeepsInv(s, actions[0]);
      StepCrashesExactly(s, actions[0]);
      StepKeepsLinked(s, actions[0]);
      hide Inv, Apply, Enabled, Linked, Kind;
      KindRunsGoOn(Apply(s, actions[0]), actions[1..]);
    }
  }

  lemma StepKeepsLinked<R>(s: State<R>, a: Action<R>)
    requires Enabled(s, a) && Linked(s.loop.link) && (a.LoopStep? ==> Kind(a.answers))
    ensures Linked(Apply(s, a).loop.link) && !StepsIntoNull(s, a)
  {
    if a.LoopStep? {
      KindKeepsLinked(s.loop.link, a.answers);
    }
    hide GetValidExchange, RunsIntoNull, Linked, Kind;
  }

  /** As long as no attempt to connect stops between the channel and the bind, the loop never uses what it did not
      get. */
  lemma KindBrokerNeverCrashes<R>(first: Attempt, actions: seq<Action<R>>)
    requires Clean(first) && Runs(Initial(first), actions)
    requires forall i | 0 <= i < |actions| && actions[i].LoopStep? :: Kind(actions[i].answers)
    ensures !Final(Initial(first), actions).loop.place.Crashed?
  {
    ConnectFacts(UNLINKED, first);
    CleanKeepsLinked(UNLINKED, first);
    hide Connect;
    KindRunsGoOn(Initial(first), actions);
  }
}
