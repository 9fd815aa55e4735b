// The queue shared by threads: its operations called one at a time, and the same operations cut at every access to the
// mutex and the deque, run by any number of threads at once.
module SafeQueue {
  import opened JsonModel

  datatype Op<T> = PushBack(item: T) | PopFront | Empty | Size

  // What a call gives back; Thrown is ThreadSafeQueueEmptyException.
  datatype Answer<T> = Done | Front(value: T) | Thrown | IsEmpty(empty: bool) | Count(count: nat)

  // ---- One call at a time ----

  /** What an uninterrupted call does to the deque and answers. */
  function Served<T(==)>(op: Op<T>, q: seq<T>): (seq<T>, Answer<T>) {
    match op
    case PushBack(x) => (q + [x], Done)
    case PopFront => if q == [] then (q, Thrown) else (q[1..], Front(q[0]))
    case Empty => (q, IsEmpty(q == []))
    case Size => (q, Count(|q|))
  }

  class ThreadSafeQueue<T(==)> {
    var queue: seq<T>

    constructor ()
      ensures queue == []
    {
      queue := [];
    }

    method PushBack(t: T)
      modifies this
      ensures (queue, Done) == Served(Op.PushBack(t), old(queue))
    {
      queue := queue + [t];
    }

    method PopFront() returns (r: Answer<T>)
      modifies this
      ensures (queue, r) == Served(Op.PopFront, old(queue))
    {
      if queue == [] {
        return Thrown;
      }
      r := Front(queue[0]);
      queue := queue[1..];
    }

    method IsEmpty() returns (empty: bool)
      ensures (queue, Answer.IsEmpty(empty)) == Served(Op.Empty, queue)
    {
      empty := queue == [];
    }

    method Size() returns (size: nat)
      ensures (queue, Count(size)) == Served(Op.Size, queue)
    {
      size := |queue|;
    }
  }

  // ---- Histories: when an operation is called, takes effect and returns ----

  type Thread = nat

  datatype Event<T> =
    | Called(who: Thread, op: Op<T>)
    | TookEffect(who: Thread, op: Op<T>, answer: Answer<T>)
    | Returned(who: Thread, answer: Answer<T>)

  datatype Pending<T> = Asked(op: Op<T>) | Answered(op: Op<T>, answer: Answer<T>)

  // The queue as one object: what it holds and the calls in progress.
  datatype Atomic<T> = Atomic(q: seq<T>, pending: map<Thread, Pending<T>>)

  /** One event of the atomic queue; None when that event cannot happen there. */
  function Advance<T(==)>(a: Atomic<T>, e: Event<T>): Option<Atomic<T>> {
    match e
    case Called(w, op) => if w in a.pending then None else Some(a.(pending := a.pending[w := Asked(op)]))
    case TookEffect(w, op, ans) =>
      if w in a.pending && a.pending[w] == Asked(op) && Served(op, a.q).1 == ans
      then Some(Atomic(Served(op, a.q).0, a.pending[w := Answered(op, ans)]))
      else None
    case Returned(w, ans) =>
      if w in a.pending && a.pending[w].Answered? && a.pending[w].answer == ans
      then Some(a.(pending := a.pending - {w}))
      else None
  }

  /** The atomic queue after a history; None when it has no such history. */
  function Replay<T(==)>(log: seq<Event<T>>): Option<Atomic<T>> {
    if log == [] then Some(Atomic([], map[]))
    else
      match Replay(log[..|log| - 1])
      case None => None
      case Some(a) => Advance(a, log[|log| - 1])
  }

  function Pushes<T>(log: seq<Event<T>>): seq<T> {
    if log == [] then []
    else
      Pushes(log[..|log| - 1]) +
      match log[|log| - 1]
      case TookEffect(_, PushBack(x), _) => [x]
      case _ => []
  }

  function Pops<T>(log: seq<Event<T>>): seq<T> {
    if log == [] then []
    else
      Pops(log[..|log| - 1]) +
      match log[|log| - 1]
      case TookEffect(_, _, Front(x)) => [x]
      case _ => []
  }

  /** In every history of the atomic queue, what was pushed is what was popped followed by what is left. */
  lemma {:induction false} PopsArePrefixOfPushes<T>(log: seq<Event<T>>)
    requires Replay(log).Some?
    ensures Pushes(log) == Pops(log) + Replay(log).value.q
  {
    if log != [] {
      var shorter := log[..|log| - 1];
      PopsArePrefixOfPushes(shorter);
    }
  }

  lemma {:induction false} PrefixReplays<T>(log: seq<Event<T>>, n: nat)
    requires Replay(log).Some? && n <= |log|
    ensures Replay(log[..n]).Some?
    decreases |log|
  {
    if n == |log| {
      assert log[..n] == log;
    } else {
      assert log[..|log| - 1][..n] == log[..n];
      PrefixReplays(log[..|log| - 1], n);
    }
  }

  /** Every answer is what the pushes and pops before it call for; in particular pop_front throws exactly when
      everything pushed so far has been popped, and what it returns is the oldest item not yet popped. */
  lemma AnswersAreDue<T>(log: seq<Event<T>>, i: nat)
    requires Replay(log).Some? && i < |log| && log[i].TookEffect?
    ensures var pushed, popped, ans := Pushes(log[..i]), Pops(log[..i]), log[i].answer;
            && |popped| <= |pushed|
            && (match log[i].op
                case PushBack(_) => ans == Done
                case PopFront => ans == if |popped| == |pushed| then Thrown else Front(pushed[|popped|])
                case Empty => ans == IsEmpty(|popped| == |pushed|)
                case Size => ans == Count(|pushed| - |popped|))
  {
    PrefixReplays(log, i);
    PrefixReplays(log, i + 1);
    assert log[..i + 1][..i] == log[..i];
    PopsArePrefixOfPushes(log[..i]);
  }

  /** Where the pending calls of a history come from. */
  ghost predicate PendingSince<T>(log: seq<Event<T>>, w: Thread, p: Pending<T>) {
    match p
    case Asked(op) => exists k: nat :: CalledAt(log, w, op, k)
    case Answered(op, ans) => exists k: nat, j: nat :: AnsweredAt(log, w, op, ans, k, j)
  }

  /** The last event of w is its call, the k-th event. */
  predicate CalledAt<T(==)>(log: seq<Event<T>>, w: Thread, op: Op<T>, k: nat) {
    && k < |log| && log[k] == Called(w, op)
    && forall n | k < n < |log| :: log[n].who != w
  }

  /** The last events of w are its call, the k-th event, and the taking effect of that call, the j-th. */
  predicate AnsweredAt<T(==)>(log: seq<Event<T>>, w: Thread, op: Op<T>, ans: Answer<T>, k: nat, j: nat) {
    && k < j < |log| && log[k] == Called(w, op) && log[j] == TookEffect(w, op, ans)
    && forall n | k < n < |log| && n != j :: log[n].who != w
  }

  lemma PendingGrows<T>(shorter: seq<Event<T>>, log: seq<Event<T>>, w: Thread,
                        before: Option<Pending<T>>, p: Pending<T>)
    requires 0 < |log| && shorter == log[..|log| - 1]
    requires before.Some? ==> PendingSince(shorter, w, before.value)
    requires match log[|log| - 1]
             case Called(v, op) => if v == w then p == Asked(op) else before == Some(p)
             case TookEffect(v, op, ans) => if v == w then before == Some(Asked(op)) && p == Answered(op, ans)
                                            else before == Some(p)
             case Returned(v, _) => v != w && before == Some(p)
    ensures PendingSince(log, w, p)
  {
    var last := |log| - 1;
    if log[last].who != w {
      match p {
        case Asked(op) =>
          var k: nat :| CalledAt(shorter, w, op, k);
          assert CalledAt(log, w, op, k);
        case Answered(op, ans) =>
          var k: nat, j: nat :| AnsweredAt(shorter, w, op, ans, k, j);
          assert AnsweredAt(log, w, op, ans, k, j);
      }
    } else if log[last].Called? {
      assert CalledAt(log, w, p.op, last);
    } else {
      var k: nat :| CalledAt(shorter, w, p.op, k);
      assert AnsweredAt(log, w, p.op, p.answer, k, last);
    }
  }

  lemma {:induction false} PendingHasSource<T>(log: seq<Event<T>>, w: Thread)
    requires Replay(log).Some? && w in Replay(log).value.pending
    ensures PendingSince(log, w, Replay(log).value.pending[w])
  {
    hide Served, PendingSince;
    var shorter := log[..|log| - 1];
    var before := Replay(shorter).value.pending;
    if w in before {
      PendingHasSource(shorter, w);
    }
    PendingGrows(shorter, log, w, if w in before then Some(before[w]) else None, Replay(log).value.pending[w]);
  }

  /** What returns took effect once, between its call and its return, with the answer it returns. */
  lemma ReturnsTookEffect<T>(log: seq<Event<T>>, i: nat)
    requires Replay(log).Some? && i < |log| && log[i].Returned?
    ensures exists k: nat, j: nat, op :: AnsweredAt(log[..i], log[i].who, op, log[i].answer, k, j)
  {
    hide Served, AnsweredAt;
    var w := log[i].who;
    PrefixReplays(log, i);
    PrefixReplays(log, i + 1);
    assert log[..i + 1][..i] == log[..i];
    assert Advance(Replay(log[..i]).value, log[i]).Some?;
    PendingHasSource(log[..i], w);
    hide Replay;
    var p := Replay(log[..i]).value.pending[w];
    assert p.Answered? && p.answer == log[i].answer;
    var k: nat, j: nat :| AnsweredAt(log[..i], w, p.op, p.answer, k, j);
  }

  // ---- The operations cut at every shared access ----

  // Where a thread is; each name but the first is what it does next.
  datatype Phase<T> =
    | Outside
    | Locks(op: Op<T>)
    | Looks(op: Op<T>)              // holds the mutex; pushes, reads the size or tests for emptiness
    | CopiesFront                   // pop_front found the deque not empty
    | DropsFront(copy: T)
    | Unlocks(answer: Answer<T>)
    | Returns(answer: Answer<T>)

  // The deque, the mutex owner, every thread that ever called, the history so far, and whether the front of an empty
  // deque was ever asked for, which C++ leaves undefined.
  datatype State<T> = State(
    q: seq<T>, owner: Option<Thread>, threads: map<Thread, Phase<T>>, log: seq<Event<T>>, broken: bool)

  datatype Action<T> = Call(who: Thread, op: Op<T>) | Step(who: Thread)

  function PhaseOf<T>(s: State<T>, w: Thread): Phase<T> {
    if w in s.threads then s.threads[w] else Outside
  }

  predicate Enabled<T>(s: State<T>, a: Action<T>) {
    match a
    case Call(w, _) => PhaseOf(s, w).Outside?
    case Step(w) => !PhaseOf(s, w).Outside? && (PhaseOf(s, w).Locks? ==> s.owner.None?)
  }

  /** Thread w moves on, adding events to the history. */
  function To<T>(s: State<T>, w: Thread, p: Phase<T>, events: seq<Event<T>>): State<T> {
    s.(threads := s.threads[w := p], log := s.log + events)
  }

  function LookStep<T>(s: State<T>, w: Thread, op: Op<T>): State<T> {
    match op
    case PushBack(x) => To(s, w, Unlocks(Done), [TookEffect(w, op, Done)]).(q := s.q + [x])
    case PopFront =>
      if |s.q| == 0 then To(s, w, Unlocks(Thrown), [TookEffect(w, op, Thrown)]) else To(s, w, CopiesFront, [])
    case Empty => To(s, w, Unlocks(IsEmpty(|s.q| == 0)), [TookEffect(w, op, IsEmpty(|s.q| == 0))])
    case Size => To(s, w, Unlocks(Count(|s.q|)), [TookEffect(w, op, Count(|s.q|))])
  }

  function FrontStep<T>(s: State<T>, w: Thread): State<T> {
    if |s.q| == 0 then s.(broken := true)
    else
      match PhaseOf(s, w)
      case DropsFront(x) => To(s, w, Unlocks(Front(x)), [TookEffect(w, PopFront, Front(x))]).(q := s.q[1..])
      case _ => To(s, w, DropsFront(s.q[0]), [])
  }

  function Apply<T>(s: State<T>, a: Action<T>): State<T>
    requires Enabled(s, a)
  {
    match a
    case Call(w, op) => To(s, w, Locks(op), [Called(w, op)])
    case Step(w) =>
      match PhaseOf(s, w)
      case Locks(op) => To(s, w, Looks(op), []).(owner := Some(w))
      case Looks(op) => LookStep(s, w, op)
      case CopiesFront | DropsFront(_) => FrontStep(s, w)
      case Unlocks(ans) => To(s, w, Returns(ans), []).(owner := None)
      case Returns(ans) => To(s, w, Outside, [Returned(w, ans)])
  }

  predicate Runs<T>(s: State<T>, actions: seq<Action<T>>)
    decreases |actions|
  {
    actions == [] || (Enabled(s, actions[0]) && Runs(Apply(s, actions[0]), actions[1..]))
  }

  function Final<T>(s: State<T>, actions: seq<Action<T>>): State<T>
    requires Runs(s, actions)
    decreases |actions|
  {
    if actions == [] then s else Final(Apply(s, actions[0]), actions[1..])
  }

  function Initial<T>(): State<T> {
    State([], None, map[], [], false)
  }

  predicate Critical<T>(p: Phase<T>) {
    p.Looks? || p.CopiesFront? || p.DropsFront? || p.Unlocks?
  }

  /** Only the owner of the mutex is between locking and unlocking, and what its pop_front found is still there. */
  ghost predicate LockInv<T>(s: State<T>) {
    && (forall w: Thread :: Critical(PhaseOf(s, w)) <==> s.owner == Some(w))
    && (s.owner.Some? ==>
          match PhaseOf(s, s.owner.value)
          case CopiesFront => s.q != []
          case DropsFront(x) => s.q != [] && s.q[0] == x
          case _ => true)
  }

  /** The thread is where the atomic queue says its call is. */
  ghost predicate Agrees<T>(p: Phase<T>, w: Thread, pending: map<Thread, Pending<T>>) {
    match p
    case Outside => w !in pending
    case Locks(op) => w in pending && pending[w] == Asked(op)
    case Looks(op) => w in pending && pending[w] == Asked(op)
    case CopiesFront | DropsFront(_) => w in pending && pending[w] == Asked(PopFront)
    case Unlocks(ans) => w in pending && pending[w].Answered? && pending[w].answer == ans
    case Returns(ans) => w in pending && pending[w].Answered? && pending[w].answer == ans
  }

  /** The history so far is one of the atomic queue, which is now in the corresponding state. */
  ghost predicate Refines<T>(s: State<T>) {
    && Replay(s.log).Some?
    && Replay(s.log).value.q == s.q
    && forall w: Thread :: Agrees(PhaseOf(s, w), w, Replay(s.log).value.pending)
  }

  ghost predicate Inv<T>(s: State<T>) {
    LockInv(s) && Refines(s) && !s.broken
  }

  lemma StepKeepsLock<T>(s: State<T>, a: Action<T>)
    requires LockInv(s) && !s.broken && Enabled(s, a)
    ensures LockInv(Apply(s, a)) && !Apply(s, a).broken
  {
    var t := Apply(s, a);
    assert forall w: Thread :: w != a.who ==> PhaseOf(t, w) == PhaseOf(s, w);
  }

  lemma ReplayAppend<T>(log: seq<Event<T>>, e: Event<T>)
    requires Replay(log).Some?
    ensures Replay(log + [e]) == Advance(Replay(log).value, e)
  {
    assert (log + [e])[..|log|] == log;
  }

  lemma AdvanceFrame<T>(a: Atomic<T>, e: Event<T>, w: Thread, p: Phase<T>)
    requires Advance(a, e).Some? && w != e.who && Agrees(p, w, a.pending)
    ensures Agrees(p, w, Advance(a, e).value.pending)
  {
    hide Served;
  }

  /** The thread that steps: its event, if any, is one the atomic queue can have, and leads to the same deque. */
  lemma StepIsAnEvent<T>(s: State<T>, a: Action<T>)
    requires Inv(s) && Enabled(s, a)
    ensures var t, before := Apply(s, a), Replay(s.log).value;
            if t.log == s.log then t.q == s.q && Agrees(PhaseOf(t, a.who), a.who, before.pending)
            else
              && |t.log| == |s.log| + 1 && t.log[..|s.log|] == s.log && t.log[|s.log|].who == a.who
              && var after := Advance(before, t.log[|s.log|]);
                 after.Some? && after.value.q == t.q && Agrees(PhaseOf(t, a.who), a.who, after.value.pending)
  {
    hide Replay;
    assert Agrees(PhaseOf(s, a.who), a.who, Replay(s.log).value.pending);
    assert s.log + [] == s.log;
    assert Critical(PhaseOf(s, a.who)) <==> s.owner == Some(a.who);
  }

  lemma OthersStay<T>(s: State<T>, a: Action<T>)
    requires Enabled(s, a)
    ensures forall w: Thread | w != a.who :: PhaseOf(Apply(s, a), w) == PhaseOf(s, w)
  {
  }

  lemma StepKeepsRefinement<T>(s: State<T>, a: Action<T>)
    requires Inv(s) && Enabled(s, a)
    ensures Refines(Apply(s, a))
  {
    var t := Apply(s, a);
    OthersStay(s, a);
    StepIsAnEvent(s, a);
    hide Replay, Apply, Advance, Agrees, LockInv, PhaseOf, Enabled;
    if t.log != s.log {
      var e := t.log[|s.log|];
      ReplayAppend(s.log, e);
      assert t.log == s.log + [e];
      forall w: Thread | w != a.who
        ensures Agrees(PhaseOf(t, w), w, Advance(Replay(s.log).value, e).value.pending)
      {
        AdvanceFrame(Replay(s.log).value, e, w, PhaseOf(s, w));
      }
    }
  }

  lemma {:induction false} RunKeepsInv<T>(s: State<T>, actions: seq<Action<T>>)
    requires Inv(s) && Runs(s, actions)
    ensures Inv(Final(s, actions))
    decreases |actions|
  {
    if actions != [] {
      StepKeepsLock(s, actions[0]);
      StepKeepsRefinement(s, actions[0]);
      hide Apply, LockInv, Refines, Enabled;
      RunKeepsInv(Apply(s, actions[0]), actions[1..]);
    }
  }

  /** Over every interleaving of any number of threads, the history of the queue with its lock steps is one of the
      atomic queue, and the deque holds what the atomic queue holds. The front of an empty deque is never asked for.
      */
  lemma RefinesAtomicQueue<T>(actions: seq<Action<T>>)
    requires Runs(Initial(), actions)
    ensures var s := Final(Initial(), actions);
            && Replay(s.log).Some? && Replay(s.log).value.q == s.q && !s.broken
            && forall w: Thread | PhaseOf(s, w).CopiesFront? || PhaseOf(s, w).DropsFront? :: s.q != []
  {
    var s := Initial<T>();
    assert Replay(s.log) == Some(Atomic([], map[]));
    RunKeepsInv(s, actions);
  }

  /** Steps a call has before it. */
  function StepsLeft<T>(p: Phase<T>): nat {
    match p
    case Outside => 0
    case Returns(_) => 1
    case Unlocks(_) => 2
    case DropsFront(_) => 3
    case CopiesFront => 4
    case Looks(_) => 5
    case Locks(_) => 6
  }

  lemma StepGetsNearer<T>(s: State<T>, v: Thread)
    requires LockInv(s) && !s.broken && Enabled(s, Step(v))
    ensures StepsLeft(PhaseOf(Apply(s, Step(v)), v)) < StepsLeft(PhaseOf(s, v)) <= 6
    ensures forall u: Thread | u != v :: PhaseOf(Apply(s, Step(v)), u) == PhaseOf(s, u)
  {
    StepKeepsLock(s, Step(v));
    assert Critical(PhaseOf(s, v)) <==> s.owner == Some(v);
  }

  /** No call can block the others for good: while any is in progress some thread can step, and each step brings the
      call of its thread nearer to its return and leaves the others where they are. */
  lemma NobodyIsStuck<T>(actions: seq<Action<T>>, w: Thread)
    requires Runs(Initial(), actions) && !PhaseOf(Final(Initial(), actions), w).Outside?
    ensures var s := Final(Initial(), actions);
            && (exists v: Thread :: Enabled(s, Step(v)))
            && forall v: Thread | Enabled(s, Step(v)) ::
                 && StepsLeft(PhaseOf(Apply(s, Step(v)), v)) < StepsLeft(PhaseOf(s, v)) <= 6
                 && forall u: Thread | u != v :: PhaseOf(Apply(s, Step(v)), u) == PhaseOf(s, u)
  {
    var s := Final(Initial(), actions);
    assert Replay(Initial<T>().log) == Some(Atomic([], map[]));
    RunKeepsInv(Initial(), actions);
    hide Refines, Runs, Final;
    match s.owner {
      case None => assert Enabled(s, Step(w));
      case Some(h) => assert Critical(PhaseOf(s, h)); assert Enabled(s, Step(h));
    }
    hide LockInv, Apply, StepsLeft;
    forall v: Thread | Enabled(s, Step(v))
      ensures StepsLeft(PhaseOf(Apply(s, Step(v)), v)) < StepsLeft(PhaseOf(s, v)) <= 6
      ensures forall u: Thread | u != v :: PhaseOf(Apply(s, Step(v)), u) == PhaseOf(s, u)
    {
      StepGetsNearer(s, v);
    }
  }
}
