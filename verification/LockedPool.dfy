// The pool of WorkPool over the queues of SafeQueue: every access of a worker or of another thread to a mutex or a
// deque is a step of its own.
module LockedPool {
  import opened JsonModel
  import Q = SafeQueue
  import W = WorkPool

  // Worker w is thread w; the other threads of the program have the numbers from |workers| on.
  datatype State<IN, OUT> = State(input: Q.State<IN>, output: Q.State<OUT>, workers: seq<W.Worker<IN>>)

  datatype Action<IN, OUT> =
    | Work(who: nat) | Stop(who: nat) | OnInput(input: Q.Action<IN>) | OnOutput(output: Q.Action<OUT>)

  function Initial<IN, OUT>(n: nat): State<IN, OUT> {
    State(Q.Initial(), Q.Initial(), W.Crew(n))
  }

  /** What thread w does next in a call of op. */
  function Next<T>(q: Q.State<T>, w: nat, op: Q.Op<T>): Q.Action<T> {
    if Q.PhaseOf(q, w).Outside? then Q.Call(w, op) else Q.Step(w)
  }

  function InputOp<IN>(place: W.Place<IN>): Q.Op<IN> {
    if place.Takes? then Q.PopFront else Q.Empty
  }

  /** Taking from the input queue and adding to the output queue are private to the pool. */
  predicate Enabled<IN, OUT>(f: IN -> OUT, s: State<IN, OUT>, a: Action<IN, OUT>) {
    match a
    case Work(w) =>
      && w < |s.workers|
      && (match s.workers[w].place
          case ChecksStop => true
          case ChecksEmpty | Takes => Q.Enabled(s.input, Next(s.input, w, InputOp(s.workers[w].place)))
          case Writes(x) => Q.Enabled(s.output, Next(s.output, w, Q.PushBack(f(x))))
          case Ended | Threw => false)
    case Stop(w) => w < |s.workers|
    case OnInput(b) => |s.workers| <= b.who && Q.Enabled(s.input, b) && (b.Call? ==> !b.op.PopFront?)
    case OnOutput(b) => |s.workers| <= b.who && Q.Enabled(s.output, b) && (b.Call? ==> !b.op.PushBack?)
  }

  /** Where a worker that uses the input queue goes with the answer. */
  function AfterInput<IN>(place: W.Place<IN>, answer: Q.Answer<IN>): W.Place<IN> {
    match answer
    case IsEmpty(empty) => if empty then W.ChecksStop else W.Takes
    case Front(x) => W.Writes(x)
    case Thrown => W.Threw
    case _ => place
  }

  function WorkStep<IN, OUT>(f: IN -> OUT, s: State<IN, OUT>, w: nat): State<IN, OUT>
    requires Enabled(f, s, Work(w))
  {
    var worker := s.workers[w];
    match worker.place
    case ChecksStop =>
      s.(workers := s.workers[w := worker.(place := if worker.stop then W.Ended else W.ChecksEmpty)])
    case Writes(x) =>
      var place := if Q.PhaseOf(s.output, w).Returns? then W.ChecksEmpty else worker.place;
      s.(output := Q.Apply(s.output, Next(s.output, w, Q.PushBack(f(x)))),
         workers := s.workers[w := worker.(place := place)])
    case ChecksEmpty | Takes =>
      var place := if Q.PhaseOf(s.input, w).Returns? then AfterInput(worker.place, Q.PhaseOf(s.input, w).answer)
                   else worker.place;
      s.(input := Q.Apply(s.input, Next(s.input, w, InputOp(worker.place))),
         workers := s.workers[w := worker.(place := place)])
  }

  function Apply<IN, OUT>(f: IN -> OUT, s: State<IN, OUT>, a: Action<IN, OUT>): State<IN, OUT>
    requires Enabled(f, s, a)
  {
    match a
    case Work(w) => WorkStep(f, s, w)
    case Stop(w) => s.(workers := s.workers[w := s.workers[w].(stop := true)])
    case OnInput(b) => s.(input := Q.Apply(s.input, b))
    case OnOutput(b) => s.(output := Q.Apply(s.output, b))
  }

  predicate Runs<IN, OUT>(f: IN -> OUT, s: State<IN, OUT>, actions: seq<Action<IN, OUT>>)
    decreases |actions|
  {
    actions == [] || (Enabled(f, s, actions[0]) && Runs(f, Apply(f, s, actions[0]), actions[1..]))
  }

  function Final<IN, OUT>(f: IN -> OUT, s: State<IN, OUT>, actions: seq<Action<IN, OUT>>): State<IN, OUT>
    requires Runs(f, s, actions)
    decreases |actions|
  {
    if actions == [] then s else Final(f, Apply(f, s, actions[0]), actions[1..])
  }

  // ---- One step of a queue ----

  /** The answer of a call that has taken effect and not returned. */
  function Got<T>(p: Q.Phase<T>): Option<Q.Answer<T>> {
    match p
    case Unlocks(ans) => Some(ans)
    case Returns(ans) => Some(ans)
    case _ => None
  }

  /** A thread in this phase is in no call, or in one of op. */
  predicate InCallOf<T(==)>(p: Q.Phase<T>, op: Q.Op<T>) {
    match p
    case Outside => true
    case Locks(o) => o == op
    case Looks(o) => o == op
    case CopiesFront => op.PopFront?
    case DropsFront(_) => op.PopFront?
    case Unlocks(ans) => Suits(ans, op)
    case Returns(ans) => Suits(ans, op)
  }

  predicate Suits<T>(ans: Q.Answer<T>, op: Q.Op<T>) {
    match op
    case PushBack(_) => ans.Done?
    case PopFront => ans.Front? || ans.Thrown?
    case Empty => ans.IsEmpty?
    case Size => ans.Count?
  }

  /** The step is one of a call of op, or of a call that has taken effect. */
  predicate MakesCall<T(==)>(p: Q.Phase<T>, a: Q.Action<T>, op: Q.Op<T>) {
    (InCallOf(p, op) || Got(p).Some?) && (a.Call? ==> a.op == op)
  }

  /** The step is the one with which the call takes effect. */
  predicate TakesEffect<T>(s: Q.State<T>, t: Q.State<T>, w: nat) {
    Got(Q.PhaseOf(s, w)).None? && Got(Q.PhaseOf(t, w)).Some?
  }

  lemma LogAppend<T>(log: seq<Q.Event<T>>, e: Q.Event<T>)
    ensures Q.Pushes(log + [e]) == Q.Pushes(log) + if e.TookEffect? && e.op.PushBack? then [e.op.item] else []
    ensures Q.Pops(log + [e]) == Q.Pops(log) + if e.TookEffect? && e.answer.Front? then [e.answer.value] else []
  {
    assert (log + [e])[..|log|] == log;
  }

  /** How a step of a call of op moves the phase of its thread. */
  predicate Moves<T(==)>(before: Q.Phase<T>, after: Q.Phase<T>, op: Q.Op<T>) {
    && (InCallOf(before, op) ==> InCallOf(after, op))
    && (after.Outside? <==> before.Returns?)
    && (Got(before).Some? ==> Got(after) == Got(before) || before.Returns?)
  }

  lemma QueuePhases<T>(s: Q.State<T>, a: Q.Action<T>, op: Q.Op<T>)
    requires Q.Inv(s) && Q.Enabled(s, a) && MakesCall(Q.PhaseOf(s, a.who), a, op)
    ensures var t := Q.Apply(s, a);
            && Moves(Q.PhaseOf(s, a.who), Q.PhaseOf(t, a.who), op)
            && forall v: nat | v != a.who :: Q.PhaseOf(t, v) == Q.PhaseOf(s, v)
  {
    Q.StepKeepsLock(s, a);
    assert Q.Critical(Q.PhaseOf(s, a.who)) <==> s.owner == Some(a.who);
    hide Q.LockInv, Q.Refines;
  }

  lemma QueueEffect<T>(s: Q.State<T>, a: Q.Action<T>, op: Q.Op<T>)
    requires Q.LockInv(s) && !s.broken && Q.Enabled(s, a)
    requires MakesCall(Q.PhaseOf(s, a.who), a, op)
    ensures var t := Q.Apply(s, a);
            if TakesEffect(s, t, a.who) then
              && t.q == Q.Served(op, s.q).0 && Got(Q.PhaseOf(t, a.who)) == Some(Q.Served(op, s.q).1)
              && t.log == s.log + [Q.TookEffect(a.who, op, Q.Served(op, s.q).1)]
            else
              t.q == s.q && (t.log == s.log || exists e: Q.Event<T> :: t.log == s.log + [e] && !e.TookEffect?)
  {
    assert Q.Critical(Q.PhaseOf(s, a.who)) <==> s.owner == Some(a.who);
    hide Q.Critical;
    assert s.log + [] == s.log;
    match Q.PhaseOf(s, a.who) {
      case Outside => assert Q.Apply(s, a).log == s.log + [Q.Called(a.who, op)];
      case Returns(ans) => assert Q.Apply(s, a).log == s.log + [Q.Returned(a.who, ans)];
      case _ =>
    }
  }

  /** A step of a call of op: either the call takes effect, as if it were made at once, or nothing can be seen of it. */
  lemma QueueStep<T>(s: Q.State<T>, a: Q.Action<T>, op: Q.Op<T>)
    requires Q.Inv(s) && Q.Enabled(s, a) && MakesCall(Q.PhaseOf(s, a.who), a, op)
    ensures var t := Q.Apply(s, a);
            && Q.Inv(t)
            && if TakesEffect(s, t, a.who) then
                 var ans := Q.Served(op, s.q).1;
                 && t.q == Q.Served(op, s.q).0 && Got(Q.PhaseOf(t, a.who)) == Some(ans)
                 && Q.Pushes(t.log) == Q.Pushes(s.log) + (if op.PushBack? then [op.item] else [])
                 && Q.Pops(t.log) == Q.Pops(s.log) + if ans.Front? then [ans.value] else []
               else
                 t.q == s.q && Q.Pushes(t.log) == Q.Pushes(s.log) && Q.Pops(t.log) == Q.Pops(s.log)
  {
    var t := Q.Apply(s, a);
    Q.StepKeepsLock(s, a);
    Q.StepKeepsRefinement(s, a);
    QueueEffect(s, a, op);
    hide Q.Apply, Q.Enabled, Q.LockInv, Q.Refines, Q.Pushes, Q.Pops, Q.Served, Q.PhaseOf, InCallOf, TakesEffect, Got;
    if t.log != s.log {
      assert t.log == s.log + [t.log[|s.log|]];
      LogAppend(s.log, t.log[|s.log|]);
    }
  }

  // ---- What WorkPool's pool would be ----

  /** A call that has taken effect has moved its worker on. */
  function Seen<IN, OUT>(worker: W.Worker<IN>, input: Q.Phase<IN>, output: Q.Phase<OUT>): W.Worker<IN> {
    match worker.place
    case ChecksEmpty | Takes =>
      (match Got(input)
       case None => worker
       case Some(ans) => worker.(place := AfterInput(worker.place, ans)))
    case Writes(_) => if Got(output).Some? then worker.(place := W.ChecksEmpty) else worker
    case _ => worker
  }

  function SeenAt<IN, OUT>(s: State<IN, OUT>, w: nat): W.Worker<IN>
    requires w < |s.workers|
  {
    Seen(s.workers[w], Q.PhaseOf(s.input, w), Q.PhaseOf(s.output, w))
  }

  function Workers<IN, OUT>(s: State<IN, OUT>): seq<W.Worker<IN>> {
    seq(|s.workers|, w requires 0 <= w < |s.workers| => SeenAt(s, w))
  }

  /** The same queues and workers, and the same items written by the callers and read by them. */
  ghost predicate Matches<IN, OUT>(s: State<IN, OUT>, p: W.Pool<IN, OUT>) {
    && p.input == s.input.q && p.output == s.output.q && p.workers == Workers(s)
    && p.h.written == Q.Pushes(s.input.log) && p.h.read == Q.Pops(s.output.log)
  }

  ghost predicate WorkerInv<IN, OUT>(f: IN -> OUT, place: W.Place<IN>, input: Q.Phase<IN>, output: Q.Phase<OUT>) {
    match place
    case ChecksEmpty => InCallOf(input, Q.Empty) && output.Outside?
    case Takes => InCallOf(input, Q.PopFront) && output.Outside?
    case Writes(x) => input.Outside? && InCallOf(output, Q.PushBack(f(x)))
    case _ => input.Outside? && output.Outside?
  }

  /** A thread other than the workers does not take from the input queue and does not add to the output queue. */
  predicate Writer<IN>(p: Q.Phase<IN>) {
    match p
    case Locks(op) => !op.PopFront?
    case Looks(op) => !op.PopFront?
    case CopiesFront | DropsFront(_) => false
    case _ => true
  }

  predicate Reader<OUT>(p: Q.Phase<OUT>) {
    match p
    case Locks(op) => !op.PushBack?
    case Looks(op) => !op.PushBack?
    case _ => true
  }

  ghost predicate CallInv<IN, OUT>(f: IN -> OUT, s: State<IN, OUT>, v: nat) {
    var input, output := Q.PhaseOf(s.input, v), Q.PhaseOf(s.output, v);
    if v < |s.workers| then WorkerInv(f, s.workers[v].place, input, output) else Writer(input) && Reader(output)
  }

  /** Every thread is in a call it can be in. */
  ghost predicate Inv<IN, OUT>(f: IN -> OUT, s: State<IN, OUT>) {
    Q.Inv(s.input) && Q.Inv(s.output) && forall v: nat :: CallInv(f, s, v)
  }

  /** The threads other than v are where they were. */
  ghost predicate OthersStay<IN, OUT>(s: State<IN, OUT>, t: State<IN, OUT>, v: nat) {
    && |s.workers| == |t.workers|
    && forall u: nat | u != v ::
         && Q.PhaseOf(t.input, u) == Q.PhaseOf(s.input, u) && Q.PhaseOf(t.output, u) == Q.PhaseOf(s.output, u)
         && (u < |s.workers| ==> t.workers[u] == s.workers[u])
  }

  lemma InvStep<IN, OUT>(f: IN -> OUT, s: State<IN, OUT>, t: State<IN, OUT>, v: nat)
    requires Inv(f, s) && OthersStay(s, t, v) && Q.Inv(t.input) && Q.Inv(t.output) && CallInv(f, t, v)
    ensures Inv(f, t)
  {
    hide Q.Inv, Q.PhaseOf, WorkerInv, Writer, Reader;
    forall u: nat ensures CallInv(f, t, u) {
      if u != v {
        assert CallInv(f, s, u);
      }
    }
  }

  lemma WorkersStep<IN, OUT>(s: State<IN, OUT>, t: State<IN, OUT>, v: nat)
    requires OthersStay(s, t, v)
    ensures |Workers(t)| == |Workers(s)| == |s.workers|
    ensures v < |s.workers| ==> Workers(t) == Workers(s)[v := SeenAt(t, v)]
    ensures v < |s.workers| ==> Workers(s)[v] == SeenAt(s, v)
    ensures v >= |s.workers| ==> Workers(t) == Workers(s)
  {
    hide Seen, Q.PhaseOf;
    forall u: nat | u < |s.workers| && u != v ensures SeenAt(t, u) == SeenAt(s, u) {
    }
  }

  // Steps of a worker that uses the input queue.

  lemma InputMove<IN, OUT>(f: IN -> OUT, worker: W.Worker<IN>, before: Q.Phase<IN>, after: Q.Phase<IN>,
                           output: Q.Phase<OUT>)
    requires (worker.place.ChecksEmpty? || worker.place.Takes?) && WorkerInv(f, worker.place, before, output)
    requires Moves(before, after, InputOp(worker.place))
    ensures var place := if before.Returns? then AfterInput(worker.place, before.answer) else worker.place;
            && WorkerInv(f, place, after, output)
            && Seen(worker.(place := place), after, output) ==
               if Got(before).None? && Got(after).Some?
               then worker.(place := AfterInput(worker.place, Got(after).value))
               else Seen(worker, before, output)
    ensures Got(before).None? ==> Seen(worker, before, output) == worker
  {
  }

  lemma InputStepIs<IN, OUT>(f: IN -> OUT, s: State<IN, OUT>, w: nat)
    requires Inv(f, s) && Enabled(f, s, Work(w)) && (s.workers[w].place.ChecksEmpty? || s.workers[w].place.Takes?)
    ensures var t, worker, before := WorkStep(f, s, w), s.workers[w], Q.PhaseOf(s.input, w);
            var op := InputOp(worker.place);
            var b := Next(s.input, w, op);
            && b.who == w && Q.Enabled(s.input, b) && MakesCall(before, b, op) && Q.Inv(s.input) && Q.Inv(s.output)
            && t.input == Q.Apply(s.input, b) && t.output == s.output
            && WorkerInv(f, worker.place, before, Q.PhaseOf(s.output, w))
            && t.workers ==
               s.workers[w := worker.(place := if before.Returns? then AfterInput(worker.place, before.answer)
                                               else worker.place)]
  {
    assert CallInv(f, s, w);
    hide Q.Inv, Q.Apply, Q.PhaseOf, Writer, Reader, AfterInput;
  }

  lemma InputFrame<IN, OUT>(f: IN -> OUT, s: State<IN, OUT>, w: nat)
    requires Inv(f, s) && Enabled(f, s, Work(w)) && (s.workers[w].place.ChecksEmpty? || s.workers[w].place.Takes?)
    ensures OthersStay(s, WorkStep(f, s, w), w)
    ensures Moves(Q.PhaseOf(s.input, w), Q.PhaseOf(WorkStep(f, s, w).input, w), InputOp(s.workers[w].place))
  {
    InputStepIs(f, s, w);
    hide WorkStep, Enabled, Inv, Q.Inv, Q.Apply, Q.Enabled, Q.PhaseOf, WorkerInv, AfterInput, MakesCall, Moves, Next;
    QueuePhases(s.input, Next(s.input, w, InputOp(s.workers[w].place)), InputOp(s.workers[w].place));
  }

  lemma InputStep<IN, OUT>(f: IN -> OUT, s: State<IN, OUT>, w: nat)
    requires Inv(f, s) && Enabled(f, s, Work(w)) && (s.workers[w].place.ChecksEmpty? || s.workers[w].place.Takes?)
    ensures var t, op := WorkStep(f, s, w), InputOp(s.workers[w].place);
            && Inv(f, t) && OthersStay(s, t, w)
            && t.output == s.output && Q.Pushes(t.input.log) == Q.Pushes(s.input.log)
            && if TakesEffect(s.input, t.input, w) then
                 && t.input.q == Q.Served(op, s.input.q).0 && SeenAt(s, w) == s.workers[w]
                 && SeenAt(t, w) == s.workers[w].(place := AfterInput(s.workers[w].place, Q.Served(op, s.input.q).1))
               else
                 t.input.q == s.input.q && SeenAt(t, w) == SeenAt(s, w)
  {
    var t, worker := WorkStep(f, s, w), s.workers[w];
    var op := InputOp(worker.place);
    var b := Next(s.input, w, op);
    InputStepIs(f, s, w);
    InputFrame(f, s, w);
    hide WorkStep, Enabled, Inv, Q.Inv, Q.Apply, Q.Enabled, Q.Pushes, Q.Pops, Q.PhaseOf, Q.Served, Seen, WorkerInv,
      AfterInput, MakesCall, Moves, InCallOf, Next, Got, Writer, Reader, OthersStay, InputOp;
    QueueStep(s.input, b, op);
    InputMove(f, worker, Q.PhaseOf(s.input, w), Q.PhaseOf(t.input, w), Q.PhaseOf(s.output, w));
    InvStep(f, s, t, w);
  }

  // Steps of a worker that writes its answer.

  lemma OutputMove<IN, OUT>(f: IN -> OUT, worker: W.Worker<IN>, input: Q.Phase<IN>, before: Q.Phase<OUT>,
                            after: Q.Phase<OUT>)
    requires worker.place.Writes? && WorkerInv(f, worker.place, input, before)
    requires Moves(before, after, Q.PushBack(f(worker.place.item)))
    ensures var place := if before.Returns? then W.ChecksEmpty else worker.place;
            && WorkerInv(f, place, input, after)
            && Seen(worker.(place := place), input, after) ==
               if Got(before).None? && Got(after).Some? then worker.(place := W.ChecksEmpty)
               else Seen(worker, input, before)
    ensures Got(before).None? ==> Seen(worker, input, before) == worker
  {
  }

  lemma OutputStepIs<IN, OUT>(f: IN -> OUT, s: State<IN, OUT>, w: nat)
    requires Inv(f, s) && Enabled(f, s, Work(w)) && s.workers[w].place.Writes?
    ensures var t, worker, before := WorkStep(f, s, w), s.workers[w], Q.PhaseOf(s.output, w);
            var op := Q.PushBack(f(worker.place.item));
            var b := Next(s.output, w, op);
            && b.who == w && Q.Enabled(s.output, b) && MakesCall(before, b, op) && Q.Inv(s.input) && Q.Inv(s.output)
            && t.output == Q.Apply(s.output, b) && t.input == s.input
            && WorkerInv(f, worker.place, Q.PhaseOf(s.input, w), before)
            && t.workers ==
               s.workers[w := worker.(place := if before.Returns? then W.ChecksEmpty else worker.place)]
  {
    assert CallInv(f, s, w);
    hide Q.Inv, Q.Apply, Q.PhaseOf, Writer, Reader;
  }

  lemma OutputFrame<IN, OUT>(f: IN -> OUT, s: State<IN, OUT>, w: nat)
    requires Inv(f, s) && Enabled(f, s, Work(w)) && s.workers[w].place.Writes?
    ensures OthersStay(s, WorkStep(f, s, w), w)
    ensures Moves(Q.PhaseOf(s.output, w), Q.PhaseOf(WorkStep(f, s, w).output, w),
                  Q.PushBack(f(s.workers[w].place.item)))
  {
    var op := Q.PushBack(f(s.workers[w].place.item));
    OutputStepIs(f, s, w);
    hide WorkStep, Enabled, Inv, Q.Inv, Q.Apply, Q.Enabled, Q.PhaseOf, WorkerInv, MakesCall, Moves, Next;
    QueuePhases(s.output, Next(s.output, w, op), op);
  }

  lemma OutputStep<IN, OUT>(f: IN -> OUT, s: State<IN, OUT>, w: nat)
    requires Inv(f, s) && Enabled(f, s, Work(w)) && s.workers[w].place.Writes?
    ensures var t, worker := WorkStep(f, s, w), s.workers[w];
            && Inv(f, t) && OthersStay(s, t, w)
            && t.input == s.input && Q.Pops(t.output.log) == Q.Pops(s.output.log)
            && if TakesEffect(s.output, t.output, w) then
                 && t.output.q == s.output.q + [f(worker.place.item)] && SeenAt(s, w) == worker
                 && SeenAt(t, w) == worker.(place := W.ChecksEmpty)
               else
                 t.output.q == s.output.q && SeenAt(t, w) == SeenAt(s, w)
  {
    var t, worker := WorkStep(f, s, w), s.workers[w];
    var op := Q.PushBack(f(worker.place.item));
    OutputStepIs(f, s, w);
    OutputFrame(f, s, w);
    hide WorkStep, Enabled, Inv, Q.Inv, Q.Apply, Q.Enabled, Q.Pushes, Q.Pops, Q.PhaseOf, Seen, WorkerInv, MakesCall,
      Moves, InCallOf, Next, Got, Writer, Reader, OthersStay;
    QueueStep(s.output, Next(s.output, w, op), op);
    OutputMove(f, worker, Q.PhaseOf(s.input, w), Q.PhaseOf(s.output, w), Q.PhaseOf(t.output, w));
    InvStep(f, s, t, w);
  }

  // Steps of the other threads.

  function OpOf<T>(p: Q.Phase<T>, a: Q.Action<T>): Q.Op<T> {
    if a.Call? then a.op
    else
      match p
      case Locks(op) => op
      case Looks(op) => op
      case CopiesFront | DropsFront(_) => Q.PopFront
      case _ => Q.Size
  }

  lemma OtherMove<T>(before: Q.Phase<T>, after: Q.Phase<T>, a: Q.Action<T>)
    requires a.Call? ==> before.Outside?
    ensures MakesCall(before, a, OpOf(before, a))
    ensures Moves(before, after, OpOf(before, a)) && Writer(before) && (a.Call? ==> !a.op.PopFront?) ==>
              !OpOf(before, a).PopFront? && Writer(after)
    ensures Moves(before, after, OpOf(before, a)) && Reader(before) && (a.Call? ==> !a.op.PushBack?) ==>
              !OpOf(before, a).PushBack? && Reader(after)
  {
  }

  lemma WriterStep<IN, OUT>(f: IN -> OUT, s: State<IN, OUT>, b: Q.Action<IN>)
    requires Inv(f, s) && Enabled(f, s, OnInput(b))
    ensures var t, op := Apply(f, s, OnInput(b)), OpOf(Q.PhaseOf(s.input, b.who), b);
            && Inv(f, t) && OthersStay(s, t, b.who)
            && var added := if TakesEffect(s.input, t.input, b.who) && op.PushBack? then [op.item] else [];
               t.input.q == s.input.q + added && Q.Pushes(t.input.log) == Q.Pushes(s.input.log) + added
  {
    var t, op := Apply(f, s, OnInput(b)), OpOf(Q.PhaseOf(s.input, b.who), b);
    assert CallInv(f, s, b.who);
    OtherMove(Q.PhaseOf(s.input, b.who), Q.PhaseOf(t.input, b.who), b);
    QueuePhases(s.input, b, op);
    QueueStep(s.input, b, op);
    hide Q.Inv, Q.Apply, Q.Enabled, Q.Pushes, Q.Pops, Q.PhaseOf, Writer, Reader, MakesCall, Moves, InCallOf, Got, OpOf;
    InvStep(f, s, t, b.who);
  }

  lemma ReaderStep<IN, OUT>(f: IN -> OUT, s: State<IN, OUT>, b: Q.Action<OUT>)
    requires Inv(f, s) && Enabled(f, s, OnOutput(b))
    ensures var t, op := Apply(f, s, OnOutput(b)), OpOf(Q.PhaseOf(s.output, b.who), b);
            && Inv(f, t) && OthersStay(s, t, b.who)
            && if TakesEffect(s.output, t.output, b.who) && op.PopFront? && s.output.q != [] then
                 && t.output.q == s.output.q[1..]
                 && Q.Pops(t.output.log) == Q.Pops(s.output.log) + [s.output.q[0]]
               else
                 t.output.q == s.output.q && Q.Pops(t.output.log) == Q.Pops(s.output.log)
  {
    var t, op := Apply(f, s, OnOutput(b)), OpOf(Q.PhaseOf(s.output, b.who), b);
    assert CallInv(f, s, b.who);
    OtherMove(Q.PhaseOf(s.output, b.who), Q.PhaseOf(t.output, b.who), b);
    QueuePhases(s.output, b, op);
    QueueStep(s.output, b, op);
    hide Q.Inv, Q.Apply, Q.Enabled, Q.Pushes, Q.Pops, Q.PhaseOf, Writer, Reader, MakesCall, Moves, InCallOf, Got, OpOf;
    InvStep(f, s, t, b.who);
  }

  /** Looking at the flag, and setting it. */
  lemma FlagStep<IN, OUT>(f: IN -> OUT, s: State<IN, OUT>, a: Action<IN, OUT>)
    requires Inv(f, s) && Enabled(f, s, a) && (a.Stop? || (a.Work? && s.workers[a.who].place.ChecksStop?))
    ensures var t, w := Apply(f, s, a), a.who;
            && Inv(f, t) && OthersStay(s, t, w) && t.input == s.input && t.output == s.output
            && (a.Stop? ==> SeenAt(t, w) == SeenAt(s, w).(stop := true))
            && (a.Work? ==>
                  && SeenAt(s, w) == s.workers[w]
                  && SeenAt(t, w) == s.workers[w].(place := if s.workers[w].stop then W.Ended else W.ChecksEmpty))
  {
    assert CallInv(f, s, a.who);
    hide Q.Inv, Q.Enabled, Q.PhaseOf, Writer, Reader, AfterInput;
    InvStep(f, s, Apply(f, s, a), a.who);
  }

  // ---- Every step is a step of the pool, or none ----

  /** The step of WorkPool's pool that is made when this one is. */
  function Effect<IN, OUT>(f: IN -> OUT, s: State<IN, OUT>, a: Action<IN, OUT>): Option<W.Action<IN>>
    requires Enabled(f, s, a)
  {
    var t := Apply(f, s, a);
    match a
    case Stop(w) => Some(W.Stop(w))
    case Work(w) =>
      if s.workers[w].place.ChecksStop? || TakesEffect(s.input, t.input, w) || TakesEffect(s.output, t.output, w)
      then Some(W.Work(w))
      else None
    case OnInput(b) =>
      var op := OpOf(Q.PhaseOf(s.input, b.who), b);
      if TakesEffect(s.input, t.input, b.who) && op.PushBack? then Some(W.WriteInput(op.item)) else None
    case OnOutput(b) =>
      var op := OpOf(Q.PhaseOf(s.output, b.who), b);
      if TakesEffect(s.output, t.output, b.who) && op.PopFront? && |s.output.q| > 0 then Some(W.ReadOutput) else None
  }

  ghost predicate Shows<IN, OUT>(f: IN -> OUT, t: State<IN, OUT>, p: W.Pool<IN, OUT>, r: Option<W.Action<IN>>) {
    match r
    case None => Matches(t, p)
    case Some(b) => W.Enabled(p, b) && Matches(t, W.Apply(f, p, b))
  }

  lemma PoolInput<IN, OUT>(f: IN -> OUT, p: W.Pool<IN, OUT>, w: nat)
    requires w < |p.workers| && (p.workers[w].place.ChecksEmpty? || p.workers[w].place.Takes?)
    ensures W.Enabled(p, W.Work(w))
    ensures var t, place := W.WorkerStep(f, p, w), p.workers[w].place;
            var served := Q.Served(InputOp(place), p.input);
            && t.input == served.0 && t.output == p.output && t.h.written == p.h.written && t.h.read == p.h.read
            && t.workers == p.workers[w := p.workers[w].(place := AfterInput(place, served.1))]
  {
  }

  lemma InputShows<IN, OUT>(f: IN -> OUT, s: State<IN, OUT>, w: nat, p: W.Pool<IN, OUT>)
    requires Inv(f, s) && Enabled(f, s, Work(w)) && (s.workers[w].place.ChecksEmpty? || s.workers[w].place.Takes?)
    requires Matches(s, p)
    ensures Shows(f, WorkStep(f, s, w), p, Effect(f, s, Work(w)))
  {
    var t := WorkStep(f, s, w);
    InputStep(f, s, w);
    WorkersStep(s, t, w);
    assert !TakesEffect(s.output, t.output, w);
    hide Inv, Enabled, WorkStep, OthersStay, SeenAt, Workers, Q.Pushes, Q.Pops, TakesEffect, Q.Served, InputOp,
      AfterInput, W.Enabled, W.WorkerStep;
    if TakesEffect(s.input, t.input, w) {
      PoolInput(f, p, w);
    }
  }

  lemma OutputShows<IN, OUT>(f: IN -> OUT, s: State<IN, OUT>, w: nat, p: W.Pool<IN, OUT>)
    requires Inv(f, s) && Enabled(f, s, Work(w)) && s.workers[w].place.Writes? && Matches(s, p)
    ensures Shows(f, WorkStep(f, s, w), p, Effect(f, s, Work(w)))
  {
    var t := WorkStep(f, s, w);
    OutputStep(f, s, w);
    WorkersStep(s, t, w);
    assert !TakesEffect(s.input, t.input, w);
    hide Inv, Enabled, WorkStep, OthersStay, SeenAt, Workers, Q.Pushes, Q.Pops, TakesEffect;
  }

  lemma OthersShow<IN, OUT>(f: IN -> OUT, s: State<IN, OUT>, a: Action<IN, OUT>, p: W.Pool<IN, OUT>)
    requires Inv(f, s) && Enabled(f, s, a) && (a.OnInput? || a.OnOutput?) && Matches(s, p)
    ensures Shows(f, Apply(f, s, a), p, Effect(f, s, a))
  {
    var t := Apply(f, s, a);
    hide Inv, OthersStay, SeenAt, Workers, Q.Pushes, Q.Pops, Q.Apply, Q.Enabled, Q.PhaseOf, TakesEffect, OpOf;
    if a.OnInput? {
      WriterStep(f, s, a.input);
      WorkersStep(s, t, a.input.who);
    } else {
      ReaderStep(f, s, a.output);
      WorkersStep(s, t, a.output.who);
    }
  }

  lemma FlagShows<IN, OUT>(f: IN -> OUT, s: State<IN, OUT>, a: Action<IN, OUT>, p: W.Pool<IN, OUT>)
    requires Inv(f, s) && Enabled(f, s, a) && (a.Stop? || (a.Work? && s.workers[a.who].place.ChecksStop?))
    requires Matches(s, p)
    ensures Shows(f, Apply(f, s, a), p, Effect(f, s, a))
  {
    FlagStep(f, s, a);
    WorkersStep(s, Apply(f, s, a), a.who);
    hide Inv, Apply, OthersStay, SeenAt, Workers, Q.Pushes, Q.Pops;
  }

  /** The thread that makes the step. */
  function Who<IN, OUT>(a: Action<IN, OUT>): nat {
    match a
    case Work(w) => w
    case Stop(w) => w
    case OnInput(b) => b.who
    case OnOutput(b) => b.who
  }

  lemma StepShows<IN, OUT>(f: IN -> OUT, s: State<IN, OUT>, a: Action<IN, OUT>, p: W.Pool<IN, OUT>)
    requires Inv(f, s) && Enabled(f, s, a) && Matches(s, p)
    ensures Inv(f, Apply(f, s, a)) && OthersStay(s, Apply(f, s, a), Who(a))
    ensures Shows(f, Apply(f, s, a), p, Effect(f, s, a))
  {
    hide Inv, Shows, Matches, WorkStep, OthersStay, Effect;
    match a {
      case Stop(_) =>
        FlagStep(f, s, a);
        FlagShows(f, s, a, p);
      case OnInput(b) =>
        WriterStep(f, s, b);
        OthersShow(f, s, a, p);
      case OnOutput(b) =>
        ReaderStep(f, s, b);
        OthersShow(f, s, a, p);
      case Work(w) =>
        if s.workers[w].place.ChecksStop? {
          FlagStep(f, s, a);
          FlagShows(f, s, a, p);
        } else if s.workers[w].place.Writes? {
          OutputStep(f, s, w);
          OutputShows(f, s, w, p);
        } else {
          InputStep(f, s, w);
          InputShows(f, s, w, p);
        }
    }
  }

  function Effects<IN, OUT>(f: IN -> OUT, s: State<IN, OUT>, actions: seq<Action<IN, OUT>>): seq<W.Action<IN>>
    requires Runs(f, s, actions)
    decreases |actions|
  {
    if actions == [] then []
    else
      var rest := Effects(f, Apply(f, s, actions[0]), actions[1..]);
      match Effect(f, s, actions[0])
      case None => rest
      case Some(b) => [b] + rest
  }

  lemma {:induction false} RunShows<IN, OUT>(f: IN -> OUT, s: State<IN, OUT>, actions: seq<Action<IN, OUT>>,
                                             p: W.Pool<IN, OUT>)
    requires Inv(f, s) && Runs(f, s, actions) && Matches(s, p)
    ensures W.Runs(f, p, Effects(f, s, actions))
    ensures Matches(Final(f, s, actions), W.Final(f, p, Effects(f, s, actions)))
    decreases |actions|
  {
    hide Inv, Matches, Enabled, Apply, W.Apply, W.Enabled, Effect;
    if actions != [] {
      var t := Apply(f, s, actions[0]);
      StepShows(f, s, actions[0], p);
      match Effect(f, s, actions[0]) {
        case None => RunShows(f, t, actions[1..], p);
        case Some(b) =>
          RunShows(f, t, actions[1..], W.Apply(f, p, b));
          W.RunsJoin(f, p, b, Effects(f, t, actions[1..]));
      }
    }
  }

  lemma InitialMatches<IN, OUT>(f: IN -> OUT, n: nat)
    ensures Inv(f, Initial<IN, OUT>(n)) && Matches<IN, OUT>(Initial(n), W.Initial(n))
  {
    W.CrewIsIdle<IN>(n);
    var s := Initial<IN, OUT>(n);
    assert Q.Replay(s.input.log) == Some(Q.Atomic([], map[]));
    assert Q.Replay(s.output.log) == Some(Q.Atomic([], map[]));
    assert Workers(s) == W.Crew(n);
  }

  /** Every run of the pool with its lock steps, whatever threads use it beside its workers, is a run of the pool whose
      queues are atomic: with the same queues, workers, and items written and read. */
  lemma RefinesPool<IN, OUT>(f: IN -> OUT, n: nat, actions: seq<Action<IN, OUT>>)
    requires Runs(f, Initial(n), actions)
    ensures var shown := Effects(f, Initial(n), actions);
            && W.Runs(f, W.Initial(n), shown)
            && Matches(Final(f, Initial(n), actions), W.Final(f, W.Initial(n), shown))
  {
    InitialMatches<IN, OUT>(f, n);
    RunShows(f, Initial(n), actions, W.Initial(n));
  }

  /** So nothing is lost or duplicated down to the locks: answered are the items whose answers were written. */
  lemma NothingIsLost<IN, OUT>(f: IN -> OUT, n: nat, actions: seq<Action<IN, OUT>>) returns (answered: seq<IN>)
    requires Runs(f, Initial(n), actions)
    ensures var t := Final(f, Initial(n), actions);
            && multiset(Q.Pushes(t.input.log)) == multiset(t.input.q) + W.Held(Workers(t)) + multiset(answered)
            && Q.Pops(t.output.log) + t.output.q == W.Images(f, answered)
  {
    var shown := Effects(f, Initial(n), actions);
    RefinesPool(f, n, actions);
    W.NothingIsLost(f, n, shown);
    answered := W.Items(W.Final(f, W.Initial(n), shown).h.answered);
  }

  /** And one worker answers in the order of the inputs. */
  lemma LoneWorkerKeepsOrder<IN, OUT>(f: IN -> OUT, actions: seq<Action<IN, OUT>>) returns (answered: seq<IN>)
    requires Runs(f, Initial(1), actions)
    ensures var t := Final(f, Initial(1), actions);
            && |t.workers| == 1
            && Q.Pushes(t.input.log) == answered + W.InHand(SeenAt(t, 0).place) + t.input.q
            && Q.Pops(t.output.log) + t.output.q == W.Images(f, answered)
  {
    var shown := Effects(f, Initial(1), actions);
    RefinesPool(f, 1, actions);
    W.LoneWorkerKeepsOrder(f, shown);
    answered := W.Items(W.Final(f, W.Initial(1), shown).h.answered);
  }

  // ---- Every step of the pool can be made down to the locks ----

  ghost predicate Quiet<IN, OUT>(s: State<IN, OUT>) {
    forall u: nat :: Q.PhaseOf(s.input, u).Outside? && Q.PhaseOf(s.output, u).Outside?
  }

  /** Thread v alone is in a call, of one queue. */
  ghost predicate Alone<IN, OUT>(s: State<IN, OUT>, v: nat) {
    && (Q.PhaseOf(s.input, v).Outside? != Q.PhaseOf(s.output, v).Outside?)
    && forall u: nat | u != v :: Q.PhaseOf(s.input, u).Outside? && Q.PhaseOf(s.output, u).Outside?
  }

  function Turn<IN, OUT>(s: State<IN, OUT>, v: nat): Action<IN, OUT> {
    if v < |s.workers| then Work(v)
    else if Q.PhaseOf(s.output, v).Outside? then OnInput(Q.Step(v))
    else OnOutput(Q.Step(v))
  }

  function StepsLeft<IN, OUT>(s: State<IN, OUT>, v: nat): nat {
    Q.StepsLeft(Q.PhaseOf(s.input, v)) + Q.StepsLeft(Q.PhaseOf(s.output, v))
  }

  /** What the call of thread v is still to show. */
  function Due<IN, OUT>(s: State<IN, OUT>, v: nat): Option<W.Action<IN>> {
    var input, output := Q.PhaseOf(s.input, v), Q.PhaseOf(s.output, v);
    if Got(input).Some? || Got(output).Some? then None
    else if v < |s.workers| then Some(W.Work(v))
    else if output.Outside? then
      var op := OpOf(input, Q.Step(v));
      if op.PushBack? then Some(W.WriteInput(op.item)) else None
    else if OpOf(output, Q.Step(v)).PopFront? && |s.output.q| > 0 then Some(W.ReadOutput)
    else None
  }

  lemma PhaseHelps<T>(s: Q.State<T>, v: nat, op: Q.Op<T>)
    requires Q.Inv(s) && !Q.PhaseOf(s, v).Outside? && forall u: nat | u != v :: Q.PhaseOf(s, u).Outside?
    requires MakesCall(Q.PhaseOf(s, v), Q.Step(v), op)
    ensures Q.Enabled(s, Q.Step(v))
    ensures var before, after := Q.PhaseOf(s, v), Q.PhaseOf(Q.Apply(s, Q.Step(v)), v);
            && Q.StepsLeft(after) < Q.StepsLeft(before) && Moves(before, after, op)
            && (Got(before).Some? && !after.Outside? ==> Got(after).Some?)
            && (Got(before).None? && Got(after).None? ==> OpOf(after, Q.Step(v)) == op && !after.Outside?)
    ensures forall u: nat | u != v :: Q.PhaseOf(Q.Apply(s, Q.Step(v)), u).Outside?
  {
    assert Q.Critical(Q.PhaseOf(s, v)) <==> s.owner == Some(v);
    if s.owner.Some? {
      assert Q.Critical(Q.PhaseOf(s, s.owner.value));
    }
    Q.StepGetsNearer(s, v);
    QueuePhases(s, Q.Step(v), op);
    hide Q.Inv, Q.Apply, Q.PhaseOf, Q.LockInv;
  }

  /** The step brings the call nearer to its end, and shows what is due or leaves it due. */
  ghost predicate Helps<IN, OUT>(f: IN -> OUT, s: State<IN, OUT>, v: nat)
    requires Enabled(f, s, Turn(s, v))
  {
    var t, shown := Apply(f, s, Turn(s, v)), Effect(f, s, Turn(s, v));
    && StepsLeft(t, v) < StepsLeft(s, v)
    && (|| (Quiet(t) && shown.None? && Due(s, v).None?)
        || (Alone(t, v) && if shown.Some? then Due(s, v) == shown && Due(t, v).None? else Due(t, v) == Due(s, v)))
  }

  lemma TakerHelps<IN, OUT>(f: IN -> OUT, s: State<IN, OUT>, v: nat)
    requires Inv(f, s) && Alone(s, v) && v < |s.workers| && !s.workers[v].place.Writes?
    ensures Enabled(f, s, Turn(s, v)) && Helps(f, s, v)
  {
    assert CallInv(f, s, v);
    PhaseHelps(s.input, v, InputOp(s.workers[v].place));
    InputFrame(f, s, v);
    hide Inv, Q.Apply, Q.Enabled, Q.PhaseOf, Q.StepsLeft, WorkerInv, Moves, InCallOf, AfterInput, MakesCall, Got, OpOf;
  }

  lemma AnswererHelps<IN, OUT>(f: IN -> OUT, s: State<IN, OUT>, v: nat)
    requires Inv(f, s) && Alone(s, v) && v < |s.workers| && s.workers[v].place.Writes?
    ensures Enabled(f, s, Turn(s, v)) && Helps(f, s, v)
  {
    assert CallInv(f, s, v);
    PhaseHelps(s.output, v, Q.PushBack(f(s.workers[v].place.item)));
    OutputFrame(f, s, v);
    hide Inv, Q.Apply, Q.Enabled, Q.PhaseOf, Q.StepsLeft, WorkerInv, Moves, InCallOf, MakesCall, Got, OpOf;
  }

  lemma WriterHelps<IN, OUT>(f: IN -> OUT, s: State<IN, OUT>, v: nat)
    requires Inv(f, s) && Alone(s, v) && v >= |s.workers| && Q.PhaseOf(s.output, v).Outside?
    ensures Enabled(f, s, Turn(s, v)) && Helps(f, s, v)
  {
    OtherMove(Q.PhaseOf(s.input, v), Q.PhaseOf(s.input, v), Q.Step(v));
    PhaseHelps(s.input, v, OpOf(Q.PhaseOf(s.input, v), Q.Step(v)));
    hide Inv, Q.Apply, Q.Enabled, Q.PhaseOf, Q.StepsLeft, Moves, InCallOf, MakesCall, Got, OpOf;
  }

  lemma ReaderHelps<IN, OUT>(f: IN -> OUT, s: State<IN, OUT>, v: nat)
    requires Inv(f, s) && Alone(s, v) && v >= |s.workers| && !Q.PhaseOf(s.output, v).Outside?
    ensures Enabled(f, s, Turn(s, v)) && Helps(f, s, v)
  {
    OtherMove(Q.PhaseOf(s.output, v), Q.PhaseOf(s.output, v), Q.Step(v));
    PhaseHelps(s.output, v, OpOf(Q.PhaseOf(s.output, v), Q.Step(v)));
    ReaderStep(f, s, Q.Step(v));
    hide Inv, Q.Apply, Q.Enabled, Q.PhaseOf, Q.StepsLeft, Moves, InCallOf, MakesCall, Got, OpOf;
  }

  lemma {:induction false} RunsJoin<IN, OUT>(f: IN -> OUT, s: State<IN, OUT>, some: seq<Action<IN, OUT>>,
                                             more: seq<Action<IN, OUT>>)
    requires Runs(f, s, some) && Runs(f, Final(f, s, some), more)
    ensures Runs(f, s, some + more) && Final(f, s, some + more) == Final(f, Final(f, s, some), more)
    decreases |some|
  {
    hide Enabled, Apply;
    if some == [] {
      assert some + more == more;
    } else {
      RunsJoin(f, Apply(f, s, some[0]), some[1..], more);
      assert (some + more)[1..] == some[1..] + more;
    }
  }

  /** A call that is alone can be finished, and shows what is due. */
  lemma {:induction false} Finish<IN, OUT>(f: IN -> OUT, s: State<IN, OUT>, v: nat, p: W.Pool<IN, OUT>)
    returns (actions: seq<Action<IN, OUT>>)
    requires Inv(f, s) && Alone(s, v) && Matches(s, p)
    ensures Runs(f, s, actions)
    ensures var t := Final(f, s, actions); Inv(f, t) && Quiet(t) && Shows(f, t, p, Due(s, v))
    decreases StepsLeft(s, v)
  {
    if v >= |s.workers| {
      if Q.PhaseOf(s.output, v).Outside? { WriterHelps(f, s, v); } else { ReaderHelps(f, s, v); }
    } else if s.workers[v].place.Writes? {
      AnswererHelps(f, s, v);
    } else {
      TakerHelps(f, s, v);
    }
    var a := Turn(s, v);
    var t := Apply(f, s, a);
    StepShows(f, s, a, p);
    assert Runs(f, t, []) && Final(f, t, []) == t;
    hide Inv, Enabled, Apply, Turn, Alone, Quiet, Matches, Due, Effect, StepsLeft, W.Apply, W.Enabled;
    var rest := [];
    if !Quiet(t) {
      rest := Finish(f, t, v, if Effect(f, s, a).Some? then W.Apply(f, p, Effect(f, s, a).value) else p);
    }
    actions := [a] + rest;
    assert actions[1..] == rest;
  }

  /** The first step of what the pool does next. */
  function First<IN, OUT>(s: State<IN, OUT>, b: W.Action<IN>): Action<IN, OUT> {
    match b
    case Work(w) => Work(w)
    case Stop(w) => Stop(w)
    case WriteInput(x) => OnInput(Q.Call(|s.workers|, Q.PushBack(x)))
    case ReadOutput => OnOutput(Q.Call(|s.workers|, Q.PopFront))
  }

  lemma FirstIs<IN, OUT>(f: IN -> OUT, s: State<IN, OUT>, b: W.Action<IN>, p: W.Pool<IN, OUT>)
    requires Quiet(s) && W.Enabled(p, b) && p.workers == s.workers
    ensures Enabled(f, s, First(s, b))
    ensures var a := First<IN, OUT>(s, b);
            var t, v := Apply(f, s, a), Who(a);
            || (Quiet(t) && Effect(f, s, a) == Some(b))
            || (Alone(t, v) && Effect(f, s, a).None?
                && Due(t, v) == if b.ReadOutput? && |s.output.q| == 0 then None else Some(b))
  {
    var a := First<IN, OUT>(s, b);
    assert Q.PhaseOf(s.input, Who(a)).Outside? && Q.PhaseOf(s.output, Who(a)).Outside?;
    var t := Apply(f, s, a);
    assert forall u: nat | u != Who(a) ::
        Q.PhaseOf(t.input, u) == Q.PhaseOf(s.input, u) && Q.PhaseOf(t.output, u) == Q.PhaseOf(s.output, u);
    match b
    case Work(w) =>
    case Stop(w) =>
    case WriteInput(x) =>
    case ReadOutput =>
  }

  lemma PoolStepIsMade<IN, OUT>(f: IN -> OUT, s: State<IN, OUT>, b: W.Action<IN>, p: W.Pool<IN, OUT>)
    returns (actions: seq<Action<IN, OUT>>)
    requires Inv(f, s) && Quiet(s) && Matches(s, p) && W.Enabled(p, b)
    ensures Runs(f, s, actions)
    ensures var t := Final(f, s, actions); Inv(f, t) && Quiet(t) && Matches(t, W.Apply(f, p, b))
  {
    assert Workers(s) == s.workers;
    FirstIs(f, s, b, p);
    var a := First<IN, OUT>(s, b);
    var t := Apply(f, s, a);
    StepShows(f, s, a, p);
    assert Runs(f, t, []) && Final(f, t, []) == t;
    hide Inv, Enabled, Apply, First, Alone, Quiet, Due, Effect, Workers, Q.Pushes, Q.Pops;
    var rest := [];
    if !Quiet(t) {
      rest := Finish(f, t, Who(a), p);
    }
    actions := [a] + rest;
    assert actions[1..] == rest;
  }

  lemma {:induction false} PoolRunIsMade<IN, OUT>(f: IN -> OUT, s: State<IN, OUT>, shown: seq<W.Action<IN>>,
                                                  p: W.Pool<IN, OUT>)
    returns (actions: seq<Action<IN, OUT>>)
    requires Inv(f, s) && Quiet(s) && Matches(s, p) && W.Runs(f, p, shown)
    ensures Runs(f, s, actions)
    ensures var t := Final(f, s, actions); Quiet(t) && Matches(t, W.Final(f, p, shown))
    decreases |shown|
  {
    hide Inv, Enabled, Apply, Quiet, Matches, W.Enabled, W.Apply;
    actions := [];
    if shown != [] {
      actions := PoolStepIsMade(f, s, shown[0], p);
      var more := PoolRunIsMade(f, Final(f, s, actions), shown[1..], W.Apply(f, p, shown[0]));
      RunsJoin(f, s, actions, more);
      actions := actions + more;
    }
  }

  /** Conversely every run of the pool whose queues are atomic can be made down to the locks: the two pools go through
      the same queues, workers, and items written and read. */
  lemma PoolIsRefined<IN, OUT>(f: IN -> OUT, n: nat, shown: seq<W.Action<IN>>) returns (actions: seq<Action<IN, OUT>>)
    requires W.Runs(f, W.Initial(n), shown)
    ensures Runs(f, Initial(n), actions)
    ensures Matches(Final(f, Initial(n), actions), W.Final(f, W.Initial(n), shown))
  {
    InitialMatches<IN, OUT>(f, n);
    actions := PoolRunIsMade(f, Initial(n), shown, W.Initial(n));
  }

  ghost predicate CanThrow<IN(!new), OUT(!new)>(f: IN -> OUT, n: nat) {
    exists actions :: Runs(f, Initial(n), actions) && SomeThrown(Final(f, Initial(n), actions))
  }

  predicate SomeThrown<IN, OUT>(s: State<IN, OUT>) {
    exists w | 0 <= w < |s.workers| :: SeenAt(s, w).place.Threw?
  }

  lemma SameThrown<IN, OUT>(s: State<IN, OUT>, p: W.Pool<IN, OUT>)
    requires Matches(s, p)
    ensures SomeThrown(s) <==> W.SomeThrew(p)
  {
    hide SeenAt, Q.Pushes, Q.Pops;
    assert forall w | 0 <= w < |s.workers| :: p.workers[w] == SeenAt(s, w);
  }

  /** So with the lock steps, too, read_input_queue can throw at a worker exactly when there are two of them. */
  lemma ThrowsExactlyWithTwo<IN(!new), OUT(!new)>(f: IN -> OUT, n: nat, x: IN)
    ensures CanThrow(f, n) <==> n >= 2
  {
    W.ThrowsExactlyWithTwo(f, n, x);
    hide Runs, Final, W.Runs, W.Final, Effects, SomeThrown, W.SomeThrew;
    if n >= 2 {
      var shown :| W.Runs(f, W.Initial(n), shown) && W.SomeThrew(W.Final(f, W.Initial(n), shown));
      var actions := PoolIsRefined(f, n, shown);
      SameThrown(Final(f, Initial(n), actions), W.Final(f, W.Initial(n), shown));
    }
    forall actions | Runs(f, Initial<IN, OUT>(n), actions) && SomeThrown(Final(f, Initial(n), actions))
      ensures n >= 2
    {
      RefinesPool(f, n, actions);
      SameThrown(Final(f, Initial(n), actions), W.Final(f, W.Initial(n), Effects(f, Initial(n), actions)));
    }
  }
}
