// The pool's two queues, and any number of workers that run the loop the repository's own worker runs: until told to
// stop, while the input queue is not empty take one item, compute, write the answer. The queues are atomic here;
// LockedPool shows that the pool over the queues with their lock steps goes through the same states.
module WorkPool {
  import opened JsonModel
  import opened SafeQueue

  class ThreadPoolWorkQueue<IN(==), OUT(==)> {
    const inputs: ThreadSafeQueue<IN>
    const outputs: ThreadSafeQueue<OUT>

    ghost predicate Valid() {
      inputs as object != outputs as object
    }

    constructor ()
      ensures Valid() && fresh(inputs) && fresh(outputs) && inputs.queue == [] && outputs.queue == []
    {
      inputs := new ThreadSafeQueue();
      outputs := new ThreadSafeQueue();
    }

    method WriteInput(data: IN)
      modifies inputs
      ensures inputs.queue == old(inputs.queue) + [data]
    {
      inputs.PushBack(data);
    }

    method ReadOutput() returns (r: Answer<OUT>)
      modifies outputs
      ensures (outputs.queue, r) == Served(PopFront, old(outputs.queue))
    {
      r := outputs.PopFront();
    }

    method InputQueueEmpty() returns (empty: bool)
      ensures empty <==> inputs.queue == []
    {
      empty := inputs.IsEmpty();
    }

    method ReadInputQueue() returns (r: Answer<IN>)
      modifies inputs
      ensures (inputs.queue, r) == Served(PopFront, old(inputs.queue))
    {
      r := inputs.PopFront();
    }

    method WriteOutput(data: OUT)
      modifies outputs
      ensures outputs.queue == old(outputs.queue) + [data]
    {
      outputs.PushBack(data);
    }
  }

  // Where a worker is in run(); each name but the last two is what it does next.
  datatype Place<IN> = ChecksStop | ChecksEmpty | Takes | Writes(item: IN) | Ended | Threw

  datatype Worker<IN> = Worker(place: Place<IN>, stop: bool)

  // What was written to the pool, which worker took and answered which item, and what was read from the pool.
  datatype History<IN, OUT> = History(
    written: seq<IN>, taken: seq<(nat, IN)>, answered: seq<(nat, IN)>, read: seq<OUT>)

  datatype Pool<IN, OUT> = Pool(
    input: seq<IN>, output: seq<OUT>, workers: seq<Worker<IN>>, h: History<IN, OUT>)

  datatype Action<IN> = WriteInput(data: IN) | ReadOutput | Stop(who: nat) | Work(who: nat)

  function Crew<IN>(n: nat): seq<Worker<IN>> {
    if n == 0 then [] else [Worker(ChecksStop, false)] + Crew(n - 1)
  }

  function Initial<IN, OUT>(n: nat): Pool<IN, OUT> {
    Pool([], [], Crew(n), History([], [], [], []))
  }

  predicate Enabled<IN, OUT>(p: Pool<IN, OUT>, a: Action<IN>) {
    match a
    case WriteInput(_) => true
    case ReadOutput => true
    case Stop(w) => w < |p.workers|
    case Work(w) => w < |p.workers| && !p.workers[w].place.Ended? && !p.workers[w].place.Threw?
  }

  function To<IN, OUT>(p: Pool<IN, OUT>, w: nat, place: Place<IN>): Pool<IN, OUT>
    requires w < |p.workers|
  {
    p.(workers := p.workers[w := p.workers[w].(place := place)])
  }

  function WorkerStep<IN, OUT>(f: IN -> OUT, p: Pool<IN, OUT>, w: nat): Pool<IN, OUT>
    requires Enabled(p, Work(w))
  {
    match p.workers[w].place
    case ChecksStop => To(p, w, if p.workers[w].stop then Ended else ChecksEmpty)
    case ChecksEmpty => To(p, w, if |p.input| == 0 then ChecksStop else Takes)
    case Takes =>
      if |p.input| == 0 then To(p, w, Threw)
      else To(p, w, Writes(p.input[0])).(input := p.input[1..], h := p.h.(taken := p.h.taken + [(w, p.input[0])]))
    case Writes(x) =>
      To(p, w, ChecksEmpty).(output := p.output + [f(x)], h := p.h.(answered := p.h.answered + [(w, x)]))
  }

  function Apply<IN, OUT>(f: IN -> OUT, p: Pool<IN, OUT>, a: Action<IN>): Pool<IN, OUT>
    requires Enabled(p, a)
  {
    match a
    case WriteInput(x) => p.(input := p.input + [x], h := p.h.(written := p.h.written + [x]))
    case ReadOutput =>
      if |p.output| == 0 then p
      else p.(output := p.output[1..], h := p.h.(read := p.h.read + [p.output[0]]))
    case Stop(w) => p.(workers := p.workers[w := p.workers[w].(stop := true)])
    case Work(w) => WorkerStep(f, p, w)
  }

  /** The model's view of a work queue whose workers and history are given. */
  ghost function View<IN, OUT>(q: ThreadPoolWorkQueue<IN, OUT>, workers: seq<Worker<IN>>, h: History<IN, OUT>)
    : Pool<IN, OUT>
    reads q.inputs, q.outputs
  {
    Pool(q.inputs.queue, q.outputs.queue, workers, h)
  }

  /** One step of a worker's run(), on the queues themselves. */
  method RunOnce<IN, OUT>(f: IN -> OUT, q: ThreadPoolWorkQueue<IN, OUT>, workers: seq<Worker<IN>>,
                          ghost h: History<IN, OUT>, w: nat)
    returns (after: seq<Worker<IN>>, ghost k: History<IN, OUT>)
    requires q.Valid() && w < |workers| && !workers[w].place.Ended? && !workers[w].place.Threw?
    modifies q.inputs, q.outputs
    ensures View(q, after, k) == WorkerStep(f, old(View(q, workers, h)), w)
  {
    k := h;
    match workers[w].place {
      case ChecksStop =>
        after := workers[w := workers[w].(place := if workers[w].stop then Ended else ChecksEmpty)];
      case ChecksEmpty =>
        var empty := q.InputQueueEmpty();
        after := workers[w := workers[w].(place := if empty then ChecksStop else Takes)];
      case Takes =>
        var item := q.ReadInputQueue();
        if item.Front? {
          after := workers[w := workers[w].(place := Writes(item.value))];
          k := h.(taken := h.taken + [(w, item.value)]);
        } else {
          after := workers[w := workers[w].(place := Threw)];
        }
      case Writes(x) =>
        q.WriteOutput(f(x));
        after := workers[w := workers[w].(place := ChecksEmpty)];
        k := h.(answered := h.answered + [(w, x)]);
    }
  }

  // ---- What every run keeps ----

  function Items<IN>(log: seq<(nat, IN)>): seq<IN> {
    if log == [] then [] else Items(log[..|log| - 1]) + [log[|log| - 1].1]
  }

  /** What worker w contributed to the log. */
  function By<IN>(log: seq<(nat, IN)>, w: nat): seq<IN> {
    if log == [] then []
    else By(log[..|log| - 1], w) + if log[|log| - 1].0 == w then [log[|log| - 1].1] else []
  }

  function Images<IN, OUT>(f: IN -> OUT, items: seq<IN>): seq<OUT> {
    if items == [] then [] else Images(f, items[..|items| - 1]) + [f(items[|items| - 1])]
  }

  function InHand<IN>(place: Place<IN>): seq<IN> {
    if place.Writes? then [place.item] else []
  }

  function Bag<IN>(worker: Worker<IN>): multiset<IN> {
    if worker.place.Writes? then multiset{worker.place.item} else multiset{}
  }

  /** The items in the hands of all workers. */
  function Held<IN>(workers: seq<Worker<IN>>): multiset<IN> {
    if workers == [] then multiset{} else Bag(workers[0]) + Held(workers[1..])
  }

  lemma SumSwap<IN>(a: multiset<IN>, b: multiset<IN>, c: multiset<IN>, x: multiset<IN>, y: multiset<IN>)
    requires b + x == c + y
    ensures (a + b) + x == (a + c) + y
  {
    assert (a + b) + x == a + (b + x);
    assert (a + c) + y == a + (c + y);
  }

  lemma {:induction false} HeldUpdate<IN>(workers: seq<Worker<IN>>, w: nat, worker: Worker<IN>)
    requires w < |workers|
    ensures Held(workers[w := worker]) + Bag(workers[w]) == Held(workers) + Bag(worker)
  {
    hide Bag;
    var updated := workers[w := worker];
    assert Held(updated) == Bag(updated[0]) + Held(updated[1..]);
    if w == 0 {
      assert updated[1..] == workers[1..];
    } else {
      assert updated[1..] == workers[1..][w - 1 := worker];
      HeldUpdate(workers[1..], w - 1, worker);
      SumSwap(Bag(workers[0]), Held(updated[1..]), Held(workers[1..]), Bag(workers[w]), Bag(worker));
    }
  }

  lemma NothingAdded<IN>(a: multiset<IN>)
    ensures a + multiset{} == a
  {
  }

  lemma HeldGains<IN>(workers: seq<Worker<IN>>, w: nat, worker: Worker<IN>, x: IN)
    requires w < |workers| && Bag(workers[w]) == multiset{} && Bag(worker) == multiset{x}
    ensures Held(workers[w := worker]) == Held(workers) + multiset{x}
  {
    hide *;
    HeldUpdate(workers, w, worker);
    NothingAdded(Held(workers[w := worker]));
  }

  lemma HeldLoses<IN>(workers: seq<Worker<IN>>, w: nat, worker: Worker<IN>, x: IN)
    requires w < |workers| && Bag(workers[w]) == multiset{x} && Bag(worker) == multiset{}
    ensures Held(workers[w := worker]) + multiset{x} == Held(workers)
  {
    hide *;
    HeldUpdate(workers, w, worker);
    NothingAdded(Held(workers));
  }

  lemma HeldSame<IN>(workers: seq<Worker<IN>>, w: nat, worker: Worker<IN>)
    requires w < |workers| && Bag(worker) == Bag(workers[w])
    ensures Held(workers[w := worker]) == Held(workers)
  {
    HeldUpdate(workers, w, worker);
    assert Held(workers) == (Held(workers) + Bag(worker)) - Bag(worker);
    assert Held(workers[w := worker]) == (Held(workers[w := worker]) + Bag(worker)) - Bag(worker);
  }

  /** Each worker answers what it took, in the order it took it; the answers come out in the order they went in. */
  ghost predicate OrderInv<IN, OUT>(f: IN -> OUT, p: Pool<IN, OUT>) {
    && p.h.written == Items(p.h.taken) + p.input
    && Images(f, Items(p.h.answered)) == p.h.read + p.output
    && forall w: nat ::
         By(p.h.taken, w) == By(p.h.answered, w) + if w < |p.workers| then InHand(p.workers[w].place) else []
  }

  predicate InCrew<IN>(log: seq<(nat, IN)>, n: nat) {
    forall i | 0 <= i < |log| :: log[i].0 < n
  }

  ghost predicate CountInv<IN, OUT>(p: Pool<IN, OUT>) {
    multiset(Items(p.h.taken)) == multiset(Items(p.h.answered)) + Held(p.workers)
  }

  /** A lone worker finds what it saw. */
  ghost predicate CrewInv<IN, OUT>(p: Pool<IN, OUT>) {
    && InCrew(p.h.taken, |p.workers|) && InCrew(p.h.answered, |p.workers|)
    && (|p.workers| == 1 ==> !p.workers[0].place.Threw? && (p.workers[0].place.Takes? ==> p.input != []))
  }

  lemma LogAppend<IN>(log: seq<(nat, IN)>, w: nat, x: IN)
    ensures Items(log + [(w, x)]) == Items(log) + [x]
    ensures multiset(Items(log + [(w, x)])) == multiset(Items(log)) + multiset{x}
    ensures By(log + [(w, x)], w) == By(log, w) + [x]
    ensures forall v: nat | v != w :: By(log + [(w, x)], v) == By(log, v)
  {
    assert (log + [(w, x)])[..|log|] == log;
  }

  lemma ImagesAppend<IN, OUT>(f: IN -> OUT, items: seq<IN>, x: IN)
    ensures Images(f, items + [x]) == Images(f, items) + [f(x)]
  {
    assert (items + [x])[..|items|] == items;
  }

  /** The workers other than w are where they were. */
  lemma OthersStay<IN, OUT>(f: IN -> OUT, p: Pool<IN, OUT>, w: nat)
    requires Enabled(p, Work(w))
    ensures var t := WorkerStep(f, p, w);
            && |t.workers| == |p.workers|
            && forall v: nat | v != w && v < |p.workers| :: t.workers[v] == p.workers[v]
  {
  }

  lemma WorkerKeepsOrder<IN, OUT>(f: IN -> OUT, p: Pool<IN, OUT>, w: nat)
    requires OrderInv(f, p) && Enabled(p, Work(w))
    ensures OrderInv(f, WorkerStep(f, p, w))
  {
    hide Items, By, Images;
    var t := WorkerStep(f, p, w);
    OthersStay(f, p, w);
    match p.workers[w].place {
      case Takes =>
        if p.input != [] {
          LogAppend(p.h.taken, w, p.input[0]);
          assert t.h.written == Items(t.h.taken) + t.input;
        }
      case Writes(x) =>
        LogAppend(p.h.answered, w, x);
        ImagesAppend(f, Items(p.h.answered), x);
      case _ =>
    }
  }

  /** Taking x, or answering it, moves it from one side of the count to the other. */
  lemma OneMoves<IN>(taken: multiset<IN>, answered: multiset<IN>, held: multiset<IN>, after: multiset<IN>, x: IN)
    requires taken == answered + held
    ensures after == held + multiset{x} ==> taken + multiset{x} == answered + after
    ensures after + multiset{x} == held ==> taken == answered + multiset{x} + after
  {
  }

  /** What a step of worker w does to the items in hand. */
  lemma HeldAfter<IN, OUT>(f: IN -> OUT, p: Pool<IN, OUT>, w: nat)
    requires Enabled(p, Work(w))
    ensures var place, after := p.workers[w].place, Held(WorkerStep(f, p, w).workers);
            if place.Takes? && p.input != [] then after == Held(p.workers) + multiset{p.input[0]}
            else if place.Writes? then after + multiset{place.item} == Held(p.workers)
            else after == Held(p.workers)
  {
    hide Held;
    var place, worker := p.workers[w].place, WorkerStep(f, p, w).workers[w];
    assert WorkerStep(f, p, w).workers == p.workers[w := worker];
    if place.Takes? && p.input != [] {
      HeldGains(p.workers, w, worker, p.input[0]);
    } else if place.Writes? {
      HeldLoses(p.workers, w, worker, place.item);
    } else {
      HeldSame(p.workers, w, worker);
    }
  }

  lemma WorkerKeepsCount<IN, OUT>(f: IN -> OUT, p: Pool<IN, OUT>, w: nat)
    requires CountInv(p) && Enabled(p, Work(w))
    ensures CountInv(WorkerStep(f, p, w))
  {
    hide Items, By, Held;
    var t := WorkerStep(f, p, w);
    var place := p.workers[w].place;
    var taken, answered, held := multiset(Items(p.h.taken)), multiset(Items(p.h.answered)), Held(p.workers);
    HeldAfter(f, p, w);
    if place.Takes? && p.input != [] {
      LogAppend(p.h.taken, w, p.input[0]);
      OneMoves(taken, answered, held, Held(t.workers), p.input[0]);
    } else if place.Writes? {
      LogAppend(p.h.answered, w, place.item);
      OneMoves(taken, answered, held, Held(t.workers), place.item);
    }
  }

  lemma WorkerKeepsCrew<IN, OUT>(f: IN -> OUT, p: Pool<IN, OUT>, w: nat)
    requires CrewInv(p) && Enabled(p, Work(w))
    ensures CrewInv(WorkerStep(f, p, w))
  {
  }

  lemma StepKeepsInv<IN, OUT>(f: IN -> OUT, p: Pool<IN, OUT>, a: Action<IN>)
    requires OrderInv(f, p) && CountInv(p) && CrewInv(p) && Enabled(p, a)
    ensures var t := Apply(f, p, a);
            OrderInv(f, t) && CountInv(t) && CrewInv(t) && |t.workers| == |p.workers|
  {
    hide Items, By, Images, Held;
    match a {
      case Stop(w) =>
        HeldSame(p.workers, w, p.workers[w].(stop := true));
      case Work(w) =>
        WorkerKeepsOrder(f, p, w);
        WorkerKeepsCount(f, p, w);
        WorkerKeepsCrew(f, p, w);
        OthersStay(f, p, w);
        hide OrderInv, CountInv, CrewInv, WorkerStep;
      case WriteInput(x) =>
        assert Apply(f, p, a).h.written == Items(p.h.taken) + Apply(f, p, a).input;
      case ReadOutput =>
        assert p.h.read + p.output == Apply(f, p, a).h.read + Apply(f, p, a).output;
    }
  }

  predicate Runs<IN, OUT>(f: IN -> OUT, p: Pool<IN, OUT>, actions: seq<Action<IN>>)
    decreases |actions|
  {
    actions == [] || (Enabled(p, actions[0]) && Runs(f, Apply(f, p, actions[0]), actions[1..]))
  }

  function Final<IN, OUT>(f: IN -> OUT, p: Pool<IN, OUT>, actions: seq<Action<IN>>): Pool<IN, OUT>
    requires Runs(f, p, actions)
    decreases |actions|
  {
    if actions == [] then p else Final(f, Apply(f, p, actions[0]), actions[1..])
  }

  lemma {:induction false} RunKeepsInv<IN, OUT>(f: IN -> OUT, p: Pool<IN, OUT>, actions: seq<Action<IN>>)
    requires OrderInv(f, p) && CountInv(p) && CrewInv(p) && Runs(f, p, actions)
    ensures var t := Final(f, p, actions);
            OrderInv(f, t) && CountInv(t) && CrewInv(t) && |t.workers| == |p.workers|
    decreases |actions|
  {
    if actions != [] {
      StepKeepsInv(f, p, actions[0]);
      hide OrderInv, CountInv, CrewInv, Apply, Enabled;
      RunKeepsInv(f, Apply(f, p, actions[0]), actions[1..]);
    }
  }

  lemma {:induction false} CrewIsIdle<IN>(n: nat)
    ensures Held<IN>(Crew(n)) == multiset{} && |Crew<IN>(n)| == n
    ensures forall w | 0 <= w < n :: Crew<IN>(n)[w] == Worker(ChecksStop, false)
  {
    if n > 0 {
      CrewIsIdle<IN>(n - 1);
      assert Crew<IN>(n)[1..] == Crew(n - 1);
    }
  }

  lemma RunsFromStart<IN, OUT>(f: IN -> OUT, n: nat, actions: seq<Action<IN>>)
    requires Runs(f, Initial(n), actions)
    ensures var t := Final(f, Initial(n), actions);
            OrderInv(f, t) && CountInv(t) && CrewInv(t) && |t.workers| == n
  {
    CrewIsIdle<IN>(n);
    RunKeepsInv(f, Initial(n), actions);
  }

  /** Over every interleaving of any number of workers with the caller nothing is lost or duplicated, and what can be
      read is the images of the answered items, in the order they were answered. */
  lemma NothingIsLost<IN, OUT>(f: IN -> OUT, n: nat, actions: seq<Action<IN>>)
    requires Runs(f, Initial(n), actions)
    ensures var t := Final(f, Initial(n), actions);
            && multiset(t.h.written) == multiset(t.input) + Held(t.workers) + multiset(Items(t.h.answered))
            && t.h.read + t.output == Images(f, Items(t.h.answered))
  {
    RunsFromStart(f, n, actions);
  }

  /** A worker ends exactly when it looks at its stop flag and finds it set, and only stop() sets it. */
  lemma EndsWhenStopped<IN, OUT>(f: IN -> OUT, p: Pool<IN, OUT>, a: Action<IN>, w: nat)
    requires Enabled(p, a) && w < |p.workers|
    ensures var t := Apply(f, p, a);
            && |t.workers| == |p.workers|
            && (t.workers[w].place.Ended? <==>
                  p.workers[w].place.Ended? || (a == Work(w) && p.workers[w].place.ChecksStop? && p.workers[w].stop))
            && (t.workers[w].stop <==> p.workers[w].stop || a == Stop(w))
  {
  }

  lemma {:induction false} ImagesJoin<IN, OUT>(f: IN -> OUT, x: IN, items: seq<IN>)
    ensures Images(f, [x] + items) == [f(x)] + Images(f, items)
  {
    if items == [] {
      assert [x] + items == [x] && [x][..0] == [];
    } else {
      var n := |items| - 1;
      ImagesJoin(f, x, items[..n]);
      assert ([x] + items)[..n + 1] == [x] + items[..n];
    }
  }

  lemma OneAnswered<IN, OUT>(f: IN -> OUT, p: Pool<IN, OUT>, w: nat)
    requires w < |p.workers| && p.workers[w].place.ChecksEmpty? && p.input != []
    ensures Enabled(p, Work(w))
    ensures var p1 := WorkerStep(f, p, w);
            && Enabled(p1, Work(w))
            && var p2 := WorkerStep(f, p1, w);
               && Enabled(p2, Work(w))
               && var p3 := WorkerStep(f, p2, w);
                  && p3.input == p.input[1..] && p3.output == p.output + [f(p.input[0])]
                  && w < |p3.workers| && p3.workers[w].place.ChecksEmpty?
  {
  }

  /** A worker that looks for work can, by itself, answer everything that is queued. */
  lemma {:induction false} WorkerDrains<IN, OUT>(f: IN -> OUT, p: Pool<IN, OUT>, w: nat)
    returns (actions: seq<Action<IN>>)
    requires w < |p.workers| && p.workers[w].place.ChecksEmpty?
    ensures Runs(f, p, actions) && forall i | 0 <= i < |actions| :: actions[i] == Work(w)
    ensures var t := Final(f, p, actions); t.input == [] && t.output == p.output + Images(f, p.input)
    decreases |p.input|
  {
    if p.input == [] {
      actions := [];
      assert p.output + Images(f, p.input) == p.output;
    } else {
      OneAnswered(f, p, w);
      ImagesJoin(f, p.input[0], p.input[1..]);
      assert [p.input[0]] + p.input[1..] == p.input;
      hide Images, WorkerStep, Runs, Final, Enabled;
      var p1 := WorkerStep(f, p, w);
      var p2 := WorkerStep(f, p1, w);
      var p3 := WorkerStep(f, p2, w);
      actions := WorkerDrains(f, p3, w);
      RunsJoin(f, p2, Work(w), actions);
      RunsJoin(f, p1, Work(w), [Work(w)] + actions);
      RunsJoin(f, p, Work(w), [Work(w)] + ([Work(w)] + actions));
      actions := [Work(w)] + ([Work(w)] + ([Work(w)] + actions));
    }
  }

  lemma {:induction false} LoneLog<IN>(log: seq<(nat, IN)>)
    requires InCrew(log, 1)
    ensures By(log, 0) == Items(log)
  {
    if log != [] {
      LoneLog(log[..|log| - 1]);
    }
  }

  /** With one worker the answers come in the order of the inputs, and no read_input_queue throws. */
  lemma LoneWorkerKeepsOrder<IN, OUT>(f: IN -> OUT, actions: seq<Action<IN>>)
    requires Runs(f, Initial(1), actions)
    ensures var t := Final(f, Initial(1), actions);
            && |t.workers| == 1 && !t.workers[0].place.Threw?
            && t.h.written == Items(t.h.answered) + InHand(t.workers[0].place) + t.input
            && t.h.read + t.output == Images(f, Items(t.h.answered))
  {
    RunsFromStart(f, 1, actions);
    var t := Final(f, Initial(1), actions);
    LoneLog(t.h.taken);
    LoneLog(t.h.answered);
    hide Items, By, Images;
  }

  ghost predicate CanThrow<IN(!new), OUT(!new)>(f: IN -> OUT, n: nat) {
    exists actions :: Runs(f, Initial(n), actions) && SomeThrew(Final(f, Initial(n), actions))
  }

  predicate SomeThrew<IN, OUT>(p: Pool<IN, OUT>) {
    exists w | 0 <= w < |p.workers| :: p.workers[w].place.Threw?
  }

  lemma RunsJoin<IN, OUT>(f: IN -> OUT, p: Pool<IN, OUT>, a: Action<IN>, rest: seq<Action<IN>>)
    requires Enabled(p, a) && Runs(f, Apply(f, p, a), rest)
    ensures Runs(f, p, [a] + rest) && Final(f, p, [a] + rest) == Final(f, Apply(f, p, a), rest)
  {
    assert ([a] + rest)[1..] == rest;
  }

  /** Testing for emptiness and taking are two critical sections: an item that two workers have seen is taken by one,
      and read_input_queue throws out of the run() of the other. That can happen exactly when the pool has two
      workers. */
  lemma ThrowsExactlyWithTwo<IN(!new), OUT(!new)>(f: IN -> OUT, n: nat, x: IN)
    ensures CanThrow(f, n) <==> n >= 2
  {
    if n >= 2 {
      TwoCanThrow(f, n, x);
    } else {
      hide Runs, Final;
      forall actions | Runs(f, Initial(n), actions) ensures !SomeThrew(Final(f, Initial(n), actions)) {
        RunsFromStart(f, n, actions);
        hide OrderInv, CountInv;
      }
    }
  }

  lemma TwoCanThrow<IN(!new), OUT(!new)>(f: IN -> OUT, n: nat, x: IN)
    requires n >= 2
    ensures CanThrow(f, n)
  {
    var a, b := Work(0), Work(1);
    CrewIsIdle<IN>(n);
    var p0: Pool<IN, OUT> := Initial(n);
    assert forall p: Pool<IN, OUT> :: Runs(f, p, []) && Final(f, p, []) == p;
    hide Crew, Runs, Final;
    var p1 := Apply(f, p0, WriteInput(x));
    var p2 := Apply(f, p1, a);
    var p3 := Apply(f, p2, a);
    var p4 := Apply(f, p3, b);
    var p5 := Apply(f, p4, b);
    var p6 := Apply(f, p5, a);
    var p7 := Apply(f, p6, b);
    assert p7.workers[1].place.Threw?;
    RunsJoin(f, p6, b, []);
    RunsJoin(f, p5, a, [b] + []);
    RunsJoin(f, p4, b, [a] + ([b] + []));
    RunsJoin(f, p3, b, [b] + ([a] + ([b] + [])));
    RunsJoin(f, p2, a, [b] + ([b] + ([a] + ([b] + []))));
    RunsJoin(f, p1, a, [a] + ([b] + ([b] + ([a] + ([b] + [])))));
    RunsJoin(f, p0, WriteInput(x), [a] + ([a] + ([b] + ([b] + ([a] + ([b] + []))))));
    assert SomeThrew(p7);
  }
}
