// The start / wait / kill handshake of a worker thread with its one controller: two mutexes, three flags and a thread
// handle, one atomic operation a step. run() is taken to call ThreadStarted() once; a cancelled worker may end wherever
// it is in the rest of run().
module Handshake {

  datatype Owner = Free | ByController | ByWorker

  // Where the controller is; each name is the operation it performs next.
  datatype Controller =
    | Idle
    | StartChecksRunning | StartClearsStop | StartLocksFirst | StartCreatesThread | StartSpins | StartSetsStarted
    | StartUnlocksFirst | StartLocksSecond | StartUnlocksSecond
    | WaitChecksStarted | WaitJoins | WaitDropsHandle | WaitClearsStarted
    | KillChecksRunning | KillCancels | KillClearsRunning

  datatype Worker =
    | Absent | LocksSecond | SetsRunning | LocksFirst | UnlocksFirst | RunsUnannounced | RunsAnnounced | ClearsRunning
    | Ended

  // continuemutex and continuemutex2
  datatype Mutexes = Mutexes(first: Owner, second: Owner)

  // m_running, started, m_request_stop, and whether m_thread is set
  datatype Fields = Fields(running: bool, started: bool, stopRequested: bool, handle: bool)

  datatype Call = Call(
    killing: bool,     // the wait in progress was called by kill on a running thread
    cancelled: bool,   // pthread_cancel was sent to the current worker
    announced: bool,   // ThreadStarted() was called by the current worker
    startResult: bool, // what the last start() returned
    killResult: bool)  // what the last kill() returned

  // aborted: the process ended because a joinable std::thread was destroyed.
  datatype State = State(controller: Controller, worker: Worker, m: Mutexes, f: Fields, g: Call, aborted: bool)

  const INITIAL := State(Idle, Absent, Mutexes(Free, Free), Fields(false, false, false, false),
                         Call(false, false, false, false, false), false)

  datatype Action = CallStart | CallWait | CallKill | CallStop | ControllerStep | WorkerStep | WorkerDies

  predicate Enabled(s: State, a: Action) {
    && !s.aborted
    && match a
       case CallStart | CallWait | CallKill | CallStop => s.controller == Idle
       case ControllerStep =>
         && s.controller != Idle
         && (s.controller == StartLocksFirst ==> s.m.first == Free)
         && (s.controller == StartLocksSecond ==> s.m.second == Free)
         && (s.controller == WaitJoins && s.f.handle ==> s.worker == Ended)
       case WorkerStep =>
         && s.worker != Absent && s.worker != Ended
         && (s.worker == LocksSecond ==> s.m.second == Free)
         && (s.worker == LocksFirst ==> s.m.first == Free)
       case WorkerDies => s.g.cancelled && s.worker == RunsAnnounced
  }

  // How many steps of its own each thread has before it, at most.
  function ControllerRank(c: Controller): nat {
    match c
    case Idle => 0
    case StartChecksRunning => 9
    case StartClearsStop => 8
    case StartLocksFirst => 7
    case StartCreatesThread => 6
    case StartSpins => 5
    case StartSetsStarted => 4
    case StartUnlocksFirst => 3
    case StartLocksSecond => 2
    case StartUnlocksSecond => 1
    case WaitChecksStarted => 5
    case WaitJoins => 4
    case WaitDropsHandle => 3
    case WaitClearsStarted => 2
    case KillChecksRunning => 7
    case KillCancels => 6
    case KillClearsRunning => 1
  }

  function WorkerRank(w: Worker): nat {
    match w
    case Absent | Ended => 0
    case ClearsRunning => 1
    case RunsAnnounced => 2
    case RunsUnannounced => 3
    case UnlocksFirst => 4
    case LocksFirst => 5
    case SetsRunning => 6
    case LocksSecond => 7
  }

  function AfterWait(s: State): State {
    s.(controller := if s.g.killing then KillClearsRunning else Idle)
  }

  predicate InStart(c: Controller) {
    c.StartChecksRunning? || c.StartClearsStop? || c.StartLocksFirst? || c.StartCreatesThread? || c.StartSpins? ||
    c.StartSetsStarted? || c.StartUnlocksFirst? || c.StartLocksSecond? || c.StartUnlocksSecond?
  }

  predicate InWait(c: Controller) {
    c.WaitChecksStarted? || c.WaitJoins? || c.WaitDropsHandle? || c.WaitClearsStarted?
  }

  predicate BeforeCreation(c: Controller) {
    c.StartChecksRunning? || c.StartClearsStop? || c.StartLocksFirst? || c.StartCreatesThread?
  }

  /** start() up to the creation of the thread. */
  function CreationStep(s: State): (t: State)
    requires BeforeCreation(s.controller)
    ensures t.aborted <==> s.aborted || (s.controller.StartCreatesThread? && s.f.handle)
    ensures BeforeCreation(t.controller) ==> t.f.handle == s.f.handle
    ensures t.aborted || (ControllerRank(t.controller) < ControllerRank(s.controller) && WorkerRank(t.worker) <= 7)
  {
    match s.controller
    case StartChecksRunning =>
      if s.f.running then s.(controller := Idle, g := s.g.(startResult := false)) else s.(controller := StartClearsStop)
    case StartClearsStop => s.(controller := StartLocksFirst, f := s.f.(stopRequested := false))
    case StartLocksFirst => s.(controller := StartCreatesThread, m := s.m.(first := ByController))
    case StartCreatesThread =>
      // Assigning the new thread destroys the old one, which has not been joined.
      if s.f.handle then s.(aborted := true)
      else s.(worker := LocksSecond, controller := StartSpins, f := s.f.(handle := true), g := s.g.(announced := false))
  }

  /** start() from the spin loop on. */
  function MeetingStep(s: State): (t: State)
    requires InStart(s.controller) && !BeforeCreation(s.controller)
    ensures !BeforeCreation(t.controller) && t.aborted == s.aborted && t.worker == s.worker
    ensures t == s || ControllerRank(t.controller) < ControllerRank(s.controller)
    ensures t == s ==> s.controller.StartSpins? && !s.f.running
  {
    match s.controller
    case StartSpins => if s.f.running then s.(controller := StartSetsStarted) else s
    case StartSetsStarted => s.(controller := StartUnlocksFirst, f := s.f.(started := true))
    case StartUnlocksFirst => s.(controller := StartLocksSecond, m := s.m.(first := Free))
    case StartLocksSecond => s.(controller := StartUnlocksSecond, m := s.m.(second := ByController))
    case StartUnlocksSecond => s.(controller := Idle, m := s.m.(second := Free), g := s.g.(startResult := true))
  }

  function WaitStep(s: State): (t: State)
    requires InWait(s.controller)
    ensures !BeforeCreation(t.controller) && t.aborted == s.aborted && WorkerRank(t.worker) <= WorkerRank(s.worker)
    ensures ControllerRank(t.controller) < ControllerRank(s.controller)
  {
    match s.controller
    case WaitChecksStarted => if s.f.started then s.(controller := WaitJoins) else AfterWait(s)
    case WaitJoins =>
      if s.f.handle then s.(worker := Absent, controller := WaitDropsHandle) else s.(controller := WaitClearsStarted)
    case WaitDropsHandle => s.(controller := WaitClearsStarted, f := s.f.(handle := false))
    case WaitClearsStarted => AfterWait(s.(f := s.f.(started := false)))
  }

  function KillStep(s: State): (t: State)
    ensures !BeforeCreation(s.controller) ==> !BeforeCreation(t.controller)
    ensures t.aborted == s.aborted && t.worker == s.worker
    ensures s.controller.KillChecksRunning? || s.controller.KillCancels? || s.controller.KillClearsRunning? ==>
              ControllerRank(t.controller) < ControllerRank(s.controller)
  {
    match s.controller
    case KillChecksRunning =>
      if s.f.running then s.(controller := KillCancels)
      else s.(controller := WaitChecksStarted, g := s.g.(killing := false, killResult := false))
    case KillCancels => s.(controller := WaitChecksStarted, g := s.g.(cancelled := s.f.handle, killing := true))
    case KillClearsRunning =>
      s.(controller := Idle, f := s.f.(running := false),
         g := s.g.(cancelled := false, killing := false, killResult := true))
    case _ => s
  }

  function Controlled(s: State): State {
    if BeforeCreation(s.controller) then CreationStep(s)
    else if InStart(s.controller) then MeetingStep(s)
    else if InWait(s.controller) then WaitStep(s) else KillStep(s)
  }

  function Worked(s: State): (t: State)
    ensures t.controller == s.controller && t.aborted == s.aborted && t.f.handle == s.f.handle
    ensures s.worker.Absent? || s.worker.Ended? || WorkerRank(t.worker) < WorkerRank(s.worker)
  {
    match s.worker
    case Absent | Ended => s
    case LocksSecond => s.(worker := SetsRunning, m := s.m.(second := ByWorker))
    case SetsRunning => s.(worker := LocksFirst, f := s.f.(running := true))
    case LocksFirst => s.(worker := UnlocksFirst, m := s.m.(first := ByWorker))
    case UnlocksFirst => s.(worker := RunsUnannounced, m := s.m.(first := Free))
    case RunsUnannounced => s.(worker := RunsAnnounced, m := s.m.(second := Free), g := s.g.(announced := true))
    case RunsAnnounced => s.(worker := ClearsRunning)
    case ClearsRunning => s.(worker := Ended, f := s.f.(running := false))
  }

  function Apply(s: State, a: Action): State {
    match a
    case CallStart => s.(controller := StartChecksRunning)
    case CallWait => s.(controller := WaitChecksStarted, g := s.g.(killing := false))
    case CallKill => s.(controller := KillChecksRunning)
    case CallStop => s.(f := s.f.(stopRequested := true))
    case ControllerStep => Controlled(s)
    case WorkerStep => Worked(s)
    case WorkerDies => s.(worker := Ended)
  }

  /** The actions can be taken one after the other from s. */
  predicate Runs(s: State, actions: seq<Action>)
    decreases |actions|
  {
    actions == [] || (Enabled(s, actions[0]) && Runs(Apply(s, actions[0]), actions[1..]))
  }

  function Final(s: State, actions: seq<Action>): State
    decreases |actions|
  {
    if actions == [] then s else Final(Apply(s, actions[0]), actions[1..])
  }

  // ---- The invariant ----

  function FirstOwner(c: Controller, w: Worker): Owner {
    match c
    case StartCreatesThread | StartSpins | StartSetsStarted | StartUnlocksFirst => ByController
    case _ => if w.UnlocksFirst? then ByWorker else Free
  }

  function SecondOwner(c: Controller, w: Worker): Owner {
    match w
    case SetsRunning | LocksFirst | UnlocksFirst | RunsUnannounced => ByWorker
    case _ => if c.StartUnlocksSecond? then ByController else Free
  }

  /** Each mutex has the owner the program counters say. */
  predicate MutexesInv(s: State) {
    s.m.first == FirstOwner(s.controller, s.worker) && s.m.second == SecondOwner(s.controller, s.worker)
  }

  /** How far the worker can be for each place of the controller. */
  predicate PlacesInv(s: State) {
    match s.controller
    case StartSpins => s.worker.LocksSecond? || s.worker.SetsRunning? || s.worker.LocksFirst?
    case StartSetsStarted | StartUnlocksFirst => s.worker.LocksFirst?
    case StartLocksSecond => !s.worker.Absent? && !s.worker.LocksSecond? && !s.worker.SetsRunning?
    case StartUnlocksSecond => s.worker.RunsAnnounced? || s.worker.ClearsRunning? || s.worker.Ended?
    case StartClearsStop | StartLocksFirst | StartCreatesThread => s.worker.Absent? || s.worker.Ended?
    case WaitDropsHandle | WaitClearsStarted | KillClearsRunning => s.worker.Absent?
    case _ => s.worker.Absent? || s.worker.RunsAnnounced? || s.worker.ClearsRunning? || s.worker.Ended?
  }

  /** From setting m_running to clearing it. */
  predicate IsUp(w: Worker) {
    w.LocksFirst? || w.UnlocksFirst? || w.RunsUnannounced? || w.RunsAnnounced? || w.ClearsRunning?
  }

  predicate FlagsInv(s: State) {
    && (s.controller.WaitDropsHandle? || (s.f.handle <==> !s.worker.Absent?))
    && (s.controller.WaitDropsHandle? ==> s.f.handle)
    && (match s.controller
        case StartSpins | StartSetsStarted => !s.f.started
        case StartUnlocksFirst | StartLocksSecond | StartUnlocksSecond | WaitJoins | WaitDropsHandle
          | WaitClearsStarted => s.f.started
        case _ => s.f.started <==> s.f.handle)
    && (s.worker.LocksSecond? || s.worker.SetsRunning? ==> !s.f.running)
    && (IsUp(s.worker) ==> s.f.running)
    && (s.f.running && (s.worker.Absent? || s.worker.Ended?) ==> InKill(s))
    && (s.g.cancelled ==> InKill(s))
    && (s.controller.KillCancels? ==> s.f.handle)
    && (!s.worker.Absent? ==>
          (s.g.announced <==> s.worker.RunsAnnounced? || s.worker.ClearsRunning? || s.worker.Ended?))
  }

  predicate InKill(s: State) {
    || s.controller.KillClearsRunning?
    || (s.g.killing && (s.controller.WaitChecksStarted? || s.controller.WaitJoins? || s.controller.WaitDropsHandle? ||
                      s.controller.WaitClearsStarted?))
  }

  predicate Inv(s: State) {
    s.aborted || (MutexesInv(s) && PlacesInv(s) && FlagsInv(s) && (s.controller.KillClearsRunning? ==> !s.f.handle))
  }

  lemma CreationKeepsInv(s: State)
    requires Inv(s) && Enabled(s, ControllerStep) && BeforeCreation(s.controller)
    ensures Inv(CreationStep(s))
  {
    match s.controller
    case StartChecksRunning =>
    case StartClearsStop =>
    case StartLocksFirst =>
    case StartCreatesThread =>
  }

  lemma MeetingKeepsInv(s: State)
    requires Inv(s) && Enabled(s, ControllerStep) && InStart(s.controller) && !BeforeCreation(s.controller)
    ensures Inv(MeetingStep(s))
  {
    hide Controlled, Worked;
  }

  lemma WaitKeepsMutexes(s: State)
    requires Inv(s) && Enabled(s, ControllerStep) && InWait(s.controller)
    ensures MutexesInv(WaitStep(s))
  {
  }

  lemma WaitKeepsPlaces(s: State)
    requires Inv(s) && Enabled(s, ControllerStep) && InWait(s.controller)
    ensures PlacesInv(WaitStep(s))
  {
    hide MutexesInv;
  }

  lemma WaitKeepsFlags(s: State)
    requires Inv(s) && Enabled(s, ControllerStep) && InWait(s.controller)
    ensures FlagsInv(WaitStep(s)) && (WaitStep(s).controller.KillClearsRunning? ==> !WaitStep(s).f.handle)
  {
    hide MutexesInv;
  }

  lemma KillKeepsInv(s: State)
    requires Inv(s) && Enabled(s, ControllerStep) && !InStart(s.controller) && !InWait(s.controller)
    ensures Inv(KillStep(s))
  {
  }

  lemma WorkerKeepsInv(s: State)
    requires Inv(s) && Enabled(s, WorkerStep)
    ensures Inv(Worked(s))
  {
  }

  lemma OthersKeepInv(s: State, a: Action)
    requires Inv(s) && Enabled(s, a) && a != ControllerStep && a != WorkerStep
    ensures Inv(Apply(s, a))
  {
  }

  lemma StepKeepsInv(s: State, a: Action)
    requires Inv(s) && Enabled(s, a)
    ensures Inv(Apply(s, a))
  {
    match a {
      case ControllerStep =>
        if BeforeCreation(s.controller) {
          CreationKeepsInv(s);
        } else if InStart(s.controller) {
          MeetingKeepsInv(s);
        } else if InWait(s.controller) {
          WaitKeepsMutexes(s);
          WaitKeepsPlaces(s);
          WaitKeepsFlags(s);
        } else {
          KillKeepsInv(s);
        }
        hide CreationStep, MeetingStep, WaitStep, KillStep, MutexesInv, PlacesInv, FlagsInv;
      case WorkerStep =>
        WorkerKeepsInv(s);
        hide Worked, Inv;
      case _ =>
        OthersKeepInv(s, a);
        hide Apply, Inv;
    }
  }

  lemma {:induction false} RunKeepsInv(s: State, actions: seq<Action>)
    requires Inv(s) && Runs(s, actions)
    ensures Inv(Final(s, actions))
    decreases |actions|
  {
    if actions != [] {
      StepKeepsInv(s, actions[0]);
      RunKeepsInv(Apply(s, actions[0]), actions[1..]);
    }
  }

  ghost predicate Reachable(s: State) {
    exists actions :: Runs(INITIAL, actions) && Final(INITIAL, actions) == s
  }

  lemma ReachableInv(s: State)
    requires Reachable(s)
    ensures Inv(s)
  {
    var actions :| Runs(INITIAL, actions) && Final(INITIAL, actions) == s;
    RunKeepsInv(INITIAL, actions);
  }

  // ---- Safety ----

  /** Over every interleaving: run() is entered only with started set; while start() spins the flag it looks for, once
      set, stays set; start() returns true only after ThreadStarted(). */
  lemma HandshakeIsSafe(s: State, a: Action)
    requires Reachable(s) && Enabled(s, a)
    ensures var t := Apply(s, a);
            && (t.worker.RunsUnannounced? && !s.worker.RunsUnannounced? ==> t.f.started)
            && (s.controller.StartSpins? && s.f.running ==> t.f.running)
            && (s.controller.StartUnlocksSecond? && a.ControllerStep? ==>
                  t.g.startResult && t.g.announced && t.f.started)
  {
    ReachableInv(s);
    hide MutexesInv;
    if a.ControllerStep? {
      hide Worked, AfterWait;
    } else {
      hide CreationStep, MeetingStep, WaitStep, KillStep;
    }
  }

  /** Between two calls both mutexes are free; the calls that reap a worker leave nothing of it behind. */
  lemma IdleIsClean(s: State)
    requires Reachable(s) && !s.aborted && s.controller == Idle
    ensures s.m.first == Free && s.m.second == Free && s.f.started == s.f.handle
    ensures s.f.running ==> s.f.handle && (s.worker.RunsAnnounced? || s.worker.ClearsRunning?)
  {
    ReachableInv(s);
  }

  lemma ReapedWhenWaitOrKillReturns(s: State)
    requires Reachable(s) && Enabled(s, ControllerStep) && !InStart(s.controller)
    requires Controlled(s).controller == Idle
    ensures var t := Controlled(s);
            t.worker.Absent? && !t.f.handle && !t.f.running && !t.f.started && !t.g.cancelled
  {
    ReachableInv(s);
    hide MutexesInv, CreationStep, MeetingStep, Worked;
  }

  // ---- What a call does, from its first look at m_running to its return ----

  predicate InCall(s: State) {
    !s.aborted && s.controller != Idle
  }

  /** The actions can be taken from s, and a call is in progress until the last of them, with which it returns. */
  predicate Returns(s: State, actions: seq<Action>)
    decreases |actions|
  {
    if actions == [] then !s.aborted && s.controller == Idle
    else InCall(s) && Enabled(s, actions[0]) && Returns(Apply(s, actions[0]), actions[1..])
  }

  /** How many workers come up in a run. */
  function Created(s: State, actions: seq<Action>): nat
    decreases |actions|
  {
    if actions == [] then 0
    else
      var t := Apply(s, actions[0]);
      (if t.worker.LocksSecond? && !s.worker.LocksSecond? then 1 else 0) + Created(t, actions[1..])
  }

  /** How many times a worker is sent a cancellation in a run. */
  function Cancelled(s: State, actions: seq<Action>): nat
    decreases |actions|
  {
    if actions == [] then 0
    else
      var t := Apply(s, actions[0]);
      (if t.g.cancelled && !s.g.cancelled then 1 else 0) + Cancelled(t, actions[1..])
  }

  /** The stop flag is set by stop(), taken back by start(), and touched by nothing else. */
  lemma StopFlag(s: State, a: Action)
    requires Enabled(s, a)
    ensures Apply(s, a).f.stopRequested <==>
            a.CallStop? || (s.f.stopRequested && !(a.ControllerStep? && s.controller.StartClearsStop?))
  {
  }

  /** A cancellation is sent by kill() on a running thread alone, and a worker ends early only of one. */
  lemma CancelFlag(s: State, a: Action)
    requires Reachable(s) && Enabled(s, a)
    ensures Apply(s, a).g.cancelled && !s.g.cancelled <==> a.ControllerStep? && s.controller.KillCancels?
    ensures a.WorkerDies? ==> s.g.cancelled && InKill(s)
  {
    ReachableInv(s);
    hide MutexesInv, CreationStep, MeetingStep;
  }

  /** A step of start() past its look at m_running. */
  lemma StartStep(s: State, a: Action)
    requires Inv(s) && Enabled(s, a) && InStart(s.controller) && !s.controller.StartChecksRunning?
    requires !s.controller.StartClearsStop? ==> !s.f.stopRequested
    ensures var t := Apply(s, a);
            && (!t.aborted && t.controller != Idle ==> InStart(t.controller) && !t.controller.StartChecksRunning?)
            && (!t.aborted && !t.controller.StartClearsStop? ==> !t.f.stopRequested)
            && (t.controller == Idle ==> t.g.startResult && t.g.announced && t.f.handle && t.f.started)
            && (BeforeCreation(s.controller) && !BeforeCreation(t.controller) && !t.aborted ==>
                  t.worker.LocksSecond? && !s.worker.LocksSecond?)
            && (BeforeCreation(s.controller) == BeforeCreation(t.controller) ==>
                  (t.worker.LocksSecond? ==> s.worker.LocksSecond?))
            && (!BeforeCreation(s.controller) ==> !BeforeCreation(t.controller))
  {
    hide MutexesInv, WaitStep, KillStep;
  }

  lemma {:induction false} StartGoesOn(s: State, actions: seq<Action>)
    requires Inv(s) && Returns(s, actions) && InStart(s.controller) && !s.controller.StartChecksRunning?
    requires !s.controller.StartClearsStop? ==> !s.f.stopRequested
    ensures var t := Final(s, actions);
            && t.g.startResult && t.g.announced && t.f.handle && t.f.started && !t.f.stopRequested
            && Created(s, actions) == if BeforeCreation(s.controller) then 1 else 0
    decreases |actions|
  {
    StepKeepsInv(s, actions[0]);
    StartStep(s, actions[0]);
    hide Inv, Apply, Enabled;
    if actions[1..] != [] {
      StartGoesOn(Apply(s, actions[0]), actions[1..]);
    }
  }

  /** start() on a thread it finds running returns false and changes nothing. Otherwise it takes back an earlier
      stop(), creates one worker, and returns true after that worker has called ThreadStarted(). */
  lemma StartAnswers(s: State, actions: seq<Action>)
    requires Reachable(s) && s.controller.StartChecksRunning?
    requires Returns(s, actions) && actions[0] == ControllerStep
    ensures var t := Final(s, actions);
            && t.g.startResult == !s.f.running
            && Created(s, actions) == (if s.f.running then 0 else 1)
            && (s.f.running ==> t.f == s.f && t.worker == s.worker)
            && (!s.f.running ==> t.g.announced && t.f.handle && t.f.started && !t.f.stopRequested)
  {
    ReachableInv(s);
    StepKeepsInv(s, actions[0]);
    hide Inv, Enabled;
    if !s.f.running {
      StartGoesOn(Apply(s, actions[0]), actions[1..]);
    }
  }

  /** From the call on: start() returns true exactly when it has created a worker, and false only on a thread that ran
      when it was called. */
  lemma {:induction false} WholeStart(s: State, actions: seq<Action>)
    requires Inv(s) && s.controller.StartChecksRunning? && Returns(s, actions)
    ensures var t := Final(s, actions);
            && Created(s, actions) == (if t.g.startResult then 1 else 0)
            && (t.g.startResult ==> t.g.announced && t.f.handle && t.f.started && !t.f.stopRequested)
            && (!t.g.startResult ==> s.f.running && t.f.handle == s.f.handle && t.f.stopRequested == s.f.stopRequested)
    decreases |actions|
  {
    StepKeepsInv(s, actions[0]);
    if actions[0] == ControllerStep {
      if !s.f.running {
        StartGoesOn(Apply(s, actions[0]), actions[1..]);
      }
    } else {
      BeforeLook(s, actions[0]);
      hide Inv, Enabled, Apply;
      WholeStart(Apply(s, actions[0]), actions[1..]);
    }
  }

  /** Until a call looks at m_running, the worker can only end. */
  lemma BeforeLook(s: State, a: Action)
    requires Inv(s) && Enabled(s, a) && a != ControllerStep
    requires s.controller.StartChecksRunning? || s.controller.KillChecksRunning?
    ensures var t := Apply(s, a);
            && t.controller == s.controller && !t.aborted && t.g == s.g && !t.worker.LocksSecond?
            && t.f == s.f.(running := t.f.running) && (t.f.running ==> s.f.running)
  {
    hide MutexesInv, Controlled;
  }

  /** Nothing is left of the worker. */
  predicate IsClean(s: State) {
    s.worker.Absent? && !s.f.handle && !s.f.running && !s.f.started && !s.g.cancelled
  }

  lemma WaitStepIs(s: State, a: Action)
    requires Inv(s) && Enabled(s, a) && InWait(s.controller) && !s.g.killing
    ensures var t := Apply(s, a);
            && !t.aborted && t.f.stopRequested == s.f.stopRequested
            && t.g == s.g && !t.g.cancelled
            && (if t.controller == Idle then IsClean(t) else InWait(t.controller))
  {
    hide MutexesInv, CreationStep, MeetingStep, KillStep;
  }

  /** wait() returns when the worker has ended by itself and been reaped; it answers nothing and cancels nobody. */
  lemma {:induction false} WholeWait(s: State, actions: seq<Action>)
    requires Inv(s) && InWait(s.controller) && !s.g.killing && Returns(s, actions)
    ensures IsClean(Final(s, actions)) && Final(s, actions).g == s.g
    ensures Final(s, actions).f.stopRequested == s.f.stopRequested && Cancelled(s, actions) == 0
    decreases |actions|
  {
    StepKeepsInv(s, actions[0]);
    WaitStepIs(s, actions[0]);
    hide Inv, Apply, Enabled;
    if actions[1..] != [] {
      WholeWait(Apply(s, actions[0]), actions[1..]);
    }
  }

  /** Each call begins as it should. */
  lemma CallsBegin(s: State, a: Action)
    requires Inv(s) && Enabled(s, a)
    ensures a == CallStart ==> Apply(s, a) == s.(controller := StartChecksRunning)
    ensures a == CallKill ==> Apply(s, a) == s.(controller := KillChecksRunning)
    ensures a == CallWait ==> InWait(Apply(s, a).controller) && !Apply(s, a).g.killing
    ensures a == CallStop ==> Apply(s, a) == s.(f := s.f.(stopRequested := true))
  {
  }

  /** kill() is past its look at m_running, which found it as given. */
  predicate KillGoesOn(s: State, found: bool) {
    && !s.aborted
    && (s.controller.KillCancels? || InWait(s.controller) || s.controller.KillClearsRunning?)
    && (s.controller.KillCancels? ==> found && s.f.handle && !s.g.cancelled)
    && (!s.controller.KillCancels? ==>
          if found then InKill(s) && (!s.worker.Absent? ==> s.g.cancelled)
          else InWait(s.controller) && !s.g.killing && !s.g.killResult)
  }

  lemma KillStepIs(s: State, a: Action, found: bool)
    requires Inv(s) && Enabled(s, a) && KillGoesOn(s, found)
    ensures var t := Apply(s, a);
            && (if t.controller == Idle then !t.aborted && t.g.killResult == found && IsClean(t)
                else KillGoesOn(t, found))
            && (t.g.cancelled && !s.g.cancelled <==> s.controller.KillCancels? && !t.controller.KillCancels?)
            && (t.controller.KillCancels? ==> s.controller.KillCancels?)
  {
    hide MutexesInv, CreationStep, MeetingStep;
  }

  lemma {:induction false} KillGoesOnToEnd(s: State, actions: seq<Action>, found: bool)
    requires Inv(s) && Returns(s, actions) && KillGoesOn(s, found)
    ensures Final(s, actions).g.killResult == found && IsClean(Final(s, actions))
    ensures Cancelled(s, actions) == if s.controller.KillCancels? then 1 else 0
    decreases |actions|
  {
    StepKeepsInv(s, actions[0]);
    KillStepIs(s, actions[0], found);
    hide Inv, Apply, Enabled, KillGoesOn;
    if actions[1..] != [] {
      KillGoesOnToEnd(Apply(s, actions[0]), actions[1..], found);
    }
  }

  /** kill() sends the worker one cancellation and returns true if it finds the thread running; otherwise it only waits
      and returns false. */
  lemma KillAnswers(s: State, actions: seq<Action>)
    requires Reachable(s) && s.controller.KillChecksRunning?
    requires Returns(s, actions) && actions[0] == ControllerStep
    ensures Final(s, actions).g.killResult == s.f.running && IsClean(Final(s, actions))
    ensures Cancelled(s, actions) == if s.f.running then 1 else 0
  {
    ReachableInv(s);
    StepKeepsInv(s, actions[0]);
    KillLooks(s);
    hide Inv, Apply, Enabled, KillGoesOn;
    KillGoesOnToEnd(Apply(s, actions[0]), actions[1..], s.f.running);
  }

  /** From the call on: kill() returns true exactly when it has sent a cancellation, which it does only to a thread that
      ran when it was called; either way nothing is left of the worker. */
  lemma {:induction false} WholeKill(s: State, actions: seq<Action>)
    requires Inv(s) && s.controller.KillChecksRunning? && Returns(s, actions)
    ensures var t := Final(s, actions);
            && Cancelled(s, actions) == (if t.g.killResult then 1 else 0)
            && (t.g.killResult ==> s.f.running) && IsClean(t)
    decreases |actions|
  {
    StepKeepsInv(s, actions[0]);
    if actions[0] == ControllerStep {
      KillLooks(s);
      hide Inv, Apply, Enabled, KillGoesOn;
      KillGoesOnToEnd(Apply(s, actions[0]), actions[1..], s.f.running);
    } else {
      BeforeLook(s, actions[0]);
      hide Inv, Enabled, Apply;
      WholeKill(Apply(s, actions[0]), actions[1..]);
    }
  }

  lemma KillLooks(s: State)
    requires Inv(s) && Enabled(s, ControllerStep) && s.controller.KillChecksRunning?
    ensures var t := Apply(s, ControllerStep);
            KillGoesOn(t, s.f.running) && t.g.cancelled == s.g.cancelled && (t.controller.KillCancels? <==> s.f.running)
  {
    hide MutexesInv, CreationStep, MeetingStep;
  }

  /** The next action of a kill() for which the worker does nothing. */
  function NextOfKill(s: State): Action {
    if s.controller.WaitJoins? && s.worker.RunsAnnounced? then WorkerDies else ControllerStep
  }

  lemma KillCanGoOn(s: State)
    requires Inv(s) && KillGoesOn(s, true) && (s.worker.RunsAnnounced? || s.worker.Ended? || s.worker.Absent?)
    ensures Enabled(s, NextOfKill(s))
    ensures var t := Apply(s, NextOfKill(s));
            Rank(t) < Rank(s) && (t.worker.RunsAnnounced? || t.worker.Ended? || t.worker.Absent?)
  {
    hide MutexesInv, CreationStep, MeetingStep;
  }

  /** kill() gets rid of a worker that would never return from run(): it can return without a step of the worker. */
  lemma {:induction false} KillNeedsNoHelp(s: State) returns (actions: seq<Action>)
    requires Inv(s) && KillGoesOn(s, true) && (s.worker.RunsAnnounced? || s.worker.Ended? || s.worker.Absent?)
    ensures Returns(s, actions) && forall i | 0 <= i < |actions| :: actions[i] != WorkerStep
    decreases Rank(s)
  {
    var a := NextOfKill(s);
    KillCanGoOn(s);
    KillStepIs(s, a, true);
    StepKeepsInv(s, a);
    hide Inv, Apply, Enabled, Rank;
    var rest := [];
    if Apply(s, a).controller != Idle {
      rest := KillNeedsNoHelp(Apply(s, a));
    }
    actions := [a] + rest;
    assert actions[1..] == rest;
  }

  // ---- The one way to end the process ----

  /** start() ends the process exactly when it has found the thread not running while an earlier worker, which has
      ended by itself, has not been reaped by wait() or kill(). */
  lemma AbortsExactly(s: State, a: Action)
    requires Reachable(s) && Enabled(s, a)
    ensures Apply(s, a).aborted <==> a.ControllerStep? && s.controller.StartCreatesThread? && s.f.handle
    ensures Apply(s, a).aborted ==> s.worker.Ended?
  {
    ReachableInv(s);
    hide MutexesInv, CreationStep, MeetingStep, WaitStep, KillStep, Worked;
  }

  predicate CreatesNext(c: Controller) {
    c.StartClearsStop? || c.StartLocksFirst? || c.StartCreatesThread?
  }

  /** The outcome is decided when start() looks at m_running: nobody else touches the handle before the creation. */
  lemma {:induction false} StartOutcomeIsDecided(s: State, actions: seq<Action>)
    requires Inv(s) && !s.aborted && Runs(s, actions)
    requires CreatesNext(s.controller)
    requires forall i | 0 <= i < |actions| :: !actions[i].CallStart?
    ensures Final(s, actions).aborted ==> s.f.handle
    ensures s.f.handle ==> Final(s, actions).aborted || CreatesNext(Final(s, actions).controller)
    decreases |actions|
  {
    if actions != [] {
      var t := Apply(s, actions[0]);
      StepKeepsInv(s, actions[0]);
      if t.aborted {
        assert actions[1..] == [];
      } else if t.controller.StartSpins? {
        NoAbortWithoutStart(t, actions[1..]);
      } else {
        StartOutcomeIsDecided(t, actions[1..]);
      }
    }
  }

  lemma StepAwayFromCreation(s: State, a: Action)
    requires Enabled(s, a) && !a.CallStart? && !BeforeCreation(s.controller)
    ensures !Apply(s, a).aborted && !BeforeCreation(Apply(s, a).controller)
  {
    hide CreationStep, MeetingStep, WaitStep, KillStep, Worked;
  }

  lemma {:induction false} NoAbortWithoutStart(s: State, actions: seq<Action>)
    requires !s.aborted && Runs(s, actions) && !BeforeCreation(s.controller)
    requires forall i | 0 <= i < |actions| :: !actions[i].CallStart?
    ensures !Final(s, actions).aborted
    decreases |actions|
  {
    if actions != [] {
      hide Enabled, Apply, BeforeCreation;
      StepAwayFromCreation(s, actions[0]);
      NoAbortWithoutStart(Apply(s, actions[0]), actions[1..]);
    }
  }

  /** Whenever start() looks at m_running it finds it set, or there is no thread that has not been reaped. */
  predicate Disciplined(s: State, actions: seq<Action>)
    decreases |actions|
  {
    actions == [] || (!FindsUnreaped(s, actions[0]) && Disciplined(Apply(s, actions[0]), actions[1..]))
  }

  /** start() finds the thread not running, and its handle still there. */
  predicate FindsUnreaped(s: State, a: Action) {
    a.ControllerStep? && s.controller.StartChecksRunning? && !s.f.running && s.f.handle
  }

  /** The process has ended, or a start() is on its way to end it. */
  predicate Doomed(s: State) {
    s.aborted || (CreatesNext(s.controller) && s.f.handle)
  }

  lemma DoomedStepExactly(s: State, a: Action)
    requires Enabled(s, a)
    ensures Doomed(Apply(s, a)) <==> Doomed(s) || FindsUnreaped(s, a)
  {
    hide MeetingStep, WaitStep, KillStep, Worked;
  }

  lemma {:induction false} DoomedStays(s: State, actions: seq<Action>)
    requires Doomed(s) && Runs(s, actions)
    ensures Doomed(Final(s, actions))
    decreases |actions|
  {
    if actions != [] {
      hide Enabled, Apply, Doomed, FindsUnreaped;
      DoomedStepExactly(s, actions[0]);
      DoomedStays(Apply(s, actions[0]), actions[1..]);
    }
  }

  /** A run ends the process, or leaves a start() nothing else to do than end it, exactly when some start() in it
      found the thread not running and not reaped. Calling start() on a running thread harms nothing. */
  lemma {:induction false} DisciplinedExactly(s: State, actions: seq<Action>)
    requires !Doomed(s) && Runs(s, actions)
    ensures Disciplined(s, actions) <==> !Doomed(Final(s, actions))
    decreases |actions|
  {
    if actions != [] {
      hide Enabled, Apply, Doomed, FindsUnreaped;
      DoomedStepExactly(s, actions[0]);
      if Doomed(Apply(s, actions[0])) {
        DoomedStays(Apply(s, actions[0]), actions[1..]);
      } else {
        DisciplinedExactly(Apply(s, actions[0]), actions[1..]);
      }
    }
  }

  lemma DisciplinedRunsNeverAbort(s: State, actions: seq<Action>)
    requires !Doomed(s) && Runs(s, actions) && Disciplined(s, actions)
    ensures !Final(s, actions).aborted
  {
    DisciplinedExactly(s, actions);
  }

  lemma {:induction false} RunsAppend(s: State, actions: seq<Action>, a: Action)
    requires Runs(s, actions) && Enabled(Final(s, actions), a)
    ensures Runs(s, actions + [a]) && Final(s, actions + [a]) == Apply(Final(s, actions), a)
    decreases |actions|
  {
    if actions == [] {
      assert Runs(Apply(s, a), []);
    } else {
      assert (actions + [a])[1..] == actions[1..] + [a];
      RunsAppend(Apply(s, actions[0]), actions[1..], a);
    }
  }

  lemma Go(s: State, a: Action) returns (t: State)
    requires Reachable(s) && Enabled(s, a)
    ensures t == Apply(s, a) && Reachable(t)
  {
    var actions :| Runs(INITIAL, actions) && Final(INITIAL, actions) == s;
    RunsAppend(INITIAL, actions, a);
    t := Apply(s, a);
  }

  // A thread started and running, the same after its run() has returned, and a second start() about to create.
  const UP := State(Idle, RunsAnnounced, Mutexes(Free, Free), Fields(true, true, false, true),
                    Call(false, false, true, true, false), false)
  const OVER := State(Idle, Ended, Mutexes(Free, Free), Fields(false, true, false, true),
                      Call(false, false, true, true, false), false)
  const SPINNING := State(StartSpins, LocksSecond, Mutexes(ByController, Free), Fields(false, false, false, true),
                          Call(false, false, false, false, false), false)
  const WAITING := State(StartLocksSecond, LocksFirst, Mutexes(Free, ByWorker), Fields(true, true, false, true),
                         Call(false, false, false, false, false), false)

  lemma StartReachesSpin()
    ensures Reachable(SPINNING)
  {
    assert Reachable(INITIAL) by {
      assert Runs(INITIAL, []) && Final(INITIAL, []) == INITIAL;
    }
    hide Reachable;
    var s := Go(INITIAL, CallStart);
    s := Go(s, ControllerStep);
    s := Go(s, ControllerStep);
    s := Go(s, ControllerStep);
    s := Go(s, ControllerStep);
  }

  lemma StartReachesWait()
    ensures Reachable(WAITING)
  {
    StartReachesSpin();
    hide Reachable;
    var s := Go(SPINNING, WorkerStep);
    s := Go(s, WorkerStep);
    s := Go(s, ControllerStep);
    s := Go(s, ControllerStep);
    s := Go(s, ControllerStep);
  }

  lemma StartReachesUp()
    ensures Reachable(UP)
  {
    StartReachesWait();
    hide Reachable;
    var s := Go(WAITING, WorkerStep);
    s := Go(s, WorkerStep);
    s := Go(s, WorkerStep);
    s := Go(s, ControllerStep);
    s := Go(s, ControllerStep);
  }

  /** Undisciplined, it can happen: start, the worker returns by itself, start again. */
  lemma StartTwiceAborts()
    ensures exists s :: Reachable(s) && s.aborted
  {
    StartReachesUp();
    hide Reachable;
    var s := Go(UP, WorkerStep);
    s := Go(s, WorkerStep);
    assert s == OVER;
    s := Go(OVER, CallStart);
    s := Go(s, ControllerStep);
    s := Go(s, ControllerStep);
    s := Go(s, ControllerStep);
    s := Go(s, ControllerStep);
  }

  // ---- Progress ----

  /** A step that changes nothing: the spin loop has not seen the flag yet. */
  predicate Spins(s: State, a: Action) {
    a.ControllerStep? && s.controller.StartSpins? && !s.f.running
  }

  /** Steps a call in progress can still take, the worker's included. */
  function Rank(s: State): nat {
    8 * ControllerRank(s.controller) + WorkerRank(s.worker)
  }

  lemma ControllerGetsNearer(s: State)
    requires Enabled(s, ControllerStep) && !Spins(s, ControllerStep)
    ensures Controlled(s).aborted || Rank(Controlled(s)) < Rank(s)
  {
    hide Inv, CreationStep, MeetingStep, WaitStep, KillStep, Worked;
  }

  lemma WorkerGetsNearer(s: State, a: Action)
    requires Enabled(s, a) && (a == WorkerStep || a == WorkerDies)
    ensures Rank(Apply(s, a)) < Rank(s)
  {
    hide Controlled, Worked, ControllerRank;
  }

  lemma SomebodyCanStep(s: State)
    requires Inv(s) && !s.aborted && s.controller != Idle
    ensures (Enabled(s, ControllerStep) && !Spins(s, ControllerStep)) || Enabled(s, WorkerStep)
  {
  }

  /** No call in progress is ever stuck: some step other than spinning is enabled (when it is run() itself that is
      awaited, that step is run()'s), and every such step brings the call nearer to its end. */
  lemma CallsMakeProgress(s: State)
    requires Reachable(s) && !s.aborted && s.controller != Idle
    ensures exists a :: Enabled(s, a) && !Spins(s, a)
    ensures forall a | Enabled(s, a) && !Spins(s, a) :: Apply(s, a).aborted || Rank(Apply(s, a)) < Rank(s)
  {
    ReachableInv(s);
    SomebodyCanStep(s);
    forall a | Enabled(s, a) && !Spins(s, a) ensures Apply(s, a).aborted || Rank(Apply(s, a)) < Rank(s) {
      OnlyStepsInACall(s, a);
      hide Inv, Enabled, Rank, Spins, Controlled, Worked;
      if a == ControllerStep {
        ControllerGetsNearer(s);
      } else {
        WorkerGetsNearer(s, a);
      }
    }
    hide Inv, Rank, Apply, Enabled;
    if !(Enabled(s, ControllerStep) && !Spins(s, ControllerStep)) {
      assert Enabled(s, WorkerStep) && !Spins(s, WorkerStep);
    }
  }

  lemma OnlyStepsInACall(s: State, a: Action)
    requires Enabled(s, a) && s.controller != Idle
    ensures a == ControllerStep || a == WorkerStep || a == WorkerDies
  {
  }

  function Useful(s: State, actions: seq<Action>): nat
    decreases |actions|
  {
    if actions == [] then 0
    else (if Spins(s, actions[0]) then 0 else 1) + Useful(Apply(s, actions[0]), actions[1..])
  }

  lemma {:induction false} StillInCall(s: State, actions: seq<Action>)
    requires 0 < |actions| && forall i | 0 <= i < |actions| :: InCall(Final(s, actions[..i]))
    ensures InCall(s)
    ensures forall i | 0 <= i < |actions[1..]| :: InCall(Final(Apply(s, actions[0]), actions[1..][..i]))
  {
    hide Apply, InCall;
    assert Final(s, actions[..0]) == s;
    forall i | 0 <= i < |actions[1..]| ensures InCall(Final(Apply(s, actions[0]), actions[1..][..i])) {
      var prefix := actions[..i + 1];
      assert prefix[1..] == actions[1..][..i];
      assert InCall(Final(s, prefix));
    }
  }

  /** However the two threads interleave, a call is over after at most Rank(s) steps that are not spinning. */
  lemma {:induction false} CallsAreBounded(s: State, actions: seq<Action>)
    requires Reachable(s) && Runs(s, actions)
    requires forall i | 0 <= i < |actions| :: InCall(Final(s, actions[..i]))
    ensures Useful(s, actions) <= Rank(s) + 1
    ensures Rank(s) <= 8 * 9 + 7
    decreases |actions|
  {
    if actions != [] {
      StillInCall(s, actions);
      var t := Go(s, actions[0]);
      if Spins(s, actions[0]) {
        assert t == s;
      } else {
        CallsMakeProgress(s);
      }
      hide Enabled, Apply, Rank, Spins, Reachable;
      if t.aborted {
        assert actions[1..] == [];
      }
      CallsAreBounded(t, actions[1..]);
    }
  }
}
