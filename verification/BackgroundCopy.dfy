/**
 The background copy protocol: the session thread in `start_async_copy` (src/ftp_commands.c) and
 `ftp_session_cleanup` (src/ftp_session.c), and the workers in `ftp_copy_thread_func`, which share
 copy_mutex, copy_in_progress, copy_thread and copy_thread_valid.
 */
module BackgroundCopy {
  /** The session thread. It holds the mutex in Checking, Joining, Creating and Publishing. */
  datatype Pc = Ready | Checking | Joining | Creating | Publishing | Closing | Destroying | Gone

  /** A worker: it takes the mutex, clears the flag, lets go of the mutex and returns. */
  datatype Worker = Copying | InSection | Cleared | After | Exited

  datatype Holder = Nobody | Session | Thread(w: nat)

  /** `joined[w]` counts the joins of worker `w`; `handle` is the worker copy_thread names. */
  datatype State = State(pc: Pc, mutex: Holder, inProgress: bool, valid: bool, handle: nat,
                         workers: seq<Worker>, joined: seq<nat>, destroyed: bool)

  datatype Step =
    | Request | Busy | Reject | Claim | Join | Create | CreateFails | Publish
    | Quit | LastJoin | Destroy
    | Lock(w: nat) | Clear(w: nat) | Unlock(w: nat) | Exit(w: nat)

  predicate WorkerAt(s: State, w: nat, at: Worker) {
    w < |s.workers| && s.workers[w] == at
  }

  predicate Enabled(s: State, t: Step) {
    match t
    case Request => s.pc == Ready && s.mutex == Nobody
    case Busy => s.pc == Checking && s.inProgress
    case Reject => s.pc == Checking && !s.inProgress
    case Claim => s.pc == Checking && !s.inProgress
    case Join => s.pc == Joining && WorkerAt(s, s.handle, Exited) && s.handle < |s.joined|
    case Create => s.pc == Creating
    case CreateFails => s.pc == Creating
    case Publish => s.pc == Publishing
    case Quit => s.pc == Ready
    case LastJoin => s.pc == Closing && WorkerAt(s, s.handle, Exited) && s.handle < |s.joined|
    case Destroy => s.pc == Destroying
    case Lock(w) => WorkerAt(s, w, Copying) && s.mutex == Nobody
    case Clear(w) => WorkerAt(s, w, InSection)
    case Unlock(w) => WorkerAt(s, w, Cleared)
    case Exit(w) => WorkerAt(s, w, After)
  }

  function Move(s: State, w: nat, to: Worker): State
    requires w < |s.workers|
  {
    s.(workers := s.workers[w := to])
  }

  function Apply(s: State, t: Step): State
    requires Enabled(s, t)
  {
    match t
    case Request => s.(pc := Checking, mutex := Session)
    case Busy => s.(pc := Ready, mutex := Nobody)
    case Reject => s.(pc := Ready, mutex := Nobody)
    case Claim => s.(pc := if s.valid then Joining else Creating, inProgress := true)
    case Join => s.(pc := Creating, joined := s.joined[s.handle := s.joined[s.handle] + 1])
    case Create => s.(pc := Publishing, handle := |s.workers|, workers := s.workers + [Copying],
      joined := s.joined + [0])
    case CreateFails => s.(pc := Ready, inProgress := false, valid := false, mutex := Nobody)
    case Publish => s.(pc := Ready, valid := true, mutex := Nobody)
    case Quit => s.(pc := if s.valid then Closing else Destroying)
    case LastJoin => s.(pc := Destroying, joined := s.joined[s.handle := s.joined[s.handle] + 1])
    case Destroy => s.(pc := Gone, destroyed := true)
    case Lock(w) => Move(s, w, InSection).(mutex := Thread(w))
    case Clear(w) => Move(s, w, Cleared).(inProgress := false)
    case Unlock(w) => Move(s, w, After).(mutex := Nobody)
    case Exit(w) => Move(s, w, Exited)
  }

  predicate Init(s: State) {
    s == State(Ready, Nobody, false, false, 0, [], [], false)
  }

  // ---- The invariant ----------------------------------------------------------------------------

  predicate HoldsMutex(pc: Pc) {
    pc == Checking || pc == Joining || pc == Creating || pc == Publishing
  }

  /** The worker has not finished with the mutex. */
  predicate NeedsMutex(k: Worker) {
    k == Copying || k == InSection || k == Cleared
  }

  /** The worker copy_thread names is still to be joined. */
  predicate Pending(s: State) {
    (s.valid && (s.pc == Ready || s.pc == Checking || s.pc == Joining || s.pc == Closing)) || s.pc == Publishing
  }

  ghost predicate MutexInv(s: State) {
    && (s.mutex == Session <==> HoldsMutex(s.pc))
    && (forall w :: 0 <= w < |s.workers| ==>
          (s.workers[w] == InSection || s.workers[w] == Cleared <==> s.mutex == Thread(w)))
    && (s.mutex.Thread? ==> s.mutex.w < |s.workers|)
    && (s.destroyed <==> s.pc == Gone)
  }

  ghost predicate JoinInv(s: State) {
    && |s.joined| == |s.workers| && (Pending(s) ==> s.handle < |s.workers|)
    && (s.pc == Joining || s.pc == Closing ==> s.valid)
    && (forall w :: 0 <= w < |s.joined| ==> s.joined[w] == if Pending(s) && w == s.handle then 0 else 1)
    && (forall w :: 0 <= w < |s.workers| && s.joined[w] == 1 ==> s.workers[w] == Exited)
  }

  ghost predicate FlagInv(s: State)
    requires JoinInv(s)
  {
    && (s.pc != Joining && s.pc != Creating ==>
          (s.inProgress <==> Pending(s) && (s.workers[s.handle] == Copying || s.workers[s.handle] == InSection)))
    && (s.pc == Joining || s.pc == Creating ==> s.inProgress)
    && (s.pc == Joining ==> !NeedsMutex(s.workers[s.handle]))
  }

  ghost predicate Inv(s: State) {
    MutexInv(s) && JoinInv(s) && FlagInv(s)
  }

  lemma SessionStep(s: State, t: Step)
    requires Inv(s) && Enabled(s, t) && !(t.Lock? || t.Clear? || t.Unlock? || t.Exit?)
    ensures Inv(Apply(s, t))
  {
  }

  lemma WorkerStep(s: State, t: Step)
    requires Inv(s) && Enabled(s, t) && (t.Lock? || t.Clear? || t.Unlock? || t.Exit?)
    ensures Inv(Apply(s, t))
  {
  }

  predicate RunOk(s: State, steps: seq<Step>)
    decreases |steps|
  {
    steps == [] || (Enabled(s, steps[0]) && RunOk(Apply(s, steps[0]), steps[1..]))
  }

  function Run(s: State, steps: seq<Step>): State
    requires RunOk(s, steps)
    decreases |steps|
  {
    if steps == [] then s else Run(Apply(s, steps[0]), steps[1..])
  }

  lemma {:induction false} RunKeeps(s: State, steps: seq<Step>)
    requires Inv(s) && RunOk(s, steps)
    ensures Inv(Run(s, steps))
    decreases |steps|
  {
    if steps != [] {
      var t := steps[0];
      if t.Lock? || t.Clear? || t.Unlock? || t.Exit? {
        WorkerStep(s, t);
      } else {
        SessionStep(s, t);
      }
      RunKeeps(Apply(s, t), steps[1..]);
    }
  }

  // ---- What holds in every interleaving -----------------------------------------------------------

  /** At most one worker still needs the mutex, and none does while the session joins with the mutex held. */
  lemma OneWorkerAtATime(s: State, steps: seq<Step>, w: nat, u: nat)
    requires Init(s) && RunOk(s, steps) && w < |Run(s, steps).workers| && NeedsMutex(Run(s, steps).workers[w])
    ensures var r := Run(s, steps);
      && (u < |r.workers| && NeedsMutex(r.workers[u]) ==> u == w)
      && r.pc != Joining && r.pc != Creating && r.pc != Destroying && !r.destroyed
  {
    RunKeeps(s, steps);
  }

  /** The caller is told that a copy is in progress only while a worker is copying. */
  lemma BusyIsTrue(s: State, steps: seq<Step>)
    requires Init(s) && RunOk(s, steps) && Enabled(Run(s, steps), Busy)
    ensures var r := Run(s, steps); WorkerAt(r, r.handle, Copying)
  {
    RunKeeps(s, steps);
  }

  /** No worker is joined twice, and when the mutex is destroyed each has returned and been joined once. */
  lemma JoinedOnce(s: State, steps: seq<Step>)
    requires Init(s) && RunOk(s, steps)
    ensures var r := Run(s, steps);
      && |r.joined| == |r.workers| && (forall w :: 0 <= w < |r.joined| ==> r.joined[w] <= 1)
      && (r.destroyed ==> forall w :: 0 <= w < |r.workers| ==> r.joined[w] == 1 && r.workers[w] == Exited)
  {
    RunKeeps(s, steps);
  }

  // ---- Nothing is ever stuck ----------------------------------------------------------------------

  /** A step towards the end of the session. */
  function Next(s: State): Step
    requires s.pc != Gone
  {
    if s.mutex.Thread? then (if WorkerAt(s, s.mutex.w, InSection) then Clear(s.mutex.w) else Unlock(s.mutex.w))
    else match s.pc
      case Ready => Quit
      case Checking => if s.inProgress then Busy else Reject
      case Joining => if WorkerAt(s, s.handle, After) then Exit(s.handle) else Join
      case Creating => CreateFails
      case Publishing => Publish
      case Closing =>
        if WorkerAt(s, s.handle, Copying) then Lock(s.handle)
        else if WorkerAt(s, s.handle, After) then Exit(s.handle)
        else LastJoin
      case Destroying => Destroy
  }

  function PcRank(pc: Pc): nat {
    match pc
    case Joining => 7
    case Creating => 6
    case Publishing => 5
    case Checking => 5
    case Ready => 4
    case Closing => 3
    case Destroying => 2
    case Gone => 0
  }

  function WorkerRank(k: Worker): nat {
    match k
    case Copying => 4
    case InSection => 3
    case Cleared => 2
    case After => 1
    case Exited => 0
  }

  function Rank(s: State): nat {
    10 * PcRank(s.pc) + if s.handle < |s.workers| then WorkerRank(s.workers[s.handle]) else 0
  }

  lemma NextWorks(s: State)
    requires Inv(s) && s.pc != Gone
    ensures Enabled(s, Next(s)) && Rank(Apply(s, Next(s))) < Rank(s)
  {
  }

  /** From every state there is a schedule in which the workers return and the session ends. */
  lemma {:induction false} CanFinish(s: State) returns (steps: seq<Step>)
    requires Inv(s)
    ensures RunOk(s, steps) && Run(s, steps).pc == Gone
    decreases Rank(s)
  {
    if s.pc == Gone {
      steps := [];
    } else {
      NextWorks(s);
      var t := Next(s);
      if t.Lock? || t.Clear? || t.Unlock? || t.Exit? {
        WorkerStep(s, t);
      } else {
        SessionStep(s, t);
      }
      var rest := CanFinish(Apply(s, t));
      steps := [t] + rest;
      assert steps[1..] == rest;
    }
  }

  /** While the session joins with the mutex held, the one step the join waits for needs no mutex. */
  lemma JoinNeverDeadlocks(s: State, steps: seq<Step>)
    requires Init(s) && RunOk(s, steps) && Run(s, steps).pc == Joining
    ensures var r := Run(s, steps);
            Enabled(r, Join) || (Enabled(r, Exit(r.handle)) && Enabled(Apply(r, Exit(r.handle)), Join))
  {
    RunKeeps(s, steps);
  }
}
