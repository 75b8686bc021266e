/**
 The double-buffered STOR pipe of src/ftp_commands.c: the FTP thread receives into one buffer
 while a writer thread drains the other. Every step is one critical section of `mtx` or one
 system call; a run is any interleaving of them.
 */
module StorPipe {
  import opened Common

  /** Where the FTP thread (producer) is. */
  datatype Prod =
    | Top                            // about to lock and look at its active buffer
    | Waiting                        // blocked on cv_free
    | Recv(fill: nat)                // inside recv() on buf[fill], lock released
    | Hand(fill: nat, n: nat)        // recv returned n > 0 bytes
    | Finish                         // about to set `done`
    | Join                           // in pthread_join
    | Joined
    | Replied(reply: Reply)

  datatype Reply = R226 | R426 | R451

  /** Where the writer thread is. */
  datatype Writer =
    | Lock                           // about to lock and evaluate its wait condition
    | Idle                           // blocked on cv_ready
    | Write(drain: nat, n: nat)      // inside write() of buf[drain], lock released
    | End

  datatype Pipe = Pipe(
    buf: seq<seq<Byte>>,             // the two buffers' contents
    len: seq<nat>,                   // bytes handed over in each, 0 = free
    active: nat,
    error: int,
    done: bool,
    written: nat,
    ok: bool,                        // no receive error so far
    p: Prod,
    w: Writer,
    file: seq<Byte>,                 // the temporary file
    dest: seq<Byte>,                 // what the destination path holds
    handed: seq<Byte>,               // everything handed to the writer, in order
    overrun: bool                    // a buffer was handed over while the other one was not picked up
  )

  datatype Step =
    | ProdTop
    | SpuriousProd
    | Scribble(junk: seq<Byte>)      // recv() storing part of its data
    | RecvData(data: seq<Byte>)
    | RecvEof
    | RecvEintr
    | RecvError
    | HandOff
    | SetDone
    | JoinWriter
    | Commit(renamed: bool)
    | WriterLock
    | SpuriousWriter
    | WriteOk
    | WriteFail(stored: nat, errno: int)

  function Init(old_: seq<Byte>): Pipe {
    Pipe([[], []], [0, 0], 0, 0, false, 0, true, Top, Lock, [], old_, [], false)
  }

  predicate Enabled(s: Pipe, step: Step) {
    match step
    case ProdTop => s.p.Top?
    case SpuriousProd => s.p.Waiting?
    case Scribble(_) => s.p.Recv?
    case RecvData(data) => s.p.Recv? && data != []
    case RecvEof => s.p.Recv?
    case RecvEintr => s.p.Recv?
    case RecvError => s.p.Recv?
    case HandOff => s.p.Hand?
    case SetDone => s.p.Finish?
    case JoinWriter => s.p.Join? && s.w.End?
    case Commit(_) => s.p.Joined?
    case WriterLock => s.w.Lock?
    case SpuriousWriter => s.w.Idle?
    case WriteOk => s.w.Write?
    case WriteFail(stored, _) => s.w.Write? && stored < s.w.n
  }

  /** The writer's wait loop and choice of buffer, with the lock held. */
  function WriterCheck(s: Pipe): Pipe
    requires |s.len| == 2 && s.active < 2
  {
    var drain := 1 - s.active;
    if s.len[drain] == 0 then (if s.done then s.(w := End) else s.(w := Idle))
    else s.(w := Write(drain, s.len[drain]))
  }

  function SignalFree(s: Pipe): Pipe {
    if s.p.Waiting? then s.(p := Top) else s
  }

  function SignalReady(s: Pipe): Pipe {
    if s.w.Idle? then s.(w := Lock) else s
  }

  /** The writer's bookkeeping after a complete write, before it looks for the next buffer. */
  function AfterWrite(s: Pipe): Pipe
    requires Shape(s) && s.w.Write?
  {
    var d := s.w.drain;
    SignalFree(s.(file := s.file + s.buf[d][..s.w.n], written := s.written + s.w.n, len := s.len[d := 0], w := Lock))
  }

  function Apply(s: Pipe, step: Step): Pipe
    requires Enabled(s, step) && Shape(s)
  {
    match step
    case ProdTop =>
      if s.len[s.active] != 0 then (if s.error != 0 then s.(p := Finish) else s.(p := Waiting))
      else if s.error != 0 then s.(p := Finish)
      else s.(p := Recv(s.active))
    case SpuriousProd => s.(p := Top)
    case Scribble(junk) => s.(buf := s.buf[s.p.fill := junk])
    case RecvData(data) => s.(buf := s.buf[s.p.fill := data], p := Hand(s.p.fill, |data|))
    case RecvEof => s.(p := Finish)
    case RecvEintr => s.(p := Top)
    case RecvError => s.(ok := false, p := Finish)
    case HandOff =>
      var f := s.p.fill;
      SignalReady(s.(len := s.len[f := s.p.n], active := 1 - f, p := Top,
                     handed := s.handed + s.buf[f][..s.p.n],
                     overrun := s.overrun || (s.len[1 - f] != 0 && !(s.w.Write? && s.w.drain == 1 - f))))
    case SetDone => SignalReady(s.(done := true, p := Join))
    case JoinWriter => s.(p := Joined)
    case Commit(renamed) =>
      if !s.ok || s.error != 0 then s.(p := Replied(R426))
      else if renamed then s.(p := Replied(R226), dest := s.file)
      else s.(p := Replied(R451))
    case WriterLock => WriterCheck(s)
    case SpuriousWriter => s.(w := Lock)
    case WriteOk => WriterCheck(AfterWrite(s))
    case WriteFail(stored, errno) =>
      var d := s.w.drain;
      SignalFree(s.(file := s.file + s.buf[d][..stored], error := errno, len := s.len[d := 0], w := End))
  }

  /** The fields are within range: what makes every step well defined. */
  ghost predicate Shape(s: Pipe) {
    && |s.buf| == 2 && |s.len| == 2 && s.active < 2
    && (forall i :: 0 <= i < 2 ==> s.len[i] <= |s.buf[i]|)
    && (s.p.Recv? ==> s.p.fill == s.active && s.len[s.active] == 0)
    && (s.p.Hand? ==> s.p.fill == s.active && s.len[s.active] == 0 && 0 < s.p.n <= |s.buf[s.active]|)
    && (s.w.Write? ==> s.w.drain < 2 && 0 < s.w.n == s.len[s.w.drain])
    && (s.done <==> s.p.Join? || s.p.Joined? || s.p.Replied?)
    && (s.p.Joined? || s.p.Replied? ==> s.w.End?)
  }

  function Pending(s: Pipe, i: nat): seq<Byte>
    requires i < |s.buf| && i < |s.len| && s.len[i] <= |s.buf[i]|
  {
    s.buf[i][..s.len[i]]
  }

  /** No overrun so far: what is still to be written is known, in order. */
  ghost predicate Good(s: Pipe)
    requires Shape(s)
  {
    var a := s.active;
    && (s.p.Waiting? ==> s.w.Write? && s.w.drain == a)
    && match s.w
       case Write(d, _) =>
         if d == 1 - a then s.len[a] == 0 && s.handed == s.file + Pending(s, d)
         else s.len[1 - a] > 0 && (s.p.Top? || s.p.Waiting?) && s.handed == s.file + Pending(s, d) + Pending(s, 1 - a)
       case Lock => s.len[a] == 0 && s.handed == s.file + Pending(s, 1 - a)
       case Idle => s.len == [0, 0] && s.handed == s.file && !s.done
       case End => s.len == [0, 0] && s.handed == s.file && s.done
  }

  /** After an overrun: the writer only ever looks at the newer buffer, the producer waits for the older one. */
  ghost predicate Bad(s: Pipe)
    requires Shape(s)
  {
    && s.len[s.active] > 0
    && (s.p.Top? || s.p.Waiting?)
    && !s.w.End?
    && (s.w.Write? ==> s.w.drain == 1 - s.active)
    && (s.w.Idle? ==> s.len[1 - s.active] == 0)
  }

  ghost predicate Inv(s: Pipe) {
    && Shape(s)
    && (s.error == 0 ==> if s.overrun then Bad(s) else Good(s))
    && (s.error == 0 ==> s.written == |s.file| && s.written + s.len[0] + s.len[1] == |s.handed|)
    && (s.error != 0 ==> s.w.End? && !s.p.Waiting?)
  }

  /** Well-formedness needs no more than itself. */
  lemma ShapeKeeps(s: Pipe, step: Step)
    requires Shape(s) && Enabled(s, step)
    ensures Shape(Apply(s, step))
  {
    match step
    case WriteOk =>
      ShapeAfterWrite(s);
      ShapeCheck(AfterWrite(s));
    case WriterLock => ShapeCheck(s);
    case WriteFail(stored, errno) => ShapeWriteFail(s, stored, errno);
    case HandOff => ShapeHandOff(s);
    case Scribble(junk) => ShapeBuffer(s, junk);
    case RecvData(data) => ShapeBuffer(s, data);
    case _ => ShapeOther(s, step);
  }

  lemma ShapeCheck(s: Pipe)
    requires Shape(s) && s.w.Lock?
    ensures Shape(WriterCheck(s))
  {
  }

  lemma ShapeAfterWrite(s: Pipe)
    requires Shape(s) && s.w.Write?
    ensures Shape(AfterWrite(s))
  {
    var s' := AfterWrite(s);
    assert s'.buf == s.buf && forall i :: 0 <= i < 2 ==> s'.len[i] <= s.len[i];
  }

  lemma ShapeWriteFail(s: Pipe, stored: nat, errno: int)
    requires Shape(s) && Enabled(s, WriteFail(stored, errno))
    ensures Shape(Apply(s, WriteFail(stored, errno)))
  {
    var s' := Apply(s, WriteFail(stored, errno));
    assert s'.buf == s.buf && forall i :: 0 <= i < 2 ==> s'.len[i] <= s.len[i];
  }

  lemma ShapeHandOff(s: Pipe)
    requires Shape(s) && s.p.Hand?
    ensures Shape(Apply(s, HandOff))
  {
  }

  lemma ShapeBuffer(s: Pipe, data: seq<Byte>)
    requires Shape(s) && s.p.Recv?
    ensures Shape(Apply(s, Scribble(data))) && (data != [] ==> Shape(Apply(s, RecvData(data))))
  {
    assert s.buf[s.p.fill := data][1 - s.p.fill] == s.buf[1 - s.p.fill];
  }

  lemma ShapeOther(s: Pipe, step: Step)
    requires Shape(s) && Enabled(s, step)
    requires !step.WriteOk? && !step.WriterLock? && !step.WriteFail? && !step.HandOff? && !step.Scribble?
      && !step.RecvData?
    ensures Shape(Apply(s, step))
  {
  }

  // ---- every step keeps the invariant ------------------------------------------------

  lemma TopKeeps(s: Pipe)
    requires Inv(s) && s.p.Top?
    ensures Inv(Apply(s, ProdTop))
  {
  }

  lemma RecvKeeps(s: Pipe, step: Step)
    requires Inv(s) && s.p.Recv? && Enabled(s, step)
    requires step.Scribble? || step.RecvData? || step.RecvEof? || step.RecvEintr? || step.RecvError?
    ensures Inv(Apply(s, step))
  {
    var s', a := Apply(s, step), s.active;
    assert s'.buf[1 - a] == s.buf[1 - a] && s'.len == s.len && s'.active == a;
    assert s.error == 0 ==> !s.overrun;
  }

  lemma HandOffKeeps(s: Pipe)
    requires Inv(s) && s.p.Hand?
    ensures Inv(Apply(s, HandOff))
  {
    ShapeKeeps(s, HandOff);
    if s.error == 0 {
      HandOffGood(s);
    }
  }

  lemma HandOffGood(s: Pipe)
    requires Inv(s) && s.p.Hand? && s.error == 0
    ensures var s' := Apply(s, HandOff);
            Shape(s') && (if s'.overrun then Bad(s') else Good(s'))
              && s'.len[0] + s'.len[1] == s.len[0] + s.len[1] + s.p.n
  {
    var s', f := Apply(s, HandOff), s.p.fill;
    ShapeKeeps(s, HandOff);
    assert Good(s);
    assert Pending(s', f) == s.buf[f][..s.p.n];
    assert Pending(s', 1 - f) == Pending(s, 1 - f);
    if s.w.Lock? && s.len[1 - f] == 0 {
      assert Pending(s, 1 - f) == [];
    }
  }

  lemma SetDoneKeeps(s: Pipe)
    requires Inv(s) && s.p.Finish?
    ensures Inv(Apply(s, SetDone))
  {
  }

  lemma JoinKeeps(s: Pipe, step: Step)
    requires Inv(s) && Enabled(s, step) && (step.JoinWriter? || step.Commit?)
    ensures Inv(Apply(s, step))
  {
  }

  lemma WriterLockKeeps(s: Pipe)
    requires Inv(s) && s.w.Lock?
    ensures Inv(Apply(s, WriterLock))
  {
    if s.len[1 - s.active] == 0 {
      LockRests(s);
    } else {
      LockTakes(s);
    }
  }

  lemma LockRests(s: Pipe)
    requires Inv(s) && s.w.Lock? && s.len[1 - s.active] == 0
    ensures Inv(WriterCheck(s))
  {
    assert Pending(s, 1 - s.active) == [];
  }

  lemma LockTakes(s: Pipe)
    requires Inv(s) && s.w.Lock? && s.len[1 - s.active] > 0
    ensures Inv(WriterCheck(s))
  {
    var s' := WriterCheck(s);
    assert Pending(s', 1 - s.active) == Pending(s, 1 - s.active);
  }

  lemma AfterWriteKeeps(s: Pipe)
    requires Inv(s) && s.w.Write?
    ensures Inv(AfterWrite(s))
  {
    var s', d := AfterWrite(s), s.w.drain;
    assert s.buf[d][..s.w.n] == Pending(s, d);
    assert Pending(s', d) == [];
    assert Pending(s', 1 - d) == Pending(s, 1 - d);
    assert s'.len[d] == 0 && s'.len[1 - d] == s.len[1 - d];
  }

  lemma WriteOkKeeps(s: Pipe)
    requires Inv(s) && s.w.Write?
    ensures Inv(Apply(s, WriteOk))
  {
    AfterWriteKeeps(s);
    WriterLockKeeps(AfterWrite(s));
  }

  lemma WriteFailKeeps(s: Pipe, stored: nat, errno: int)
    requires Inv(s) && Enabled(s, WriteFail(stored, errno)) && errno != 0
    ensures Inv(Apply(s, WriteFail(stored, errno)))
  {
  }

  lemma SpuriousKeeps(s: Pipe, step: Step)
    requires Inv(s) && Enabled(s, step) && (step.SpuriousProd? || step.SpuriousWriter?)
    ensures Inv(Apply(s, step))
  {
  }

  // ---- runs --------------------------------------------------------------------------

  ghost predicate RunOk(s: Pipe, steps: seq<Step>)
    decreases |steps|
  {
    steps == [] || (Shape(s) && Enabled(s, steps[0]) && RunOk(Apply(s, steps[0]), steps[1..]))
  }

  ghost function Run(s: Pipe, steps: seq<Step>): Pipe
    requires RunOk(s, steps)
    decreases |steps|
  {
    if steps == [] then s else Run(Apply(s, steps[0]), steps[1..])
  }

  /** A failed write leaves errno set. */
  ghost predicate ErrnoSet(steps: seq<Step>) {
    forall step :: step in steps && step.WriteFail? ==> step.errno != 0
  }

  lemma StepKeeps(s: Pipe, step: Step)
    requires Inv(s) && Enabled(s, step) && (step.WriteFail? ==> step.errno != 0)
    ensures Inv(Apply(s, step))
  {
    match step
    case ProdTop => TopKeeps(s);
    case HandOff => HandOffKeeps(s);
    case SetDone => SetDoneKeeps(s);
    case JoinWriter => JoinKeeps(s, step);
    case Commit(_) => JoinKeeps(s, step);
    case WriterLock => WriterLockKeeps(s);
    case WriteOk => WriteOkKeeps(s);
    case WriteFail(stored, errno) => WriteFailKeeps(s, stored, errno);
    case SpuriousProd => SpuriousKeeps(s, step);
    case SpuriousWriter => SpuriousKeeps(s, step);
    case _ => RecvKeeps(s, step);
  }

  lemma {:induction false} RunKeeps(s: Pipe, steps: seq<Step>)
    requires Inv(s) && RunOk(s, steps) && ErrnoSet(steps)
    ensures Inv(Run(s, steps))
    decreases |steps|
  {
    if steps != [] {
      assert steps[0] in steps;
      StepKeeps(s, steps[0]);
      assert ErrnoSet(steps[1..]);
      RunKeeps(Apply(s, steps[0]), steps[1..]);
    }
  }

  /** What recv returned over a run, concatenated. */
  function Received(steps: seq<Step>): seq<Byte> {
    if steps == [] then []
    else DataOf(steps[0]) + Received(steps[1..])
  }

  /** Received but not yet handed over. */
  function InFlight(s: Pipe): seq<Byte>
    requires Shape(s)
  {
    if s.p.Hand? then s.buf[s.p.fill][..s.p.n] else []
  }

  function DataOf(step: Step): seq<Byte> {
    if step.RecvData? then step.data else []
  }

  /** Whatever the writer does, what was handed over and is in flight is what was received, in order. */
  lemma {:induction false} HandedIsReceived(s: Pipe, steps: seq<Step>)
    requires Shape(s) && RunOk(s, steps)
    ensures Shape(Run(s, steps))
    ensures Run(s, steps).handed + InFlight(Run(s, steps)) == s.handed + InFlight(s) + Received(steps)
    decreases |steps|
  {
    if steps != [] {
      var s' := Apply(s, steps[0]);
      ShapeKeeps(s, steps[0]);
      OneStepReceived(s, steps[0]);
      HandedIsReceived(s', steps[1..]);
      Assoc(s.handed + InFlight(s), DataOf(steps[0]), Received(steps[1..]));
    }
  }

  lemma Assoc(a: seq<Byte>, b: seq<Byte>, c: seq<Byte>)
    ensures a + b + c == a + (b + c)
  {
  }

  lemma OneStepReceived(s: Pipe, step: Step)
    requires Shape(s) && Enabled(s, step) && Shape(Apply(s, step))
    ensures Apply(s, step).handed + InFlight(Apply(s, step)) == s.handed + InFlight(s) + DataOf(step)
  {
    match step
    case RecvData(data) => RecvReceived(s, data);
    case HandOff => HandOffReceived(s);
    case WriteOk => WriterLeavesProducer(s);
    case _ => OtherReceived(s, step);
  }

  lemma RecvReceived(s: Pipe, data: seq<Byte>)
    requires Shape(s) && Enabled(s, RecvData(data)) && Shape(Apply(s, RecvData(data)))
    ensures var s' := Apply(s, RecvData(data)); s'.handed == s.handed && InFlight(s) == [] && InFlight(s') == data
  {
  }

  lemma HandOffReceived(s: Pipe)
    requires Shape(s) && Enabled(s, HandOff) && Shape(Apply(s, HandOff))
    ensures var s' := Apply(s, HandOff); InFlight(s') == [] && s'.handed == s.handed + InFlight(s)
  {
  }

  lemma OtherReceived(s: Pipe, step: Step)
    requires Shape(s) && Enabled(s, step) && Shape(Apply(s, step)) && !step.RecvData? && !step.HandOff?
      && !step.WriteOk?
    ensures var s' := Apply(s, step); s'.handed == s.handed && InFlight(s') == InFlight(s) && DataOf(step) == []
  {
  }

  lemma WriterLeavesProducer(s: Pipe)
    requires Shape(s) && s.w.Write? && Shape(Apply(s, WriteOk))
    ensures var s' := Apply(s, WriteOk);
            s'.handed == s.handed && InFlight(s') == InFlight(s) && s'.dest == s.dest && s'.ok == s.ok
              && s'.error == s.error
            && s'.p == (if s.p.Waiting? then Top else s.p)
  {
  }

  /**
   In every interleaving, a run whose writer was joined without a write error has written
   exactly what was received: every chunk once and in order. It also never overran.
   */
  lemma Delivery(old_: seq<Byte>, steps: seq<Step>)
    requires RunOk(Init(old_), steps) && ErrnoSet(steps)
    ensures var s := Run(Init(old_), steps);
            (s.p.Joined? || s.p.Replied?) && s.error == 0 ==>
              s.file == Received(steps) && s.written == |Received(steps)| && !s.overrun
  {
    HandedIsReceived(Init(old_), steps);
    RunKeeps(Init(old_), steps);
    assert [] + [] + Received(steps) == Received(steps);
    DeliveredAll(Run(Init(old_), steps), Received(steps));
  }

  /** At the end nothing is in flight, and without an error all that was handed over is in the file. */
  lemma DeliveredAll(s: Pipe, received: seq<Byte>)
    requires Inv(s) && s.handed + InFlight(s) == received
    ensures (s.p.Joined? || s.p.Replied?) && s.error == 0 ==>
              s.file == received && s.written == |received| && !s.overrun
  {
    assert s.p.Joined? || s.p.Replied? ==> s.handed + InFlight(s) == s.handed;
  }

  /** The destination path changes once, from its old contents to the whole upload, and only with a 226. */
  lemma AtomicCommit(old_: seq<Byte>, steps: seq<Step>)
    requires RunOk(Init(old_), steps) && ErrnoSet(steps)
    ensures var s := Run(Init(old_), steps);
            if s.p == Replied(R226) then s.dest == Received(steps) && s.ok && RecvError !in steps else s.dest == old_
  {
    Delivery(old_, steps);
    DestFollows(Init(old_), steps);
    OkFollows(Init(old_), steps);
  }

  // ---- what the reply says about the run ----------------------------------------------------------

  /** `ok` is cleared by a receive error and by nothing else. */
  lemma {:induction false} OkFollows(s: Pipe, steps: seq<Step>)
    requires Shape(s) && RunOk(s, steps)
    ensures Run(s, steps).ok <==> s.ok && RecvError !in steps
    decreases |steps|
  {
    if steps != [] {
      ShapeKeeps(s, steps[0]);
      OkFollows(Apply(s, steps[0]), steps[1..]);
      assert RecvError in steps <==> steps[0] == RecvError || RecvError in steps[1..];
    }
  }

  /** Some write of the run failed. */
  predicate WriteFailed(steps: seq<Step>) {
    steps != [] && (steps[0].WriteFail? || WriteFailed(steps[1..]))
  }

  /** How the last commit of the run, if there is one, went. */
  function Committed(steps: seq<Step>, before: Option<bool>): Option<bool>
    decreases |steps|
  {
    if steps == [] then before
    else Committed(steps[1..], if steps[0].Commit? then Some(steps[0].renamed) else before)
  }

  function ReplyTo(failed: bool, renamed: bool): Reply {
    if failed then R426 else if renamed then R226 else R451
  }

  /** The state after a run in which `recv` and `write` say what failed, and `commit` how the commit went. */
  ghost predicate Tally(s: Pipe, recv: bool, write: bool, commit: Option<bool>) {
    && Shape(s) && s.ok == !recv && (s.error != 0 <==> write)
    && (if commit.None? then !s.p.Replied? else s.p == Replied(ReplyTo(recv || write, commit.value)))
  }

  lemma TallyStep(s: Pipe, step: Step, recv: bool, write: bool, commit: Option<bool>)
    requires Tally(s, recv, write, commit) && Enabled(s, step) && (step.WriteFail? ==> step.errno != 0)
    ensures Tally(Apply(s, step), recv || step.RecvError?, write || step.WriteFail?,
                  if step.Commit? then Some(step.renamed) else commit)
  {
    ShapeKeeps(s, step);
  }

  lemma {:induction false} TallyRun(s: Pipe, steps: seq<Step>, recv: bool, write: bool, commit: Option<bool>)
    requires Tally(s, recv, write, commit) && RunOk(s, steps) && ErrnoSet(steps)
    ensures Tally(Run(s, steps), recv || RecvError in steps, write || WriteFailed(steps), Committed(steps, commit))
    decreases |steps|
  {
    if steps != [] {
      var step := steps[0];
      assert step in steps;
      TallyStep(s, step, recv, write, commit);
      assert forall x :: x in steps[1..] ==> x in steps;
      TallyRun(Apply(s, step), steps[1..], recv || step.RecvError?, write || step.WriteFail?,
               if step.Commit? then Some(step.renamed) else commit);
      assert RecvError in steps <==> step == RecvError || RecvError in steps[1..];
    }
  }

  /**
   A run is answered 426 exactly when a receive or a write failed; otherwise 226 exactly when the
   rename worked and 451 exactly when it did not.
   */
  lemma ReplyIs(old_: seq<Byte>, steps: seq<Step>)
    requires RunOk(Init(old_), steps) && ErrnoSet(steps) && Run(Init(old_), steps).p.Replied?
    ensures var r := Run(Init(old_), steps).p.reply;
            && (r == R426 <==> RecvError in steps || WriteFailed(steps))
            && (r != R426 ==> (r == R226 <==> Commit(true) in steps) && (r == R451 <==> Commit(false) in steps))
  {
    TallyRun(Init(old_), steps, false, false, None);
    OneCommit(Init(old_), steps);
  }

  /** Nothing happens after the reply, so a run has at most one commit. */
  lemma {:induction false} OneCommit(s: Pipe, steps: seq<Step>)
    requires Shape(s) && RunOk(s, steps)
    ensures s.p.Replied? ==> steps == []
    ensures !s.p.Replied? ==>
              forall b: bool :: Commit(b) in steps <==> Committed(steps, None) == Some(b)
    decreases |steps|
  {
    if steps != [] {
      var step, rest := steps[0], steps[1..];
      ShapeKeeps(s, step);
      OneCommit(Apply(s, step), rest);
      assert forall b: bool :: Commit(b) in steps <==> step == Commit(b) || Commit(b) in rest;
    }
  }

  lemma DestStep(s: Pipe, step: Step)
    requires Shape(s) && Enabled(s, step)
    requires s.p == Replied(R226) ==> s.dest == s.file && s.ok && s.error == 0
    ensures var s' := Apply(s, step);
            if s'.p == Replied(R226) then s'.dest == s'.file && s'.ok && s'.error == 0
              else s'.dest == s.dest && s.p != Replied(R226)
  {
    match step
    case Commit(_) =>
    case WriteOk => assert !s.p.Replied? && Apply(s, step).p == AfterWrite(s).p;
    case _ =>
  }

  lemma {:induction false} DestFollows(s: Pipe, steps: seq<Step>)
    requires Shape(s) && RunOk(s, steps)
    requires s.p == Replied(R226) ==> s.dest == s.file && s.ok && s.error == 0
    ensures var s' := Run(s, steps);
            if s'.p == Replied(R226) then s'.dest == s'.file && s'.ok && s'.error == 0
              else s'.dest == s.dest && s.p != Replied(R226)
    decreases |steps|
  {
    if steps != [] {
      ShapeKeeps(s, steps[0]);
      DestStep(s, steps[0]);
      DestFollows(Apply(s, steps[0]), steps[1..]);
    }
  }

  // ---- failed writes -----------------------------------------------------------------------------

  /** A write failed unnoticed: the writer has ended, and the file is short of what was handed over. */
  ghost predicate Lost(s: Pipe) {
    Shape(s) && s.w.End? && s.error == 0 && |s.file| < |s.handed|
  }

  lemma LostKeeps(s: Pipe, step: Step)
    requires Lost(s) && Enabled(s, step)
    ensures Lost(Apply(s, step))
  {
    ShapeKeeps(s, step);
  }

  lemma {:induction false} LostStays(s: Pipe, steps: seq<Step>)
    requires Lost(s) && RunOk(s, steps)
    ensures Lost(Run(s, steps))
    decreases |steps|
  {
    if steps != [] {
      LostKeeps(s, steps[0]);
      LostStays(Apply(s, steps[0]), steps[1..]);
    }
  }

  lemma LosesData(s: Pipe, stored: nat)
    requires Inv(s) && Enabled(s, WriteFail(stored, 0))
    ensures Lost(Apply(s, WriteFail(stored, 0)))
  {
    ShapeKeeps(s, WriteFail(stored, 0));
    assert s.error == 0 && s.w.n == s.len[s.w.drain];
  }

  lemma {:induction false} Unnoticed(s: Pipe, steps: seq<Step>)
    requires Inv(s) && RunOk(s, steps) && !ErrnoSet(steps)
    ensures Lost(Run(s, steps))
    decreases |steps|
  {
    var step, rest := steps[0], steps[1..];
    if step.WriteFail? && step.errno == 0 {
      LosesData(s, step.stored);
      LostStays(Apply(s, step), rest);
    } else {
      StepKeeps(s, step);
      var bad :| bad in steps && bad.WriteFail? && bad.errno == 0;
      assert steps == [step] + rest && bad in rest;
      Unnoticed(Apply(s, step), rest);
    }
  }

  /**
   Every confirmed upload is complete if and only if each failed write set errno: there is nothing
   else a 226 depends on.
   */
  lemma ConfirmedIff(old_: seq<Byte>, steps: seq<Step>)
    requires RunOk(Init(old_), steps) && Run(Init(old_), steps).p == Replied(R226)
    ensures Run(Init(old_), steps).dest == Received(steps) <==> ErrnoSet(steps)
    ensures RecvError !in steps
  {
    DestFollows(Init(old_), steps);
    OkFollows(Init(old_), steps);
    if ErrnoSet(steps) {
      AtomicCommit(old_, steps);
    } else {
      Unnoticed(Init(old_), steps);
      HandedIsReceived(Init(old_), steps);
      assert [] + [] + Received(steps) == Received(steps);
    }
  }

  const EINTR: int := 4
  const EINVAL: int := 22
  const ENOSPC: int := 28

  /** One write(2): some bytes, none, or a failure, for which POSIX has it set errno. */
  datatype SysWrite = Wrote(n: nat) | Failed(errno: int)

  const WRITE_CHUNK_MAX: nat := 262144

  /**
   `pal_file_write_all`, the write the pipe makes: all of the data is stored, or errno is set. So
   a failed write never reaches the pipe with errno 0. Calls from `quiet` on are not interrupted.
   */
  method WriteAll(data: seq<Byte>, sys: nat -> SysWrite, quiet: nat) returns (n: int, errno: int, stored: seq<Byte>)
    requires forall i: nat :: sys(i).Failed? ==> sys(i).errno != 0
    requires forall i: nat :: i >= quiet ==> sys(i) != Failed(EINTR)
    ensures stored <= data
    ensures n == |data| > 0 <==> stored == data && data != []
    ensures n != |data| || data == [] ==> n == -1 && errno != 0 && (data != [] ==> |stored| < |data|)
  {
    errno, stored := 0, [];
    if |data| == 0 {
      return -1, EINVAL, [];
    }
    var total, k := 0, 0;
    while total < |data|
      invariant 0 <= total <= |data| && stored == data[..total]
      decreases |data| - total, if quiet > k then quiet - k else 0
    {
      var chunk := if |data| - total > WRITE_CHUNK_MAX then WRITE_CHUNK_MAX else |data| - total;
      var r := sys(k);
      k := k + 1;
      if r.Wrote? && r.n > 0 {
        var w := if r.n < chunk then r.n else chunk;
        assert data[..total + w] == data[..total] + data[total..total + w];
        stored := stored + data[total..total + w];
        total := total + w;
      } else if r.Wrote? {
        return -1, ENOSPC, stored;
      } else if r.errno != EINTR {
        return -1, r.errno, stored;
      }
    }
    n := total;
  }

  /** recv never stores into the buffer that is being drained, in any interleaving. */
  lemma Exclusion(old_: seq<Byte>, steps: seq<Step>)
    requires RunOk(Init(old_), steps) && ErrnoSet(steps)
    ensures var s := Run(Init(old_), steps);
            s.w.Write? ==> (s.p.Recv? || s.p.Hand? ==> s.p.fill != s.w.drain)
  {
    RunKeeps(Init(old_), steps);
  }

  /** Bytes are neither lost nor duplicated while no write has failed. */
  lemma Conservation(old_: seq<Byte>, steps: seq<Step>)
    requires RunOk(Init(old_), steps) && ErrnoSet(steps)
    ensures var s := Run(Init(old_), steps);
            s.error == 0 ==> |s.len| == 2 && s.written + s.len[0] + s.len[1] == |s.handed|
  {
    RunKeeps(Init(old_), steps);
  }

  // ---- overrun ------------------------------------------------------------------------

  lemma {:induction false} OverrunStays(s: Pipe, steps: seq<Step>)
    requires RunOk(s, steps) && s.overrun
    ensures Run(s, steps).overrun
    decreases |steps|
  {
    if steps != [] {
      OverrunStays(Apply(s, steps[0]), steps[1..]);
    }
  }

  lemma {:induction false} RunConcat(s: Pipe, a: seq<Step>, b: seq<Step>)
    requires RunOk(s, a) && RunOk(Run(s, a), b)
    ensures RunOk(s, a + b) && Run(s, a + b) == Run(Run(s, a), b)
    decreases |a|
  {
    if a == [] {
      assert a + b == b;
    } else {
      assert (a + b)[1..] == a[1..] + b;
      RunConcat(Apply(s, a[0]), a[1..], b);
    }
  }

  /**
   Once both buffers were handed over before the writer took the older one, the run is in a
   closed set of states: however it goes on, it never gets past the producer's wait without a
   write error, so it never joins the writer.
   */
  lemma OverrunIsFinal(old_: seq<Byte>, before: seq<Step>, after: seq<Step>)
    requires RunOk(Init(old_), before) && ErrnoSet(before)
    requires Run(Init(old_), before).overrun
    requires RunOk(Run(Init(old_), before), after) && ErrnoSet(after)
    ensures var s := Run(Run(Init(old_), before), after);
            s.error == 0 ==> Shape(s) && Bad(s) && !s.done
  {
    RunKeeps(Init(old_), before);
    RunKeeps(Run(Init(old_), before), after);
    OverrunStays(Run(Init(old_), before), after);
  }

  /** Steps that come from the two threads and the kernel, not from a wakeup without a signal. */
  predicate Real(step: Step) {
    !step.SpuriousProd? && !step.SpuriousWriter? && !step.Scribble?
  }

  ghost predicate Deadlocked(s: Pipe) {
    !s.p.Replied? && forall step :: Real(step) ==> !Enabled(s, step)
  }

  /** The pipe deadlocks exactly when it overran, no write failed and both threads sleep. */
  lemma DeadlockIff(old_: seq<Byte>, steps: seq<Step>)
    requires RunOk(Init(old_), steps) && ErrnoSet(steps)
    ensures var s := Run(Init(old_), steps);
            Deadlocked(s) <==> s.overrun && s.error == 0 && s.p.Waiting? && s.w.Idle?
  {
    RunKeeps(Init(old_), steps);
    var s := Run(Init(old_), steps);
    if !s.p.Replied? {
      SomeStep(s);
    }
  }

  lemma SomeStep(s: Pipe)
    requires Inv(s) && !s.p.Replied?
    ensures (s.p.Waiting? && s.w.Idle?) || exists step :: Real(step) && Enabled(s, step)
    ensures s.p.Waiting? && s.w.Idle? ==> s.overrun && s.error == 0
  {
    if s.w.Lock? {
      assert Enabled(s, WriterLock) && Real(WriterLock);
    } else if s.w.Write? {
      assert Enabled(s, WriteOk) && Real(WriteOk);
    } else {
      match s.p
      case Top => assert Enabled(s, ProdTop) && Real(ProdTop);
      case Recv(_) => assert Enabled(s, RecvEof) && Real(RecvEof);
      case Hand(_, _) => assert Enabled(s, HandOff) && Real(HandOff);
      case Finish => assert Enabled(s, SetDone) && Real(SetDone);
      case Join => assert Enabled(s, JoinWriter) && Real(JoinWriter);
      case Joined => assert Enabled(s, Commit(true)) && Real(Commit(true));
      case Waiting =>
    }
  }

  // ---- finishing -----------------------------------------------------------------------

  /** A schedule that lets the writer go first and then ends the upload. */
  function Schedule(s: Pipe): Step
    requires !s.p.Replied?
  {
    if s.w.Lock? then WriterLock
    else if s.w.Write? then WriteOk
    else match s.p
      case Top => ProdTop
      case Waiting => SpuriousProd
      case Recv(_) => RecvEof
      case Hand(_, _) => HandOff
      case Finish => SetDone
      case Join => JoinWriter
      case Joined => Commit(true)
  }

  function Rank(s: Pipe): nat
    requires |s.len| == 2
  {
    20 * (match s.p case Replied(_) => 0 case Joined => 1 case Join => 2 case Finish => 3 case Recv(_) => 4
                    case Top => 5 case Waiting => 5 case Hand(_, _) => 6)
    + 6 * ((if s.len[0] > 0 then 1 else 0) + (if s.len[1] > 0 then 1 else 0))
    + (match s.w case End => 0 case Idle => 1 case Write(_, _) => 1 case Lock => 2)
  }

  ghost predicate Healthy(s: Pipe) {
    Inv(s) && s.error == 0 && !s.overrun
  }

  lemma ScheduleLock(s: Pipe)
    requires Healthy(s) && s.w.Lock?
    ensures var s' := Apply(s, WriterLock); Healthy(s') && s'.p == s.p && s'.ok == s.ok && Rank(s') < Rank(s)
  {
    WriterLockKeeps(s);
  }

  lemma AfterWriteRank(s: Pipe)
    requires Healthy(s) && s.w.Write?
    ensures Rank(AfterWrite(s)) <= Rank(s) - 5
  {
    var m := AfterWrite(s);
    assert m.len[s.w.drain] == 0 && m.len[1 - s.w.drain] == s.len[1 - s.w.drain];
  }

  lemma ScheduleWrite(s: Pipe)
    requires Healthy(s) && s.w.Write?
    ensures var s' := Apply(s, WriteOk); Healthy(s') && s'.ok == s.ok && Rank(s') < Rank(s)
    ensures Apply(s, WriteOk).p == if s.p.Waiting? then Top else s.p
  {
    AfterWriteKeeps(s);
    AfterWriteRank(s);
    ScheduleLock(AfterWrite(s));
  }

  lemma ScheduleProd(s: Pipe)
    requires Healthy(s) && (s.w.Idle? || s.w.End?) && !s.p.Replied?
    ensures Enabled(s, Schedule(s))
    ensures var s' := Apply(s, Schedule(s));
            Healthy(s') && s'.ok == s.ok && Rank(s') < Rank(s) && (s'.p.Replied? && s.ok ==> s'.p == Replied(R226))
  {
    StepKeeps(s, Schedule(s));
  }

  lemma ScheduleWorks(s: Pipe)
    requires Healthy(s) && !s.p.Replied?
    ensures Enabled(s, Schedule(s))
    ensures var s' := Apply(s, Schedule(s));
            Healthy(s') && s'.ok == s.ok && Rank(s') < Rank(s) && (s'.p.Replied? && s.ok ==> s'.p == Replied(R226))
  {
    if s.w.Lock? {
      ScheduleLock(s);
    } else if s.w.Write? {
      ScheduleWrite(s);
    } else {
      ScheduleProd(s);
    }
  }

  /**
   Until it overruns, an upload without errors can still be completed; after an overrun it
   cannot. So the pipe can finish exactly when each buffer was taken before the next hand-over.
   */
  lemma {:induction false} CanFinish(s: Pipe) returns (steps: seq<Step>)
    requires Healthy(s) && s.ok
    requires s.p.Replied? ==> s.p == Replied(R226)
    ensures RunOk(s, steps) && ErrnoSet(steps) && Run(s, steps).p == Replied(R226)
    decreases Rank(s)
  {
    if s.p.Replied? {
      steps := [];
    } else {
      ScheduleWorks(s);
      var rest := CanFinish(Apply(s, Schedule(s)));
      steps := [Schedule(s)] + rest;
      assert steps[1..] == rest;
    }
  }

  ghost predicate Completes(s: Pipe, more: seq<Step>) {
    RunOk(s, more) && ErrnoSet(more) && Run(s, more).p == Replied(R226)
  }

  /** A run without errors so far can still be completed exactly when it has not overrun. */
  lemma FinishableIff(old_: seq<Byte>, steps: seq<Step>)
    requires RunOk(Init(old_), steps) && ErrnoSet(steps)
    requires var s := Run(Init(old_), steps); s.ok && s.error == 0 && !s.p.Replied?
    ensures var s := Run(Init(old_), steps); (exists more :: Completes(s, more)) <==> !s.overrun
  {
    RunKeeps(Init(old_), steps);
    var s := Run(Init(old_), steps);
    if !s.overrun {
      var more := CanFinish(s);
      assert Completes(s, more);
    } else {
      forall more ensures !Completes(s, more) {
        if RunOk(s, more) && ErrnoSet(more) {
          OverrunIsFinal(old_, steps, more);
          DestFollows(s, more);
        }
      }
    }
  }

  lemma FiveSteps(s: Pipe, a: seq<Step>, s1: Pipe, s2: Pipe, s3: Pipe, s4: Pipe, s5: Pipe)
    requires |a| == 5 && Shape(s) && Shape(s1) && Shape(s2) && Shape(s3) && Shape(s4)
    requires Enabled(s, a[0]) && s1 == Apply(s, a[0])
    requires Enabled(s1, a[1]) && s2 == Apply(s1, a[1])
    requires Enabled(s2, a[2]) && s3 == Apply(s2, a[2])
    requires Enabled(s3, a[3]) && s4 == Apply(s3, a[3])
    requires Enabled(s4, a[4]) && s5 == Apply(s4, a[4])
    ensures RunOk(s, a) && Run(s, a) == s5
  {
    var a1, a2, a3, a4 := a[1..], a[2..], a[3..], a[4..];
    assert a1[1..] == a2 && a2[1..] == a3 && a3[1..] == a4 && a4[1..] == [];
    assert RunOk(s4, a4) && Run(s4, a4) == s5;
    assert RunOk(s3, a3) && Run(s3, a3) == s5;
    assert RunOk(s2, a2) && Run(s2, a2) == s5;
    assert RunOk(s1, a1) && Run(s1, a1) == s5;
  }

  lemma HandFirst(s: Pipe, x: Byte)
    requires s.w.Lock? || s.w.Idle?
    requires s == Pipe([[x], []], [0, 0], 0, 0, false, 0, true, Hand(0, 1), s.w, [], [], [], false)
    ensures Shape(s)
    ensures Apply(s, HandOff) == Pipe([[x], []], [1, 0], 1, 0, false, 0, true, Top, Lock, [], [], [x], false)
  {
    assert [0, 0][0 := 1] == [1, 0];
    assert [] + [x][..1] == [x];
  }

  /** The first chunk is handed over and the writer signalled, but it does not run. */
  lemma OverrunFirst(a: seq<Step>)
    requires a == [WriterLock, ProdTop, RecvData([1]), HandOff, ProdTop]
    ensures RunOk(Init([]), a)
    ensures Run(Init([]), a) == Pipe([[1], []], [1, 0], 1, 0, false, 0, true, Recv(1), Lock, [], [], [1], false)
  {
    var s0 := Init([]);
    var s1 := s0.(w := Idle);
    var s2 := s1.(p := Recv(0));
    var s3 := s2.(p := Hand(0, 1), buf := [[1], []]);
    HandFirst(s3, 1);
    var s4 := Apply(s3, a[3]);
    FiveSteps(s0, a, s1, s2, s3, s4, s4.(p := Recv(1)));
  }

  lemma HandSecond(s: Pipe)
    requires s == Pipe([[1], [2]], [1, 0], 1, 0, false, 0, true, Hand(1, 1), Lock, [], [], [1], false)
    ensures Shape(s)
    ensures Apply(s, HandOff) == Pipe([[1], [2]], [1, 1], 0, 0, false, 0, true, Top, Lock, [], [], [1, 2], true)
  {
    assert [1, 0][1 := 1] == [1, 1];
    assert [1] + [2][..1] == [1, 2];
  }

  lemma DrainNewer(s: Pipe)
    requires s == Pipe([[1], [2]], [1, 1], 0, 0, false, 0, true, Top, Write(1, 1), [], [], [1, 2], true)
    ensures Shape(s)
    ensures Apply(s, WriteOk) == Pipe([[1], [2]], [1, 0], 0, 0, false, 1, true, Top, Idle, [2], [], [1, 2], true)
  {
    assert [1, 1][1 := 0] == [1, 0];
    assert [] + [2][..1] == [2];
  }

  lemma SecondData(s0: Pipe)
    requires s0 == Pipe([[1], []], [1, 0], 1, 0, false, 0, true, Recv(1), Lock, [], [], [1], false)
    ensures Shape(s0)
    ensures Apply(s0, RecvData([2]))
         == Pipe([[1], [2]], [1, 0], 1, 0, false, 0, true, Hand(1, 1), Lock, [], [], [1], false)
  {
    assert s0.buf[1 := [2]] == [[1], [2]];
  }

  lemma TakeNewer(s: Pipe)
    requires s == Pipe([[1], [2]], [1, 1], 0, 0, false, 0, true, Top, Lock, [], [], [1, 2], true)
    ensures Shape(s) && Apply(s, WriterLock) == s.(w := Write(1, 1))
  {
  }

  lemma SleepBoth(s: Pipe)
    requires s == Pipe([[1], [2]], [1, 0], 0, 0, false, 1, true, Top, Idle, [2], [], [1, 2], true)
    ensures Shape(s) && Apply(s, ProdTop) == s.(p := Waiting)
  {
  }

  /** A second chunk follows; the writer now takes the newer one, and both threads go to sleep. */
  lemma OverrunSecond(s0: Pipe, b: seq<Step>)
    requires s0 == Pipe([[1], []], [1, 0], 1, 0, false, 0, true, Recv(1), Lock, [], [], [1], false)
    requires b == [RecvData([2]), HandOff, WriterLock, WriteOk, ProdTop]
    ensures RunOk(s0, b)
    ensures Run(s0, b) == Pipe([[1], [2]], [1, 0], 0, 0, false, 1, true, Waiting, Idle, [2], [], [1, 2], true)
  {
    SecondData(s0);
    var s1 := Apply(s0, b[0]);
    HandSecond(s1);
    var s2 := Apply(s1, b[1]);
    TakeNewer(s2);
    var s3 := s2.(w := Write(1, 1));
    DrainNewer(s3);
    var s4 := Apply(s3, b[3]);
    SleepBoth(s4);
    FiveSteps(s0, b, s1, s2, s3, s4, s4.(p := Waiting));
  }

  /** An overrun does happen, and it deadlocks with the second chunk written first. */
  lemma OverrunExample(a: seq<Step>, b: seq<Step>)
    requires a == [WriterLock, ProdTop, RecvData([1]), HandOff, ProdTop]
    requires b == [RecvData([2]), HandOff, WriterLock, WriteOk, ProdTop]
    ensures RunOk(Init([]), a + b) && ErrnoSet(a + b)
    ensures Run(Init([]), a + b).handed == [1, 2] && Run(Init([]), a + b).file == [2]
    ensures Deadlocked(Run(Init([]), a + b))
  {
    OverrunFirst(a);
    OverrunSecond(Run(Init([]), a), b);
    RunConcat(Init([]), a, b);
  }
}
