/**
 What every interleaving of the post-processor keeps: frame conservation, at most one jpeg job
 in flight, and no work left in a queue without a wake-up on its way.
 */
module PostProcTheorems {
  import opened Wrappers
  import opened CmdThread
  import opened Counting
  import opened PostProcSteps

  // ---------- the invariant ----------

  function AtPc(pc: Pc): seq<Frame> {
    match pc
    case BeginJpeg(j) => JobFrames(j)
    case BeginPP(g) => [g]
    case _ => []
  }

  /** How many queues, jobs and threads still own the frame. */
  function Held(s: State, f: Frame): nat {
    Count(s.inputPPQ, f) + Count(s.ongoingPPQ, f) + Count(JobsFrames(s.inputJpegQ), f)
    + Count(JobsFrames(s.ongoingJpegQ), f) + s.inHand[f] + Count(AtPc(s.pc), f)
  }

  /** The frame is in exactly one place or has been released exactly once, if it was accepted. */
  ghost predicate FrameConserved(s: State, f: Frame) {
    Held(s, f) + Count(s.released, f) == One(f in s.accepted)
  }

  ghost predicate Conserved(s: State) {
    forall f :: FrameConserved(s, f)
  }

  /** How the worker's position, the ongoing queues and the job ids fit together. */
  ghost predicate InFlightShape(s: State) {
    && OneJob(s)
    && (Stopping(s.pc) || Dropping(s.pc) ==> !s.active)
    && (Encoding(s.pc) || Reprocessing(s.pc) ==> s.active)
    && (!s.active && !s.pc.AbortJobs? ==> s.ongoingJpegQ == [])
    && |s.ongoingPPQ| == s.submitted + One(s.pc.SubmitPP?)
    && (!s.active && !BeforePPFlush(s.pc) ==> s.ongoingPPQ == [])
  }

  /** At most one jpeg job is ongoing, and its id is set once the worker has stored it. */
  ghost predicate OneJob(s: State) {
    && |s.ongoingJpegQ| <= 1
    && (s.pc.TakeJpeg? || s.pc.BeginJpeg? ==> s.ongoingJpegQ == [])
    && (s.pc.Encode? ==> |s.ongoingJpegQ| == 1 && s.ongoingJpegQ[0].jobId == 0)
    && (s.pc.StoreId? ==> s.pc.id != 0 && (|s.ongoingJpegQ| == 1 ==> s.ongoingJpegQ[0].jobId == 0))
    && (!s.pc.Encode? && !s.pc.StoreId? && |s.ongoingJpegQ| == 1 ==> s.ongoingJpegQ[0].jobId != 0)
    && (s.pc.BeginJpeg? ==> s.pc.job.jobId == 0)
    && (forall i :: 0 <= i < |s.inputJpegQ| ==> s.inputJpegQ[i].jobId == 0)
  }

  /** DoNextJob commands queued or owed by a producer that is about to send one. */
  function Pending(s: State): nat { CountNext(s.cmds) + s.sending }

  /** The worker has consumed a DoNextJob and will still look at the reprocess input queue. */
  predicate WillTakePP(pc: Pc) { WillTakeRaw(pc) || pc.TakePP? || pc.DropPP? }

  predicate WillTakeRaw(pc: Pc) {
    Encoding(pc) || pc.TakeRaw? || pc.DropJpeg? || pc.DropRaw?
  }

  predicate BeforePPFlush(pc: Pc) { pc.AbortJobs? || pc.StopReproc? || pc.FlushOngoingPP? }

  predicate BeforeJpegFlush(pc: Pc) { BeforePPFlush(pc) || pc.FlushInputJpeg? }

  /** Wake-ups suffice for the reprocess and raw input queues, and for the jpeg input queue
      while the worker is not active. */
  ghost predicate Awake(s: State) {
    && Pending(s) + One(WillTakePP(s.pc)) >= |s.inputPPQ|
    && Pending(s) + One(WillTakeRaw(s.pc)) >= |s.inputRawQ|
    && (!s.active && !BeforeJpegFlush(s.pc) ==> Pending(s) + One(s.pc.DropJpeg?) >= |s.inputJpegQ|)
  }

  ghost predicate Inv(s: State) {
    Conserved(s) && InFlightShape(s) && Awake(s)
  }

  /** A jpeg job that waits while nothing is being encoded has a wake-up on its way. */
  ghost predicate JpegAwake(s: State) {
    !s.pc.Exited? && s.active && s.ongoingJpegQ == [] && s.inputJpegQ != []
    ==> Pending(s) > 0 || s.pc.CheckOngoing? || s.pc.TakeJpeg? || s.pc.BeginJpeg?
  }

  // ---------- helpers ----------

  lemma {:induction false} AddJob(q: seq<JpegJob>, j: JpegJob)
    ensures JobsFrames(q + [j]) == JobsFrames(q) + JobFrames(j)
  {
    if q == [] {
      assert q + [j] == [j] && [j][1..] == [];
    } else {
      assert (q + [j])[1..] == q[1..] + [j];
      AddJob(q[1..], j);
    }
  }

  // ---------- one step ----------

  lemma StepConserves(s: State, e: Step, f: Frame)
    requires FrameConserved(s, f) && OneJob(s) && Enabled(s, e)
    ensures FrameConserved(Next(s, e), f)
  {
    hide FrameConserved;
    if !e.Worker? { CallConserves(s, e, f); }
    else if s.pc.Idle? { CommandConserves(s, f); }
    else if Stopping(s.pc) { StopConserves(s, f); }
    else if Encoding(s.pc) { EncodeConserves(s, e.ok, e.jobId, f); }
    else if Reprocessing(s.pc) { ReprocessConserves(s, e.ok, f); }
    else { DropConserves(s, f); }
  }

  lemma CallConserves(s: State, e: Step, f: Frame)
    requires FrameConserved(s, f) && Enabled(s, e) && !e.Worker?
    ensures FrameConserved(Next(s, e), f)
  {
    hide Count, JobsFrames, WorkerNext, AtPc;
    match e
    case Data(g, reproc) =>
      CountAppend(s.inputPPQ, g, f);
      AddJob(s.inputJpegQ, JpegJob(g, None, 0));
      CountAppend(JobsFrames(s.inputJpegQ), g, f);
    case PPDequeue => CallbackConserves(s, e, f);
    case PPEnqueue(_, _) => CallbackConserves(s, e, f);
    case PPToRaw(_, _) => CallbackConserves(s, e, f);
    case JpegEvent(id) =>
      TakeJob(s.ongoingJpegQ, f);
      CountConcat(s.released, JobFrames(s.ongoingJpegQ[0]), f);
    case _ =>
  }

  lemma CallbackConserves(s: State, e: Step, f: Frame)
    requires FrameConserved(s, f) && Enabled(s, e) && (e.PPDequeue? || e.PPEnqueue? || e.PPToRaw?)
    ensures FrameConserved(Next(s, e), f)
  {
    hide FrameConserved, Next;
    match e
    case PPDequeue => DequeueConserves(s, f);
    case PPEnqueue(src, g) => PairConserves(s, src, g, f);
    case PPToRaw(src, g) => ToRawConserves(s, src, g, f);
  }

  lemma DequeueConserves(s: State, f: Frame)
    requires FrameConserved(s, f) && Enabled(s, PPDequeue)
    ensures FrameConserved(Next(s, PPDequeue), f)
  {
    hide Count, JobsFrames, WorkerNext, JobFrames, AtPc, One;
    CountHead(s.ongoingPPQ, f);
    OneOf(s.ongoingPPQ[0], f);
  }

  lemma PairConserves(s: State, src: Frame, g: Frame, f: Frame)
    requires FrameConserved(s, f) && Enabled(s, PPEnqueue(src, g))
    ensures FrameConserved(Next(s, PPEnqueue(src, g)), f)
  {
    hide Count, JobsFrames, WorkerNext, JobFrames, AtPc, One;
    OneOf(src, f);
    FreshOne(s.accepted, g, f);
    PairAdded(s.inputJpegQ, src, g, f);
  }

  lemma ToRawConserves(s: State, src: Frame, g: Frame, f: Frame)
    requires FrameConserved(s, f) && Enabled(s, PPToRaw(src, g))
    ensures FrameConserved(Next(s, PPToRaw(src, g)), f)
  {
    hide Count, JobsFrames, WorkerNext, JobFrames, AtPc, One;
    OneOf(src, f);
    CountAppend(s.released, src, f);
  }

  lemma OneOf(g: Frame, f: Frame)
    ensures multiset{g}[f] == One(g == f)
  {
  }

  lemma FreshOne(accepted: set<Frame>, g: Frame, f: Frame)
    requires g !in accepted
    ensures One(f in accepted + {g}) == One(f in accepted) + One(g == f)
  {
  }

  lemma PairAdded(q: seq<JpegJob>, src: Frame, g: Frame, f: Frame)
    ensures Count(JobsFrames(q + [JpegJob(g, Some(src), 0)]), f)
            == Count(JobsFrames(q), f) + One(src == f) + One(g == f)
  {
    hide Count, JobsFrames;
    AddJob(q, JpegJob(g, Some(src), 0));
    assert JobsFrames(q) + [src, g] == JobsFrames(q) + [src] + [g];
    CountAppend(JobsFrames(q), src, f);
    CountAppend(JobsFrames(q) + [src], g, f);
  }

  lemma TakeJob(q: seq<JpegJob>, f: Frame)
    requires q != []
    ensures Count(JobsFrames(q), f) == Count(JobFrames(q[0]), f) + Count(JobsFrames(q[1..]), f)
  {
    CountConcat(JobFrames(q[0]), JobsFrames(q[1..]), f);
  }

  lemma {:induction false} CommandConserves(s: State, f: Frame)
    requires FrameConserved(s, f) && s.pc.Idle? && |s.cmds| > 0
    ensures FrameConserved(CommandNext(s), f)
  {
    hide Count, JobsFrames;
  }

  lemma StopConserves(s: State, f: Frame)
    requires FrameConserved(s, f) && Stopping(s.pc)
    ensures FrameConserved(StopNext(s), f)
  {
    match s.pc
    case AbortJobs =>
      if s.ongoingJpegQ != [] {
        TakeJob(s.ongoingJpegQ, f);
        CountConcat(s.released, JobFrames(s.ongoingJpegQ[0]), f);
      }
    case FlushOngoingPP => CountConcat(s.released, s.ongoingPPQ, f);
    case FlushInputJpeg => CountConcat(s.released, JobsFrames(s.inputJpegQ), f);
    case FlushInputPP => CountConcat(s.released, s.inputPPQ, f);
    case _ =>
  }

  lemma EncodeConserves(s: State, ok: bool, id: nat, f: Frame)
    requires FrameConserved(s, f) && OneJob(s) && Encoding(s.pc)
    ensures FrameConserved(EncodeNext(s, ok, id), f)
  {
    hide Count;
    match s.pc
    case TakeJpeg =>
      CountNone(f);
      if s.inputJpegQ != [] { TakeJob(s.inputJpegQ, f); }
    case BeginJpeg(j) =>
      CountNone(f);
      AddJob(s.ongoingJpegQ, j);
      CountConcat(JobsFrames(s.ongoingJpegQ), JobFrames(j), f);
    case Encode =>
      CountNone(f);
      var j := s.ongoingJpegQ[0];
      var t := EncodeNext(s, ok, id);
      if !ok {
        assert t.ongoingJpegQ == [];
        TakeJob(s.ongoingJpegQ, f);
        CountConcat(s.released, JobFrames(j), f);
      }
    case StoreId(id') =>
      if s.ongoingJpegQ != [] {
        var t := EncodeNext(s, ok, id);
        assert t.ongoingJpegQ == [s.ongoingJpegQ[0].(jobId := id')];
        TakeJob(s.ongoingJpegQ, f);
        TakeJob(t.ongoingJpegQ, f);
      }
    case _ =>
  }

  lemma ReprocessConserves(s: State, ok: bool, f: Frame)
    requires FrameConserved(s, f) && Reprocessing(s.pc) && (s.pc.SubmitPP? ==> |s.ongoingPPQ| > 0)
    ensures FrameConserved(ReprocessNext(s, ok), f)
  {
    hide Count;
    CountNone(f);
    match s.pc
    case TakePP =>
      if s.inputPPQ != [] {
        CountHead(s.inputPPQ, f);
        CountOne(s.inputPPQ[0], f);
        CountAppend(s.released, s.inputPPQ[0], f);
      }
    case BeginPP(g) =>
      CountOne(g, f);
      CountAppend(s.ongoingPPQ, g, f);
    case SubmitPP =>
      var init, last := s.ongoingPPQ[..|s.ongoingPPQ| - 1], s.ongoingPPQ[|s.ongoingPPQ| - 1];
      assert s.ongoingPPQ == init + [last];
      CountAppend(init, last, f);
      CountAppend(s.released, last, f);
    case _ =>
  }

  lemma DropConserves(s: State, f: Frame)
    requires FrameConserved(s, f) && Dropping(s.pc)
    ensures FrameConserved(DropNext(s), f)
  {
    match s.pc
    case DropJpeg =>
      if s.inputJpegQ != [] {
        TakeJob(s.inputJpegQ, f);
        CountConcat(s.released, JobFrames(s.inputJpegQ[0]), f);
      }
    case DropPP =>
      if s.inputPPQ != [] { CountAppend(s.released, s.inputPPQ[0], f); }
    case _ =>
  }

  lemma {:induction false} StepKeepsShape(s: State, e: Step)
    requires InFlightShape(s) && Enabled(s, e)
    ensures InFlightShape(Next(s, e))
  {
    hide Count, JobsFrames, JobFrames;
    if e.Worker? {
      hide InFlightShape;
      if s.pc.Idle? { CommandKeepsShape(s); }
      else if Stopping(s.pc) { StopKeepsShape(s); }
      else if Encoding(s.pc) { EncodeKeepsShape(s, e.ok, e.jobId); }
      else if Reprocessing(s.pc) { ReprocessKeepsShape(s, e.ok); }
      else { DropKeepsShape(s); }
    }
  }

  lemma CommandKeepsShape(s: State)
    requires InFlightShape(s) && s.pc.Idle? && |s.cmds| > 0
    ensures InFlightShape(CommandNext(s))
  {
  }

  lemma StopKeepsShape(s: State)
    requires InFlightShape(s) && Stopping(s.pc)
    ensures InFlightShape(StopNext(s))
  {
    hide JobsFrames, JobFrames;
  }

  lemma EncodeKeepsShape(s: State, ok: bool, id: nat)
    requires InFlightShape(s) && Enabled(s, Worker(ok, id)) && Encoding(s.pc)
    ensures InFlightShape(EncodeNext(s, ok, id))
  {
    hide JobsFrames, JobFrames, OneJob;
    EncodeKeepsOneJob(s, ok, id);
  }

  lemma EncodeKeepsOneJob(s: State, ok: bool, id: nat)
    requires OneJob(s) && Enabled(s, Worker(ok, id)) && Encoding(s.pc)
    ensures OneJob(EncodeNext(s, ok, id))
  {
    hide JobsFrames, JobFrames;
  }

  lemma ReprocessKeepsShape(s: State, ok: bool)
    requires InFlightShape(s) && Enabled(s, Worker(ok, 1)) && Reprocessing(s.pc)
    ensures InFlightShape(ReprocessNext(s, ok))
  {
  }

  lemma DropKeepsShape(s: State)
    requires InFlightShape(s) && Dropping(s.pc)
    ensures InFlightShape(DropNext(s))
  {
    hide JobsFrames, JobFrames;
  }

  lemma {:induction false} StepKeepsAwake(s: State, e: Step)
    requires InFlightShape(s) && Awake(s) && Enabled(s, e)
    ensures Awake(Next(s, e))
  {
    hide InFlightShape, Pending, WorkerNext;
    if e.Worker? {
      hide Awake;
      WorkerKeepsAwake(s, e.ok, e.jobId);
    } else {
      hide Next, Enabled;
      CallBringsWakeUps(s, e);
    }
  }

  /** A call brings at least as many wake-ups as entries to each input queue, and one when it takes
      a job out of the ongoing queue; it leaves the worker alone. */
  lemma CallBringsWakeUps(s: State, e: Step)
    requires Enabled(s, e) && !e.Worker?
    ensures var t := Next(s, e);
            var more := Pending(t) - Pending(s);
            && t.pc == s.pc && t.active == s.active && more >= 0
            && |t.inputPPQ| <= |s.inputPPQ| + more
            && |t.inputRawQ| <= |s.inputRawQ| + more
            && |t.inputJpegQ| <= |s.inputJpegQ| + more
            && (t.ongoingJpegQ == s.ongoingJpegQ || more > 0)
  {
    hide CountNext, WorkerNext, JobsFrames, JobFrames;
    match e
    case SendNext => CountSent(s.cmds, DoNextJob);
    case Start(_) => CountSent(s.cmds, StartDataProc);
    case Stop => CountSent(s.cmds, StopDataProc);
    case Quit => CountSent(s.cmds, Exit);
    case _ =>
  }

  lemma WorkerKeepsAwake(s: State, ok: bool, id: nat)
    requires InFlightShape(s) && Awake(s) && Enabled(s, Worker(ok, id))
    ensures Awake(WorkerNext(s, ok, id))
  {
    hide InFlightShape, Awake;
    if s.pc.Idle? { CommandKeepsAwake(s); }
    else if Stopping(s.pc) { StopKeepsAwake(s); }
    else if Encoding(s.pc) { EncodeKeepsAwake(s, ok, id); }
    else if Reprocessing(s.pc) { ReprocessKeepsAwake(s, ok); }
    else { DropKeepsAwake(s); }
  }

  lemma CommandKeepsAwake(s: State)
    requires InFlightShape(s) && Awake(s) && s.pc.Idle? && |s.cmds| > 0
    ensures Awake(CommandNext(s))
  {
  }

  lemma StopKeepsAwake(s: State)
    requires InFlightShape(s) && Awake(s) && Stopping(s.pc)
    ensures Awake(StopNext(s))
  {
    hide JobsFrames, JobFrames, OneJob;
  }

  lemma EncodeKeepsAwake(s: State, ok: bool, id: nat)
    requires InFlightShape(s) && Awake(s) && Enabled(s, Worker(ok, id)) && Encoding(s.pc)
    ensures Awake(EncodeNext(s, ok, id))
  {
    hide JobsFrames, JobFrames, OneJob;
  }

  lemma ReprocessKeepsAwake(s: State, ok: bool)
    requires InFlightShape(s) && Awake(s) && Enabled(s, Worker(ok, 1)) && Reprocessing(s.pc)
    ensures Awake(ReprocessNext(s, ok))
  {
    hide OneJob;
  }

  lemma DropKeepsAwake(s: State)
    requires InFlightShape(s) && Awake(s) && Dropping(s.pc)
    ensures Awake(DropNext(s))
  {
    hide JobsFrames, JobFrames, OneJob;
  }

  lemma StepKeepsJpegAwake(s: State, e: Step)
    requires InFlightShape(s) && Awake(s) && JpegAwake(s) && Enabled(s, e) && !RefusesEncode(s, e)
    ensures JpegAwake(Next(s, e))
  {
    if e.Worker? {
      hide JpegAwake;
      if s.pc.Idle? { CommandKeepsJpegAwake(s); }
      else if Stopping(s.pc) { StopKeepsJpegAwake(s); }
      else if Encoding(s.pc) { EncodeKeepsJpegAwake(s, e.jobId); }
      else if Reprocessing(s.pc) { ReprocessKeepsJpegAwake(s, e.ok); }
      else { DropKeepsJpegAwake(s); }
    } else {
      hide Next, Enabled, Pending, InFlightShape, Awake;
      CallBringsWakeUps(s, e);
    }
  }

  lemma CommandKeepsJpegAwake(s: State)
    requires InFlightShape(s) && Awake(s) && JpegAwake(s) && s.pc.Idle? && |s.cmds| > 0
    ensures JpegAwake(CommandNext(s))
  {
    hide OneJob;
  }

  lemma StopKeepsJpegAwake(s: State)
    requires InFlightShape(s) && Stopping(s.pc)
    ensures JpegAwake(StopNext(s))
  {
    hide JobsFrames, JobFrames, OneJob;
  }

  lemma EncodeKeepsJpegAwake(s: State, id: nat)
    requires InFlightShape(s) && JpegAwake(s) && Encoding(s.pc)
    ensures JpegAwake(EncodeNext(s, true, id))
  {
    hide JobsFrames, JobFrames;
  }

  lemma ReprocessKeepsJpegAwake(s: State, ok: bool)
    requires JpegAwake(s) && Reprocessing(s.pc) && (s.pc.SubmitPP? ==> |s.ongoingPPQ| > 0)
    ensures JpegAwake(ReprocessNext(s, ok))
  {
  }

  lemma DropKeepsJpegAwake(s: State)
    requires InFlightShape(s) && Dropping(s.pc)
    ensures JpegAwake(DropNext(s))
  {
    hide JobsFrames, JobFrames, OneJob;
  }

  // ---------- every run ----------

  lemma {:induction false} StepKeepsInv(s: State, e: Step)
    requires Inv(s) && Enabled(s, e)
    ensures Inv(Next(s, e))
  {
    hide FrameConserved, Awake, Enabled, Next;
    forall f ensures FrameConserved(Next(s, e), f) {
      assert FrameConserved(s, f);
      StepConserves(s, e, f);
    }
    StepKeepsShape(s, e);
    StepKeepsAwake(s, e);
  }

  lemma {:induction false} RunKeepsInv(s: State, run: seq<Step>)
    requires Inv(s) && ValidRun(s, run)
    ensures Inv(Exec(s, run))
    decreases |run|
  {
    hide Inv, Next, Enabled;
    if run != [] {
      StepKeepsInv(s, run[0]);
      RunKeepsInv(Next(s, run[0]), run[1..]);
    }
  }

  lemma {:induction false} RunKeepsJpegAwake(s: State, run: seq<Step>)
    requires Inv(s) && JpegAwake(s) && ValidRun(s, run) && EncodesStart(s, run)
    ensures JpegAwake(Exec(s, run))
    decreases |run|
  {
    hide Next, Enabled, Conserved, JpegAwake, RefusesEncode;
    if run != [] {
      StepKeepsInv(s, run[0]);
      StepKeepsJpegAwake(s, run[0]);
      RunKeepsJpegAwake(Next(s, run[0]), run[1..]);
    }
  }

  lemma {:induction false} InitialInv()
    ensures Inv(INITIAL) && JpegAwake(INITIAL)
  {
    hide Count, JobsFrames, Awake, InFlightShape;
    forall f ensures FrameConserved(INITIAL, f) {
      CountNone(f);
      NoJobs();
    }
    InitialShape();
    EmptyAwake(INITIAL);
  }

  lemma InitialShape()
    ensures InFlightShape(INITIAL)
  {
  }

  lemma EmptyAwake(s: State)
    requires s.inputPPQ == s.inputRawQ == [] && s.inputJpegQ == []
    ensures Awake(s)
  {
    hide CountNext;
  }

  lemma NoJobs()
    ensures JobsFrames([]) == []
  {
  }

  /** Main result: the invariant holds in every reachable state, whatever the interleaving. */
  lemma ReachableInv(s: State)
    requires Reachable(s)
    ensures Inv(s)
  {
    hide Inv, ValidRun, Exec;
    InitialInv();
    var run :| ValidRun(INITIAL, run) && Exec(INITIAL, run) == s;
    RunKeepsInv(INITIAL, run);
  }

  /** Every accepted frame is in exactly one place or was released exactly once; a frame that was
      not accepted is nowhere. */
  lemma EveryFrameAccountedFor(s: State, f: Frame)
    requires Reachable(s)
    ensures Held(s, f) + Count(s.released, f) == if f in s.accepted then 1 else 0
  {
    hide Reachable;
    ReachableInv(s);
    assert FrameConserved(s, f);
  }

  /** Nothing more will happen: the worker waits, no command is queued, no caller is half-way. */
  predicate Quiescent(s: State) {
    s.pc.Idle? && s.cmds == [] && s.sending == 0 && s.inHand == multiset{}
  }

  /** Once the worker is stopped and the system is quiet, every frame ever accepted has been
      released exactly once and every queue is empty, whatever the interleaving was. */
  lemma StopReleasesEverything(s: State, f: Frame)
    requires Reachable(s) && Quiescent(s) && !s.active
    ensures s.inputPPQ == s.ongoingPPQ == s.inputRawQ == []
    ensures s.inputJpegQ == s.ongoingJpegQ == []
    ensures Count(s.released, f) == if f in s.accepted then 1 else 0
  {
    hide Reachable;
    ReachableInv(s);
    assert FrameConserved(s, f);
  }

  /** At most one jpeg job is ever ongoing, and finding a job by taking the head agrees with the
      search by id exactly when nothing is ongoing or the head has that id.  So it does for the job of
      an event that the library reports on a started job exactly when the worker has stored the id;
      before that the head is that job all the same. */
  lemma FindJobAgrees(s: State, id: nat)
    requires Reachable(s) && id != 0
    ensures |s.ongoingJpegQ| <= 1
    ensures FindJpegJobByJobId(s.ongoingJpegQ, id) == LookupJob(s.ongoingJpegQ, id)
            <==> s.ongoingJpegQ == [] || s.ongoingJpegQ[0].jobId == id
    ensures Enabled(s, JpegEvent(id))
            ==> |s.ongoingJpegQ| == 1
                && (FindJpegJobByJobId(s.ongoingJpegQ, id) == LookupJob(s.ongoingJpegQ, id) <==> !s.pc.StoreId?)
  {
    hide Reachable, Awake, Conserved;
    ReachableInv(s);
    if s.ongoingJpegQ != [] { assert s.ongoingJpegQ[1..] == []; }
  }

  /** No stranded work: the wake-ups on their way cover the reprocess and raw input queues ... */
  lemma NoStrandedWork(s: State)
    requires Reachable(s)
    ensures Awake(s)
  {
    hide Reachable;
    ReachableInv(s);
  }

  /** ... and, when every encode starts, a jpeg job that waits while none is ongoing. */
  lemma NoStrandedJpegJob(s: State)
    requires ReachableEncoding(s)
    ensures JpegAwake(s)
  {
    hide Inv, JpegAwake, ValidRun, Exec, EncodesStart;
    InitialInv();
    var run :| ValidRun(INITIAL, run) && Exec(INITIAL, run) == s && EncodesStart(INITIAL, run);
    RunKeepsJpegAwake(INITIAL, run);
  }

  /** So a quiet, active system whose encodes all started waits only for the jpeg library and for
      the reprocess channel, which has accepted every frame of the ongoing queue. */
  lemma QuietMeansDone(s: State)
    requires ReachableEncoding(s) && Quiescent(s) && s.active
    ensures s.inputPPQ == s.inputRawQ == [] && (s.inputJpegQ == [] || s.ongoingJpegQ != [])
    ensures s.submitted == |s.ongoingPPQ|
  {
    hide ValidRun, Exec, EncodesStart;
    EncodingReachable(s);
    ReachableInv(s);
    NoStrandedJpegJob(s);
    NoStrandedWork(s);
  }

  lemma EncodingReachable(s: State)
    requires ReachableEncoding(s)
    ensures Reachable(s)
  {
    hide ValidRun, Exec, EncodesStart;
  }

  // ---------- a refused encode ----------

  /** After an encode that the library refuses, the waiting jobs still have a wake-up exactly when
      none waits or a DoNextJob is queued or owed. */
  lemma RefusedEncodeStrandsIff(s: State, id: nat)
    requires Inv(s) && s.pc.Encode?
    ensures JpegAwake(Next(s, Worker(false, id))) <==> s.inputJpegQ == [] || Pending(s) > 0
  {
    hide JobsFrames, JobFrames, Awake, Conserved;
  }

  /** The wake-up for waiting jpeg jobs is there in every state of the run. */
  ghost predicate AlwaysJpegAwake(s: State, run: seq<Step>)
    requires ValidRun(s, run)
    decreases |run|
  {
    JpegAwake(s) && (run == [] || AlwaysJpegAwake(Next(s, run[0]), run[1..]))
  }

  /** Whenever the library refuses an encode, no job waits or a DoNextJob is queued or owed. */
  ghost predicate RefusalsCovered(s: State, run: seq<Step>)
    requires ValidRun(s, run)
    decreases |run|
  {
    run == []
    || ((RefusesEncode(s, run[0]) ==> s.inputJpegQ == [] || Pending(s) > 0)
        && RefusalsCovered(Next(s, run[0]), run[1..]))
  }

  /** Over whole runs: no waiting jpeg job ever loses its wake-up exactly when every refusal comes
      while no job waits or another wake-up is on its way. */
  lemma {:induction false} RefusalsStrandIff(s: State, run: seq<Step>)
    requires Inv(s) && JpegAwake(s) && ValidRun(s, run)
    ensures AlwaysJpegAwake(s, run) <==> RefusalsCovered(s, run)
    decreases |run|
  {
    hide Inv, JpegAwake, Enabled, Next, Pending;
    if run != [] {
      var e, t := run[0], Next(s, run[0]);
      StepKeepsInv(s, e);
      StepJpegAwakeIff(s, e);
      if JpegAwake(t) { RefusalsStrandIff(t, run[1..]); }
    }
  }

  lemma StepJpegAwakeIff(s: State, e: Step)
    requires Inv(s) && JpegAwake(s) && Enabled(s, e)
    ensures JpegAwake(Next(s, e)) <==> (RefusesEncode(s, e) ==> s.inputJpegQ == [] || Pending(s) > 0)
  {
    hide JpegAwake, Next, Pending, Conserved, Awake, InFlightShape;
    if RefusesEncode(s, e) { RefusedEncodeStrandsIff(s, e.jobId); } else { StepKeepsJpegAwake(s, e); }
  }

  /** From the start, hence, in every run. */
  lemma RunStrandsIff(run: seq<Step>)
    requires ValidRun(INITIAL, run)
    ensures AlwaysJpegAwake(INITIAL, run) <==> RefusalsCovered(INITIAL, run)
  {
    hide ValidRun, AlwaysJpegAwake, RefusalsCovered;
    InitialInv();
    RefusalsStrandIff(INITIAL, run);
  }

  lemma {:induction false} ExecAppend(s: State, run: seq<Step>, e: Step)
    requires ValidRun(s, run) && Enabled(Exec(s, run), e)
    ensures ValidRun(s, run + [e]) && Exec(s, run + [e]) == Next(Exec(s, run), e)
    decreases |run|
  {
    hide Enabled, Next;
    if run == [] {
      assert [e][1..] == [] && run + [e] == [e];
    } else {
      assert (run + [e])[1..] == run[1..] + [e] && (run + [e])[0] == run[0];
      ExecAppend(Next(s, run[0]), run[1..], e);
    }
  }

  lemma StepReachable(s: State, e: Step) returns (t: State)
    requires Reachable(s) && Enabled(s, e)
    ensures t == Next(s, e) && Reachable(t)
  {
    hide ValidRun, Exec, Enabled, Next;
    var run :| ValidRun(INITIAL, run) && Exec(INITIAL, run) == s;
    ExecAppend(INITIAL, run, e);
    t := Next(s, e);
  }

  lemma InitialReachable()
    ensures Reachable(INITIAL)
  {
    assert ValidRun(INITIAL, []) && Exec(INITIAL, []) == INITIAL;
  }

  /** A frame for the jpeg queue arrives while the worker waits. */
  lemma Offer(s: State, f: Frame) returns (t: State)
    requires Reachable(s) && Quiescent(s) && Fresh(s, f)
    ensures t == s.(accepted := s.accepted + {f}, cmds := [DoNextJob],
                    inputJpegQ := s.inputJpegQ + [JpegJob(f, None, 0)]) && Reachable(t)
  {
    hide Reachable;
    t := StepReachable(s, Data(f, false));
    t := StepReachable(t, SendNext);
  }

  /** The active worker handles a command while a job is being encoded: nothing moves. */
  lemma Blocked(s: State) returns (t: State)
    requires Reachable(s) && s.pc.Idle? && s.active && s.cmds == [DoNextJob] && s.ongoingJpegQ != []
    requires s.inputRawQ == s.inputPPQ == []
    ensures t == s.(cmds := []) && Reachable(t)
  {
    hide Reachable;
    t := StepReachable(s, Worker(true, 1));
    t := StepReachable(t, Worker(true, 1));
    t := StepReachable(t, Worker(true, 1));
    t := StepReachable(t, Worker(true, 1));
  }

  /** The active worker takes the first waiting job and the library starts or refuses it. */
  lemma Taken(s: State, ok: bool, id: nat) returns (t: State)
    requires Reachable(s) && s.pc.Idle? && s.active && s.cmds == [DoNextJob] && s.ongoingJpegQ == []
    requires s.inputRawQ == s.inputPPQ == [] && s.inputJpegQ != [] && id != 0
    ensures Reachable(t)
    ensures var j := s.inputJpegQ[0];
            t == s.(cmds := [], inputJpegQ := s.inputJpegQ[1..],
                    ongoingJpegQ := if ok then [j.(jobId := id)] else [],
                    released := s.released + if ok then [] else JobFrames(j))
  {
    hide Reachable;
    t := Begun(s);
    t := EncodeThenIdle(t, ok, id);
  }

  /** The active worker is about to start the first waiting job. */
  lemma Begun(s: State) returns (t: State)
    requires Reachable(s) && s.pc.Idle? && s.active && s.cmds == [DoNextJob] && s.ongoingJpegQ == []
    requires s.inputJpegQ != []
    ensures Reachable(t)
    ensures t == s.(cmds := [], inputJpegQ := s.inputJpegQ[1..], ongoingJpegQ := [s.inputJpegQ[0]], pc := Encode)
  {
    hide Reachable;
    t := StepReachable(s, Worker(true, 1));
    t := StepReachable(t, Worker(true, 1));
    assert t == s.(cmds := [], pc := TakeJpeg);
    t := StepReachable(t, Worker(true, 1));
    t := StepReachable(t, Worker(true, 1));
  }

  lemma EncodeThenIdle(s: State, ok: bool, id: nat) returns (t: State)
    requires Reachable(s) && s.pc.Encode? && s.inputRawQ == s.inputPPQ == [] && id != 0
    requires |s.ongoingJpegQ| == 1
    ensures Reachable(t)
    ensures var j := s.ongoingJpegQ[0];
            t == s.(pc := Idle, ongoingJpegQ := if ok then [j.(jobId := id)] else [],
                    released := s.released + if ok then [] else JobFrames(j))
  {
    hide Reachable, JobFrames;
    t := StepReachable(s, Worker(ok, id));
    if ok { t := StepReachable(t, Worker(ok, id)); }
    assert t == s.(pc := TakeRaw, ongoingJpegQ := if ok then [s.ongoingJpegQ[0].(jobId := id)] else [],
                   released := s.released + if ok then [] else JobFrames(s.ongoingJpegQ[0]));
    t := StepReachable(t, Worker(ok, id));
    t := StepReachable(t, Worker(ok, id));
  }

  /** Three frames and one refusal reach a quiet, active system in which a frame waits although
      nothing is being encoded, until something else is sent: the wake-ups of the second and third
      frame were spent while the first was being encoded. */
  lemma RefusedEncodeStrands()
    ensures exists s :: Reachable(s) && Quiescent(s) && s.active
                        && s.ongoingJpegQ == [] && s.inputJpegQ != []
  {
    hide Reachable;
    InitialReachable();
    var s := StepReachable(INITIAL, Start(false));
    s := StepReachable(s, Worker(true, 1));
    s := Offer(s, 1);
    s := Taken(s, true, 1);
    s := Offer(s, 2);
    s := Blocked(s);
    s := Offer(s, 3);
    s := Blocked(s);
    s := StepReachable(s, JpegEvent(1));
    s := StepReachable(s, SendNext);
    s := Taken(s, false, 1);
  }

  // ---------- an event before the id is stored ----------

  /** The worker's store of the id comes after its job was freed exactly if an event was reported
      between the start of the job and the store. */
  lemma StoreIsLateIff(s: State, e: Step)
    requires Inv(s) && Enabled(s, e) && Next(s, e).pc.StoreId?
    ensures Next(s, e).ongoingJpegQ == [] <==> s.pc.StoreId? && (s.ongoingJpegQ == [] || e.JpegEvent?)
  {
    hide Conserved, Awake, JobFrames, JobsFrames, WorkerNext;
    if e.Worker? {
      WorkerReachesStore(s, e.ok, e.jobId);
    } else {
      assert |s.ongoingJpegQ| == 1 ==> s.ongoingJpegQ[1..] == [];
    }
  }

  /** In every state of the run, a store that is to come has its job still in the queue. */
  ghost predicate StoresLive(s: State, run: seq<Step>)
    requires ValidRun(s, run)
    decreases |run|
  {
    (s.pc.StoreId? ==> s.ongoingJpegQ != []) && (run == [] || StoresLive(Next(s, run[0]), run[1..]))
  }

  /** No event is reported between the start of a job and the store of its id. */
  ghost predicate NoEarlyEvent(s: State, run: seq<Step>)
    requires ValidRun(s, run)
    decreases |run|
  {
    run == [] || (!(s.pc.StoreId? && run[0].JpegEvent?) && NoEarlyEvent(Next(s, run[0]), run[1..]))
  }

  /** Over whole runs: no id is ever stored into a freed job exactly when no event comes early. */
  lemma {:induction false} StoresLiveIff(s: State, run: seq<Step>)
    requires Inv(s) && ValidRun(s, run) && (s.pc.StoreId? ==> s.ongoingJpegQ != [])
    ensures StoresLive(s, run) <==> NoEarlyEvent(s, run)
    decreases |run|
  {
    hide Inv, Enabled, Next;
    if run != [] {
      var e, t := run[0], Next(s, run[0]);
      StepKeepsInv(s, e);
      if t.pc.StoreId? { StoreIsLateIff(s, e); }
      if s.pc.StoreId? && e.JpegEvent? { EventStays(s, e); }
      if t.pc.StoreId? ==> t.ongoingJpegQ != [] { StoresLiveIff(t, run[1..]); }
    }
  }

  lemma EventStays(s: State, e: Step)
    requires Enabled(s, e) && e.JpegEvent?
    ensures Next(s, e).pc == s.pc
  {
    hide WorkerNext;
  }

  /** The worker gets to the store only by starting a job, which stays in the queue. */
  lemma WorkerReachesStore(s: State, ok: bool, id: nat)
    requires Enabled(s, Worker(ok, id))
    ensures var t := WorkerNext(s, ok, id); t.pc.StoreId? ==> s.pc.Encode? && t.ongoingJpegQ == s.ongoingJpegQ
  {
    hide JobFrames, JobsFrames, StopNext, ReprocessNext, DropNext;
    if Stopping(s.pc) { StopStaysAway(s); }
    else if Reprocessing(s.pc) { ReprocessStaysAway(s, ok); }
    else if Dropping(s.pc) { DropStaysAway(s); }
  }

  lemma StopStaysAway(s: State)
    requires Stopping(s.pc)
    ensures !StopNext(s).pc.StoreId?
  {
    hide JobFrames, JobsFrames;
  }

  lemma ReprocessStaysAway(s: State, ok: bool)
    requires Reprocessing(s.pc) && (s.pc.SubmitPP? ==> |s.ongoingPPQ| > 0)
    ensures !ReprocessNext(s, ok).pc.StoreId?
  {
  }

  lemma DropStaysAway(s: State)
    requires Dropping(s.pc)
    ensures !DropNext(s).pc.StoreId?
  {
    hide JobFrames, JobsFrames;
  }

  /** Such a run exists. */
  lemma EarlyEvent() returns (s: State)
    ensures Reachable(s) && s.pc.StoreId? && s.ongoingJpegQ == []
  {
    hide Reachable;
    InitialReachable();
    s := StepReachable(INITIAL, Start(false));
    s := StepReachable(s, Worker(true, 1));
    s := Offer(s, 1);
    s := Begun(s);
    s := StepReachable(s, Worker(true, 1));
    s := StepReachable(s, JpegEvent(1));
  }
}
