/**
 The post-processor object.  Each method runs to completion; its contract says which steps of the
 step system it performs, so every property of the step system holds of it.
 */
module PostProcessor {
  import opened Wrappers
  import opened CameraQueue
  import opened CmdThread
  import opened PostProcSteps
  import PostProcTheorems

  /** Code: an error code of a foreign call, passed on. */
  datatype Status = NoError | UnknownError | BadValue | NoMemory | FailedTransaction | Code(rc: int)

  /** What becomes of an encoded picture: nobody wants it, the encoder failed, there is no memory to
      hand it up, or it is handed up with the given result. */
  datatype Delivery = NotWanted | EncodeFailed | OutOfMemory | HandedUp(result: Status)

  function DeliveryStatus(d: Delivery): Status {
    match d
    case NotWanted => NoError
    case EncodeFailed => FailedTransaction
    case OutOfMemory => NoMemory
    case HandedUp(result) => result
  }

  /** Whether the reprocess channel could be added, and what starting it returned. */
  datatype ChannelUp = NotAdded | Added(startRc: int)

  predicate Up(c: ChannelUp) { c.Added? && c.startRc == 0 }

  /** How the foreign calls of one worker command turn out. */
  datatype Outcomes = Outcomes(encodeOk: bool, jobId: nat, reprocOk: bool)

  function Outcome(o: Outcomes, pc: Pc): bool { if pc.SubmitPP? then o.reprocOk else o.encodeOk }

  /** Position of the worker in its command, counted down to the end. */
  function Rank(pc: Pc): nat {
    match pc
    case Idle => 0
    case Exited => 0
    case AbortJobs => 10
    case StopReproc => 9
    case FlushOngoingPP => 8
    case FlushInputJpeg => 7
    case FlushInputPP => 6
    case FlushInputRaw => 5
    case CheckOngoing => 9
    case TakeJpeg => 8
    case BeginJpeg(_) => 7
    case Encode => 6
    case StoreId(_) => 5
    case TakeRaw => 4
    case TakePP => 3
    case BeginPP(_) => 2
    case SubmitPP => 1
    case DropJpeg => 3
    case DropRaw => 2
    case DropPP => 1
  }

  /** The worker's position and the ongoing queues allow its next step. */
  predicate Ready(s: State, o: Outcomes) {
    && (s.pc.Encode? ==> |s.ongoingJpegQ| > 0)
    && (s.pc.SubmitPP? ==> |s.ongoingPPQ| > 0)
    && (o.encodeOk ==> o.jobId != 0)
  }

  predicate Waits(s: State) { s.pc.Idle? || s.pc.Exited? }

  /** The worker carries on undisturbed until it waits again. */
  function Finish(s: State, o: Outcomes): State
    requires Ready(s, o)
    decreases Rank(s.pc), |s.ongoingJpegQ|
  {
    if Waits(s) then s
    else
      Descends(s, o);
      Finish(OwnStep(s, o), o)
  }

  function OwnStep(s: State, o: Outcomes): State
    requires Ready(s, o) && !Waits(s)
  {
    WorkerNext(s, Outcome(o, s.pc), o.jobId)
  }

  predicate Smaller(t: State, s: State) {
    Rank(t.pc) < Rank(s.pc) || (t.pc == s.pc && |t.ongoingJpegQ| < |s.ongoingJpegQ|)
  }

  lemma {:induction false} Descends(s: State, o: Outcomes)
    requires Ready(s, o) && !Waits(s)
    ensures Ready(OwnStep(s, o), o) && Smaller(OwnStep(s, o), s)
  {
    hide Smaller, StopNext, EncodeNext, ReprocessNext, DropNext;
    if Stopping(s.pc) { StopDescends(s, o); }
    else if Encoding(s.pc) { EncodeDescends(s, o); }
    else if Reprocessing(s.pc) { ReprocessDescends(s, o); }
    else { DropDescends(s, o); }
  }

  lemma StopDescends(s: State, o: Outcomes)
    requires Ready(s, o) && Stopping(s.pc)
    ensures Ready(StopNext(s), o) && Smaller(StopNext(s), s)
  {
    hide JobsFrames, JobFrames;
  }

  lemma EncodeDescends(s: State, o: Outcomes)
    requires Ready(s, o) && Encoding(s.pc)
    ensures var t := EncodeNext(s, o.encodeOk, o.jobId); Ready(t, o) && Smaller(t, s)
  {
    hide JobsFrames, JobFrames;
  }

  lemma ReprocessDescends(s: State, o: Outcomes)
    requires Ready(s, o) && Reprocessing(s.pc)
    ensures var t := ReprocessNext(s, Outcome(o, s.pc)); Ready(t, o) && Smaller(t, s)
  {
  }

  lemma DropDescends(s: State, o: Outcomes)
    requires Ready(s, o) && Dropping(s.pc)
    ensures Ready(DropNext(s), o) && Smaller(DropNext(s), s)
  {
    hide JobsFrames, JobFrames;
  }

  /** An undisturbed command is one of the interleavings. */
  lemma {:induction false} FinishReachable(s: State, o: Outcomes)
    requires Ready(s, o) && Reachable(s)
    ensures Reachable(Finish(s, o))
    decreases Rank(s.pc), |s.ongoingJpegQ|
  {
    hide Reachable, WorkerNext;
    if !Waits(s) {
      Descends(s, o);
      ghost var t := PostProcTheorems.StepReachable(s, Worker(Outcome(o, s.pc), o.jobId));
      assert t == OwnStep(s, o);
      FinishReachable(t, o);
    }
  }

  lemma CommandReachable(s: State, o: Outcomes)
    requires Reachable(s) && s.pc.Idle? && |s.cmds| > 0 && (o.encodeOk ==> o.jobId != 0)
    ensures Ready(CommandNext(s), o) && Reachable(Finish(CommandNext(s), o))
  {
    hide Reachable, Finish;
    ghost var t := PostProcTheorems.StepReachable(s, Worker(false, 0));
    FinishReachable(t, o);
  }

  // ---------- the effect of whole commands ----------

  /** STOP: everything outstanding is released and every queue is empty. */
  function StopEffect(s: State): State {
    s.(ongoingJpegQ := [], ongoingPPQ := [], submitted := 0, inputJpegQ := [], inputPPQ := [],
       inputRawQ := [], reprocUp := false, active := false, pc := Idle,
       released := s.released + JobsFrames(s.ongoingJpegQ) + s.ongoingPPQ
                   + JobsFrames(s.inputJpegQ) + s.inputPPQ)
  }

  /** The jpeg half of DO_NEXT_JOB: start one job unless one is ongoing. */
  function EncodeTurn(s: State, o: Outcomes): State {
    if s.ongoingJpegQ != [] || s.inputJpegQ == [] then s
    else
      var j := s.inputJpegQ[0];
      var t := s.(inputJpegQ := s.inputJpegQ[1..]);
      if o.encodeOk then t.(ongoingJpegQ := [j.(jobId := o.jobId)])
      else t.(released := s.released + JobFrames(j))
  }

  /** The rest of DO_NEXT_JOB: hand over one raw frame and submit one frame for reprocessing. */
  function ReprocessTurn(s: State, o: Outcomes): State {
    var r := s.(inputRawQ := Tail(s.inputRawQ));
    if s.inputPPQ == [] then r
    else
      var t := r.(inputPPQ := s.inputPPQ[1..]);
      if s.reprocUp && o.reprocOk then
        t.(ongoingPPQ := s.ongoingPPQ + [s.inputPPQ[0]], submitted := s.submitted + 1)
      else t.(released := s.released + [s.inputPPQ[0]])
  }

  /** DO_NEXT_JOB while stopped: one entry of each input queue is given back. */
  function DropEffect(s: State): State {
    var r := s.(inputJpegQ := Tail(s.inputJpegQ), inputRawQ := Tail(s.inputRawQ),
                inputPPQ := Tail(s.inputPPQ));
    r.(released := s.released
                   + (if s.inputJpegQ == [] then [] else JobFrames(s.inputJpegQ[0]))
                   + (if s.inputPPQ == [] then [] else [s.inputPPQ[0]]))
  }

  function Tail<T>(q: seq<T>): seq<T> { if q == [] then [] else q[1..] }

  lemma {:induction false} StepThenFinish(s: State, o: Outcomes) returns (t: State)
    requires Ready(s, o) && !Waits(s)
    ensures t == OwnStep(s, o) && Ready(t, o) && Finish(s, o) == Finish(t, o)
  {
    hide OwnStep;
    Descends(s, o);
    t := OwnStep(s, o);
  }

  lemma {:induction false} StopFinishes(s: State, o: Outcomes)
    requires Ready(s, o) && s.pc.AbortJobs? && !s.active
    ensures Finish(s, o) == StopEffect(s)
    decreases |s.ongoingJpegQ|
  {
    hide Finish, JobFrames;
    var t := StepThenFinish(s, o);
    if s.ongoingJpegQ != [] {
      StopFinishes(t, o);
      assert s.released + JobsFrames(s.ongoingJpegQ) == t.released + JobsFrames(t.ongoingJpegQ);
    } else {
      FlushesFinish(t, o);
      assert s.released + JobsFrames([]) == s.released;
    }
  }

  lemma FlushesFinish(s: State, o: Outcomes)
    requires Ready(s, o) && s.pc.StopReproc? && !s.active && s.ongoingJpegQ == []
    ensures Finish(s, o)
            == StopEffect(s).(released := s.released + s.ongoingPPQ + JobsFrames(s.inputJpegQ) + s.inputPPQ)
  {
    hide JobsFrames, Finish;
    var t := StepThenFinish(s, o);
    t := StepThenFinish(t, o);
    t := StepThenFinish(t, o);
    t := StepThenFinish(t, o);
    t := StepThenFinish(t, o);
    FinishedIdle(t, o);
  }

  lemma FinishedIdle(s: State, o: Outcomes)
    requires Ready(s, o) && Waits(s)
    ensures Finish(s, o) == s
  {
  }

  lemma EncodeFinishes(s: State, o: Outcomes)
    requires Ready(s, o) && s.pc.CheckOngoing? && s.active
    ensures Finish(s, o) == Finish(EncodeTurn(s, o).(pc := TakeRaw), o)
  {
    hide JobsFrames, JobFrames, Finish, StopNext, ReprocessNext, DropNext;
    var t := StepThenFinish(s, o);
    if s.ongoingJpegQ == [] {
      t := StepThenFinish(t, o);
      if s.inputJpegQ != [] { JobFinishes(t, o); }
    }
  }

  lemma EncodeStep(s: State, o: Outcomes)
    requires Ready(s, o) && Encoding(s.pc)
    ensures OwnStep(s, o) == EncodeNext(s, o.encodeOk, o.jobId)
  {
    hide JobFrames, JobsFrames, EncodeNext;
  }

  /** Starting the job that has been taken. */
  lemma JobFinishes(s: State, o: Outcomes)
    requires Ready(s, o) && s.pc.BeginJpeg? && s.ongoingJpegQ == []
    ensures var j := s.pc.job;
            Finish(s, o)
            == Finish(if o.encodeOk then s.(ongoingJpegQ := [j.(jobId := o.jobId)], pc := TakeRaw)
                      else s.(released := s.released + JobFrames(j), pc := TakeRaw), o)
  {
    hide JobsFrames, JobFrames, Finish, OwnStep;
    EncodeStep(s, o);
    var t := StepThenFinish(s, o);
    assert t == s.(ongoingJpegQ := [s.pc.job], pc := Encode);
    if o.encodeOk { IdFinishes(t, o); } else { RefusalFinishes(t, o); }
  }

  /** The library has taken the only job, and its number is stored. */
  lemma IdFinishes(s: State, o: Outcomes)
    requires Ready(s, o) && s.pc.Encode? && |s.ongoingJpegQ| == 1 && o.encodeOk
    ensures Finish(s, o)
            == Finish(s.(ongoingJpegQ := [s.ongoingJpegQ[0].(jobId := o.jobId)], pc := TakeRaw), o)
  {
    hide JobsFrames, JobFrames, Finish, OwnStep;
    EncodeStep(s, o);
    var t := StepThenFinish(s, o);
    EncodeStep(t, o);
    t := StepThenFinish(t, o);
    assert t.ongoingJpegQ == [s.ongoingJpegQ[0].(jobId := o.jobId)];
  }

  /** The library has refused the only job. */
  lemma RefusalFinishes(s: State, o: Outcomes)
    requires Ready(s, o) && s.pc.Encode? && |s.ongoingJpegQ| == 1 && !o.encodeOk
    ensures Finish(s, o)
            == Finish(s.(ongoingJpegQ := [], released := s.released + JobFrames(s.ongoingJpegQ[0]),
                         pc := TakeRaw), o)
  {
    hide JobsFrames, JobFrames, Finish, OwnStep;
    EncodeStep(s, o);
    var t := StepThenFinish(s, o);
  }

  lemma ReprocessFinishes(s: State, o: Outcomes)
    requires Ready(s, o) && s.pc.TakeRaw?
    ensures Finish(s, o) == ReprocessTurn(s.(pc := Idle), o)
  {
    hide Finish, JobFrames, JobsFrames, OwnStep;
    ReprocessStep(s, o);
    var t := StepThenFinish(s, o);
    ReprocessStep(t, o);
    t := StepThenFinish(t, o);
    if s.inputPPQ != [] && s.reprocUp {
      var f := s.inputPPQ[0];
      ReprocessStep(t, o);
      t := StepThenFinish(t, o);
      ReprocessStep(t, o);
      assert t == s.(inputRawQ := Tail(s.inputRawQ), inputPPQ := s.inputPPQ[1..],
                     ongoingPPQ := s.ongoingPPQ + [f], pc := SubmitPP);
      assert (s.ongoingPPQ + [f])[..|s.ongoingPPQ|] == s.ongoingPPQ;
      t := StepThenFinish(t, o);
    }
    FinishedIdle(t, o);
  }

  /** Both halves of DO_NEXT_JOB while active. */
  lemma TurnsFinish(s: State, o: Outcomes)
    requires s.pc.Idle? && s.active && (o.encodeOk ==> o.jobId != 0)
    ensures Finish(s.(pc := CheckOngoing), o) == ReprocessTurn(EncodeTurn(s, o), o)
  {
    hide Finish, JobFrames;
    EncodeFinishes(s.(pc := CheckOngoing), o);
    ReprocessFinishes(EncodeTurn(s, o).(pc := TakeRaw), o);
  }

  lemma ReprocessStep(s: State, o: Outcomes)
    requires Ready(s, o) && Reprocessing(s.pc)
    ensures OwnStep(s, o) == ReprocessNext(s, Outcome(o, s.pc))
  {
    hide JobFrames, JobsFrames, ReprocessNext;
  }

  lemma DropFinishes(s: State, o: Outcomes)
    requires Ready(s, o) && s.pc.DropJpeg?
    ensures Finish(s, o) == DropEffect(s).(pc := Idle)
  {
    hide Finish, OwnStep, DropNext, DropEffect;
    DropsAll(s);
    var t := StepThenFinish(s, o);
    DropStep(s, o);
    t := StepThenFinish(t, o);
    DropStep(DropNext(s), o);
    t := StepThenFinish(t, o);
    DropStep(DropNext(DropNext(s)), o);
    FinishedIdle(t, o);
  }

  lemma DropsAll(s: State)
    requires s.pc.DropJpeg?
    ensures DropNext(s).pc.DropRaw? && DropNext(DropNext(s)).pc.DropPP?
    ensures DropNext(DropNext(DropNext(s))) == DropEffect(s).(pc := Idle)
  {
    hide JobFrames, JobsFrames;
  }

  lemma DropStep(s: State, o: Outcomes)
    requires Ready(s, o) && Dropping(s.pc)
    ensures OwnStep(s, o) == DropNext(s)
  {
    hide JobFrames, JobsFrames, DropNext;
  }

  lemma RawSteps(s: State, frame: Frame)
    requires Fresh(s, frame)
    ensures Next(Next(s, Raw(frame, 1)), SendNext)
            == s.(inputRawQ := s.inputRawQ + [frame], cmds := s.cmds + [DoNextJob])
  {
  }

  /** The undisturbed steps of the reprocess callback. */
  lemma CallbackSteps(s: State, frame: Frame, nv16: bool)
    requires s.inHand == multiset{} && s.submitted > 0 && s.ongoingPPQ != [] && Fresh(s, frame)
    ensures var src := s.ongoingPPQ[0];
            var t := s.(ongoingPPQ := s.ongoingPPQ[1..], submitted := s.submitted - 1, cmds := s.cmds + [DoNextJob]);
            var e := if nv16 then PPToRaw(src, frame) else PPEnqueue(src, frame);
            Next(Next(Next(s, PPDequeue), e), SendNext)
            == if nv16 then t.(released := s.released + [src], inputRawQ := s.inputRawQ + [frame])
               else t.(accepted := s.accepted + {frame},
                       inputJpegQ := s.inputJpegQ + [JpegJob(frame, Some(src), 0)])
  {
    hide WorkerNext, JobFrames, JobsFrames;
    assert s.inHand + multiset{s.ongoingPPQ[0]} - multiset{s.ongoingPPQ[0]} == multiset{};
  }

  class QCameraPostProcessor {
    const inputPPQ: Queue<Frame>
    const ongoingPPQ: Queue<Frame>
    const inputJpegQ: Queue<JpegJob>
    const ongoingJpegQ: Queue<JpegJob>
    const inputRawQ: Queue<Frame>
    const cmdQueue: Queue<Command>
    var inited: bool
    var active: bool
    var exited: bool
    var reprocChannel: bool
    var released: seq<Frame>
    ghost var accepted: set<Frame>

    ghost function Queues(): set<object> {
      {inputPPQ as object, ongoingPPQ as object, inputJpegQ as object, ongoingJpegQ as object,
       inputRawQ as object, cmdQueue as object}
    }

    ghost predicate Valid()
      reads this, Queues()
    {
      && inputPPQ.Valid() && ongoingPPQ.Valid() && inputJpegQ.Valid() && ongoingJpegQ.Valid()
      && inputRawQ.Valid() && cmdQueue.Valid()
      && inputPPQ != ongoingPPQ && inputPPQ != inputRawQ && ongoingPPQ != inputRawQ
      && inputJpegQ != ongoingJpegQ
    }

    ghost function Abs(): State
      reads this, Queues()
    {
      State(inputPPQ.items, ongoingPPQ.items, |ongoingPPQ.items|, inputJpegQ.items,
            ongoingJpegQ.items, inputRawQ.items, cmdQueue.items, 0, multiset{},
            if exited then Exited else Idle, active, reprocChannel, accepted, released)
    }

    constructor ()
      ensures Valid() && Abs() == INITIAL && !inited
      ensures fresh(Queues())
    {
      inputPPQ := new Queue();
      ongoingPPQ := new Queue();
      inputJpegQ := new Queue();
      ongoingJpegQ := new Queue();
      inputRawQ := new Queue();
      cmdQueue := new Queue();
      inited, active, exited, reprocChannel, released, accepted := false, false, false, false, [], {};
    }

    method SendCmd(cmd: Command, priority: bool)
      requires Valid()
      modifies cmdQueue
      ensures Valid()
      ensures cmdQueue.items == if priority then [cmd] + old(cmdQueue.items) else old(cmdQueue.items) + [cmd]
    {
      if priority {
        cmdQueue.EnqueueWithPriority(cmd);
      } else {
        cmdQueue.Enqueue(cmd);
      }
    }

    method ProcessData(frame: Frame, needReprocess: bool, nv16: bool) returns (rc: Status)
      requires Valid() && frame !in accepted
      modifies this`accepted, Queues()
      ensures Valid()
      ensures !inited ==> rc == UnknownError && Abs() == old(Abs())
      ensures inited && (needReprocess || !nv16)
              ==> rc == NoError
                  && Abs() == Next(Next(old(Abs()), Data(frame, needReprocess)), SendNext)
      ensures inited && !needReprocess && nv16
              ==> rc == NoError
                  && Abs() == Next(Next(Next(old(Abs()), Raw(frame, 2)), SendNext), SendNext)
      ensures inited && needReprocess
              ==> inputPPQ.items == old(inputPPQ.items) + [frame] && inputJpegQ.items == old(inputJpegQ.items)
                  && inputRawQ.items == old(inputRawQ.items)
                  && cmdQueue.items == old(cmdQueue.items) + [DoNextJob]
      ensures inited && !needReprocess && nv16
              ==> inputRawQ.items == old(inputRawQ.items) + [frame] && inputPPQ.items == old(inputPPQ.items)
                  && inputJpegQ.items == old(inputJpegQ.items)
                  && cmdQueue.items == old(cmdQueue.items) + [DoNextJob, DoNextJob]
      ensures inited && !needReprocess && !nv16
              ==> inputJpegQ.items == old(inputJpegQ.items) + [JpegJob(frame, None, 0)]
                  && inputPPQ.items == old(inputPPQ.items) && inputRawQ.items == old(inputRawQ.items)
                  && cmdQueue.items == old(cmdQueue.items) + [DoNextJob]
      ensures ongoingPPQ.items == old(ongoingPPQ.items) && ongoingJpegQ.items == old(ongoingJpegQ.items)
    {
      if !inited { return UnknownError; }
      if needReprocess {
        inputPPQ.Enqueue(frame);
        accepted := accepted + {frame};
      } else if nv16 {
        var _ := ProcessRawData(frame);
      } else {
        inputJpegQ.Enqueue(JpegJob(frame, None, 0));
        accepted := accepted + {frame};
      }
      SendCmd(DoNextJob, false);
      return NoError;
    }

    method ProcessRawData(frame: Frame) returns (rc: Status)
      requires Valid() && frame !in accepted
      modifies Queues()
      ensures Valid()
      ensures !inited ==> rc == UnknownError && Abs() == old(Abs())
      ensures inited ==> rc == NoError && Abs() == Next(Next(old(Abs()), Raw(frame, 1)), SendNext)
      ensures inited
              ==> inputRawQ.items == old(inputRawQ.items) + [frame]
                  && cmdQueue.items == old(cmdQueue.items) + [DoNextJob]
      ensures inputPPQ.items == old(inputPPQ.items) && ongoingPPQ.items == old(ongoingPPQ.items)
      ensures inputJpegQ.items == old(inputJpegQ.items) && ongoingJpegQ.items == old(ongoingJpegQ.items)
    {
      if !inited { return UnknownError; }
      inputRawQ.Enqueue(frame);
      SendCmd(DoNextJob, false);
      return NoError;
    }

    /** The reprocess channel hands back `frame`, made from the oldest frame in flight. */
    method ProcessPPData(frame: Frame, nv16: bool) returns (rc: Status)
      requires Valid() && frame !in accepted
      modifies this`accepted, this`released, Queues()
      ensures Valid()
      ensures !inited ==> rc == UnknownError && Abs() == old(Abs())
      ensures inited && old(ongoingPPQ.items) == [] ==> rc == BadValue && Abs() == old(Abs())
      ensures inited && old(ongoingPPQ.items) != []
              ==> var src := old(ongoingPPQ.items)[0];
                  var e := if nv16 then PPToRaw(src, frame) else PPEnqueue(src, frame);
                  rc == NoError && Abs() == Next(Next(Next(old(Abs()), PPDequeue), e), SendNext)
      ensures inited && old(ongoingPPQ.items) != []
              ==> var src := old(ongoingPPQ.items)[0];
                  && ongoingPPQ.items == old(ongoingPPQ.items)[1..]
                  && cmdQueue.items == old(cmdQueue.items) + [DoNextJob]
                  && inputJpegQ.items == old(inputJpegQ.items) + (if nv16 then [] else [JpegJob(frame, Some(src), 0)])
                  && inputRawQ.items == old(inputRawQ.items) + (if nv16 then [frame] else [])
                  && released == old(released) + (if nv16 then [src] else [])
      ensures inputPPQ.items == old(inputPPQ.items) && ongoingJpegQ.items == old(ongoingJpegQ.items)
    {
      hide JobFrames, JobsFrames, Next;
      if !inited { return UnknownError; }
      var job := ongoingPPQ.Dequeue();
      if job == None { return BadValue; }
      CallbackSteps(old(Abs()), frame, nv16);
      if nv16 {
        released := released + [job.value];
        RawSteps(Abs(), frame);
        rc := ProcessRawData(frame);
        return;
      }
      inputJpegQ.Enqueue(JpegJob(frame, Some(job.value), 0));
      accepted := accepted + {frame};
      SendCmd(DoNextJob, false);
      return NoError;
    }

    /** The jpeg library reports on a job.  The job is released and a wake-up sent whatever becomes
        of the picture, and even if the job at the head has another id. */
    method ProcessJpegEvt(jobId: nat, picture: Delivery) returns (rc: Status)
      requires Valid()
      modifies this`released, Queues()
      ensures Valid()
      ensures !inited ==> rc == UnknownError && Abs() == old(Abs())
      ensures inited && (jobId == 0 || old(ongoingJpegQ.items) == [])
              ==> FindJpegJobByJobId(old(ongoingJpegQ.items), jobId) == None && rc == BadValue
                  && Abs() == Next(Next(old(Abs()), LateJpegEvent), SendNext)
                  && Abs() == old(Abs()).(cmds := old(cmdQueue.items) + [DoNextJob])
      ensures inited && jobId != 0 && old(ongoingJpegQ.items) != []
              ==> var job := old(ongoingJpegQ.items)[0];
                  && FindJpegJobByJobId(old(ongoingJpegQ.items), jobId) == Some(job)
                  && rc == (match picture
                            case NotWanted => NoError
                            case EncodeFailed => FailedTransaction
                            case OutOfMemory => NoMemory
                            case HandedUp(result) => result)
                  && ongoingJpegQ.items == old(ongoingJpegQ.items)[1..]
                  && released == old(released) + (if job.reproc.Some? then [job.reproc.value, job.src] else [job.src])
                  && cmdQueue.items == old(cmdQueue.items) + [DoNextJob]
                  && Abs() == old(Abs()).(ongoingJpegQ := ongoingJpegQ.items, released := released,
                                          cmds := cmdQueue.items)
      ensures inited && Enabled(old(Abs()), JpegEvent(jobId))
              ==> rc == DeliveryStatus(picture)
                  && Abs() == Next(Next(old(Abs()), JpegEvent(jobId)), SendNext)
    {
      if !inited { return UnknownError; }
      var job := None;
      if jobId != 0 {
        job := ongoingJpegQ.Dequeue();
      }
      if job == None {
        rc := BadValue;
      } else {
        rc := DeliveryStatus(picture);
        released := released + JobFrames(job.value);
      }
      SendCmd(DoNextJob, false);
    }

    /** `channel` answers whether the reprocess channel could be added and started. */
    method Start(needReprocess: bool, channel: ChannelUp) returns (rc: Status)
      requires Valid()
      modifies this`reprocChannel, cmdQueue
      ensures Valid()
      ensures !inited ==> rc == UnknownError && Abs() == old(Abs())
      ensures inited && needReprocess && !Up(channel)
              ==> Abs() == Next(old(Abs()), StartFails)
                  && rc == if channel.NotAdded? then UnknownError else Code(channel.startRc)
      ensures inited && (needReprocess ==> Up(channel))
              ==> rc == NoError && Abs() == Next(old(Abs()), PostProcSteps.Start(needReprocess))
      ensures inited && needReprocess && (channel.NotAdded? || channel.startRc != 0)
              ==> !reprocChannel && cmdQueue.items == old(cmdQueue.items)
      ensures inited && !(needReprocess && (channel.NotAdded? || channel.startRc != 0))
              ==> reprocChannel == (needReprocess || old(reprocChannel))
                  && cmdQueue.items == old(cmdQueue.items) + [StartDataProc]
    {
      if !inited { return UnknownError; }
      if needReprocess {
        reprocChannel := false;
        if channel.NotAdded? { return UnknownError; }
        if channel.startRc != 0 { return Code(channel.startRc); }
        reprocChannel := true;
      }
      SendCmd(StartDataProc, false);
      return NoError;
    }

    /** Sends the command; the worker's acknowledgement is not waited for here. */
    method Stop()
      requires Valid()
      modifies cmdQueue
      ensures Valid()
      ensures Abs() == if inited then Next(old(Abs()), PostProcSteps.Stop) else old(Abs())
      ensures cmdQueue.items == (if inited then [StopDataProc] else []) + old(cmdQueue.items)
    {
      if inited {
        SendCmd(StopDataProc, true);
      }
    }

    /** One command of the worker routine: what it does is one undisturbed interleaving. */
    method HandleCommand(o: Outcomes) returns (running: bool)
      requires Valid() && !exited && cmdQueue.items != [] && (o.encodeOk ==> o.jobId != 0)
      modifies this`active, this`exited, this`reprocChannel, this`released, Queues()
      ensures Valid() && running == !exited
      ensures Abs() == Finish(CommandNext(old(Abs())), o)
      ensures cmdQueue.items == old(cmdQueue.items)[1..]
      ensures exited == (old(cmdQueue.items)[0] == Exit)
      ensures active == (match old(cmdQueue.items)[0]
                         case StartDataProc => true
                         case StopDataProc => false
                         case _ => old(active))
      ensures reprocChannel == (old(reprocChannel) && old(cmdQueue.items)[0] != StopDataProc)
      ensures old(cmdQueue.items)[0] == StopDataProc
              ==> inputPPQ.items == ongoingPPQ.items == inputRawQ.items == []
                  && inputJpegQ.items == ongoingJpegQ.items == []
                  && released == old(released) + JobsFrames(old(ongoingJpegQ.items)) + old(ongoingPPQ.items)
                                 + JobsFrames(old(inputJpegQ.items)) + old(inputPPQ.items)
      ensures old(cmdQueue.items)[0] == DoNextJob && old(active)
              ==> var jobs, frames := old(inputJpegQ.items), old(inputPPQ.items);
                  var taken := old(ongoingJpegQ.items) == [] && jobs != [];
                  var submitted := frames != [] && old(reprocChannel) && o.reprocOk;
                  && inputJpegQ.items == (if taken then jobs[1..] else jobs)
                  && ongoingJpegQ.items == (if !taken then old(ongoingJpegQ.items)
                                            else if o.encodeOk then [jobs[0].(jobId := o.jobId)] else [])
                  && inputRawQ.items == Tail(old(inputRawQ.items)) && inputPPQ.items == Tail(frames)
                  && ongoingPPQ.items == old(ongoingPPQ.items) + (if submitted then [frames[0]] else [])
                  && released == old(released) + (if taken && !o.encodeOk then JobFrames(jobs[0]) else [])
                                 + (if frames != [] && !submitted then [frames[0]] else [])
      ensures old(cmdQueue.items)[0] == DoNextJob && !old(active)
              ==> var jobs, frames := old(inputJpegQ.items), old(inputPPQ.items);
                  && inputJpegQ.items == Tail(jobs) && inputPPQ.items == Tail(frames)
                  && inputRawQ.items == Tail(old(inputRawQ.items))
                  && ongoingJpegQ.items == old(ongoingJpegQ.items) && ongoingPPQ.items == old(ongoingPPQ.items)
                  && released == old(released) + (if jobs == [] then [] else JobFrames(jobs[0]))
                                 + (if frames == [] then [] else [frames[0]])
      ensures old(cmdQueue.items)[0] == StartDataProc || old(cmdQueue.items)[0] == Exit
              ==> inputPPQ.items == old(inputPPQ.items) && ongoingPPQ.items == old(ongoingPPQ.items)
                  && inputJpegQ.items == old(inputJpegQ.items) && ongoingJpegQ.items == old(ongoingJpegQ.items)
                  && inputRawQ.items == old(inputRawQ.items) && released == old(released)
    {
      ghost var s := Abs();
      ghost var t := CommandNext(s);
      var cmd := cmdQueue.Dequeue();
      match cmd.value {
        case StartDataProc =>
          active := true;
        case StopDataProc =>
          active := false;
          StopDataProcessing();
          StopFinishes(t, o);
        case DoNextJob =>
          if active {
            EncodeAndReprocess(o);
          } else {
            DropOne();
            DropFinishes(t, o);
          }
        case Exit =>
          exited := true;
      }
      running := !exited;
    }

    method EncodeAndReprocess(o: Outcomes)
      requires Valid() && !exited && active && (o.encodeOk ==> o.jobId != 0)
      modifies this`released, inputPPQ, ongoingPPQ, inputJpegQ, ongoingJpegQ, inputRawQ
      ensures Valid()
      ensures Abs() == Finish(old(Abs()).(pc := CheckOngoing), o)
      ensures var jobs, frames := old(inputJpegQ.items), old(inputPPQ.items);
                  var taken := old(ongoingJpegQ.items) == [] && jobs != [];
                  var submitted := frames != [] && old(reprocChannel) && o.reprocOk;
                  && inputJpegQ.items == (if taken then jobs[1..] else jobs)
                  && ongoingJpegQ.items == (if !taken then old(ongoingJpegQ.items)
                                            else if o.encodeOk then [jobs[0].(jobId := o.jobId)] else [])
                  && inputRawQ.items == Tail(old(inputRawQ.items)) && inputPPQ.items == Tail(frames)
                  && ongoingPPQ.items == old(ongoingPPQ.items) + (if submitted then [frames[0]] else [])
                  && released == old(released) + (if taken && !o.encodeOk then JobFrames(jobs[0]) else [])
                                 + (if frames != [] && !submitted then [frames[0]] else [])
    {
      hide Finish, JobFrames, EncodeTurn, ReprocessTurn;
      TurnsFinish(Abs(), o);
      DoEncodeTurn(o);
      DoReprocessTurn(o);
    }

    /** The worker routine, as long as commands are queued: whatever the foreign calls answer, it
        leaves the object in a state of the step system, so all results about those hold. */
    method DataProcessRoutine(outcomes: seq<Outcomes>)
      requires Valid() && !exited && Reachable(Abs())
      requires forall i :: 0 <= i < |outcomes| && outcomes[i].encodeOk ==> outcomes[i].jobId != 0
      modifies this`active, this`exited, this`reprocChannel, this`released, Queues()
      ensures Valid() && Reachable(Abs())
    {
      hide Reachable, Finish;
      var running, n := true, 0;
      while running && cmdQueue.items != [] && n < |outcomes|
        invariant 0 <= n <= |outcomes| && Valid() && running == !exited && Reachable(Abs())
        decreases |outcomes| - n
      {
        CommandReachable(Abs(), outcomes[n]);
        running := HandleCommand(outcomes[n]);
        n := n + 1;
      }
    }

    /** Cancels and releases every ongoing jpeg job. */
    method AbortJobs()
      requires Valid()
      modifies this`released, ongoingJpegQ
      ensures Valid() && ongoingJpegQ.items == []
      ensures released == old(released) + JobsFrames(old(ongoingJpegQ.items))
    {
      ghost var jobs := ongoingJpegQ.items;
      var job := ongoingJpegQ.Dequeue();
      while job != None
        invariant Valid()
        invariant released + (if job == None then [] else JobFrames(job.value))
                  + JobsFrames(ongoingJpegQ.items) == old(released) + JobsFrames(jobs)
        invariant job == None ==> ongoingJpegQ.items == []
        decreases job != None, |ongoingJpegQ.items|
      {
        released := released + JobFrames(job.value);
        job := ongoingJpegQ.Dequeue();
      }
    }

    method StopDataProcessing()
      requires Valid() && !exited
      modifies this`active, this`reprocChannel, this`released, Queues()
      ensures Valid()
      ensures Abs() == StopEffect(old(Abs()))
    {
      hide JobFrames, JobsFrames;
      active := false;
      AbortJobs();
      reprocChannel := false;
      var frames := ongoingPPQ.Flush();
      released := released + frames;
      var inputJobs := inputJpegQ.Flush();
      released := released + JobsFrames(inputJobs);
      frames := inputPPQ.Flush();
      released := released + frames;
      var _ := inputRawQ.Flush();
    }

    method DoEncodeTurn(o: Outcomes)
      requires Valid() && active
      modifies this`released, inputJpegQ, ongoingJpegQ
      ensures Valid()
      ensures Abs() == EncodeTurn(old(Abs()), o)
      ensures var jobs := old(inputJpegQ.items);
              var taken := old(ongoingJpegQ.items) == [] && jobs != [];
              && inputJpegQ.items == (if taken then jobs[1..] else jobs)
              && ongoingJpegQ.items == (if !taken then old(ongoingJpegQ.items)
                                        else if o.encodeOk then [jobs[0].(jobId := o.jobId)] else [])
              && released == old(released) + (if taken && !o.encodeOk then JobFrames(jobs[0]) else [])
    {
      hide JobFrames;
      var free := ongoingJpegQ.IsEmpty();
      if free {
        var job := inputJpegQ.Dequeue();
        if job != None {
          // encodeData writes the id of a started job into the queued job
          ongoingJpegQ.Enqueue(if o.encodeOk then job.value.(jobId := o.jobId) else job.value);
          if !o.encodeOk {
            var _ := ongoingJpegQ.Dequeue(false);
            released := released + JobFrames(job.value);
          }
        }
      }
    }

    method DoReprocessTurn(o: Outcomes)
      requires Valid() && active
      modifies this`released, inputRawQ, inputPPQ, ongoingPPQ
      ensures Valid()
      ensures Abs() == ReprocessTurn(old(Abs()), o)
      ensures var frames := old(inputPPQ.items);
              var submitted := frames != [] && old(reprocChannel) && o.reprocOk;
              && inputRawQ.items == Tail(old(inputRawQ.items)) && inputPPQ.items == Tail(frames)
              && ongoingPPQ.items == old(ongoingPPQ.items) + (if submitted then [frames[0]] else [])
              && released == old(released) + (if frames != [] && !submitted then [frames[0]] else [])
    {
      var _ := inputRawQ.Dequeue();
      var frame := inputPPQ.Dequeue();
      if frame != None {
        var ok := reprocChannel;
        if reprocChannel {
          ongoingPPQ.Enqueue(frame.value);
          ok := o.reprocOk;
          if !ok {
            var _ := ongoingPPQ.Dequeue(false);
          }
        }
        if !ok {
          released := released + [frame.value];
        }
      }
    }

    method DropOne()
      requires Valid()
      modifies this`released, inputJpegQ, inputRawQ, inputPPQ
      ensures Valid()
      ensures Abs() == DropEffect(old(Abs()))
      ensures var jobs, frames := old(inputJpegQ.items), old(inputPPQ.items);
                  && inputJpegQ.items == Tail(jobs) && inputPPQ.items == Tail(frames)
                  && inputRawQ.items == Tail(old(inputRawQ.items))
                  && ongoingJpegQ.items == old(ongoingJpegQ.items) && ongoingPPQ.items == old(ongoingPPQ.items)
                  && released == old(released) + (if jobs == [] then [] else JobFrames(jobs[0]))
                                 + (if frames == [] then [] else [frames[0]])
    {
      var job := inputJpegQ.Dequeue();
      if job != None { released := released + JobFrames(job.value); }
      var _ := inputRawQ.Dequeue();
      var frame := inputPPQ.Dequeue();
      if frame != None { released := released + [frame.value]; }
    }
  }
}
