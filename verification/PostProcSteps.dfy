/**
 The post-processor as a step system.

 Every step is one operation that the program performs under a single queue lock (or one
 operation of the jpeg library or the reprocess channel), so a run of steps is an arbitrary
 interleaving of the producer threads, the reprocess callback thread, the jpeg callback thread,
 the control thread and the worker.  A thread that sits between two of its steps is part of
 the state: `sending` counts the producers that have filled a queue and still owe the wake-up
 command, `inHand` holds the source frames of the reprocess callbacks that have left the ongoing
 queue, and `pc` is the worker's position inside one command.
 */
module PostProcSteps {
  import opened Wrappers
  import opened CmdThread

  type Frame = nat

  /** jobId is 0 until the worker has stored the id that the jpeg library gave to the job. */
  datatype JpegJob = JpegJob(src: Frame, reproc: Option<Frame>, jobId: nat)

  datatype Pc =
    | Idle
      // handling StopDataProc
    | AbortJobs | StopReproc | FlushOngoingPP | FlushInputJpeg | FlushInputPP | FlushInputRaw
      // handling DoNextJob while active
    | CheckOngoing | TakeJpeg | BeginJpeg(job: JpegJob) | Encode | StoreId(id: nat) | TakeRaw
    | TakePP | BeginPP(frame: Frame) | SubmitPP
      // handling DoNextJob while inactive
    | DropJpeg | DropRaw | DropPP
      // after Exit
    | Exited

  datatype State = State(
    inputPPQ: seq<Frame>,
    ongoingPPQ: seq<Frame>,
    submitted: nat,           // length of the prefix of ongoingPPQ that the channel has accepted
    inputJpegQ: seq<JpegJob>,
    ongoingJpegQ: seq<JpegJob>,
    inputRawQ: seq<Frame>,
    cmds: seq<Command>,
    sending: nat,
    inHand: multiset<Frame>,
    pc: Pc,
    active: bool,
    reprocUp: bool,
    accepted: set<Frame>,     // frames the post-processor has taken over on the jpeg/reprocess path
    released: seq<Frame>      // frames it has given back, in order
  )

  const INITIAL := State([], [], 0, [], [], [], [], 0, multiset{}, Idle, false, false, {}, [])

  datatype Step =
    | Data(frame: Frame, reproc: bool)
    | Raw(frame: Frame, wakeups: nat)
    | SendNext
    | PPDequeue
    | PPEnqueue(src: Frame, frame: Frame)
    | PPToRaw(src: Frame, frame: Frame)
    | JpegEvent(jobId: nat)         // for a job in flight
    | LateJpegEvent                // for no job: id 0, or nothing is being encoded
    | Start(needReprocess: bool)
    | StartFails                   // the reprocess channel could not be brought up
    | Stop
    | Quit
    | Worker(ok: bool, jobId: nat)  // ok and jobId answer for the foreign call of the step, if any

  // ---------- frames held by jobs ----------

  /** The frames of a job in the order in which they are given back. */
  function JobFrames(j: JpegJob): seq<Frame> {
    match j.reproc
    case None => [j.src]
    case Some(f) => [f, j.src]
  }

  function JobsFrames(js: seq<JpegJob>): seq<Frame> {
    if js == [] then [] else JobFrames(js[0]) + JobsFrames(js[1..])
  }

  /** The search by job id that the jpeg callback asks for. */
  function LookupJob(q: seq<JpegJob>, id: nat): (r: Option<JpegJob>)
    ensures r.Some? ==> |q| > 0
  {
    if q == [] then None else if q[0].jobId == id then Some(q[0]) else LookupJob(q[1..], id)
  }

  /** The search as implemented: any id but 0 yields the head of the queue. */
  function FindJpegJobByJobId(q: seq<JpegJob>, id: nat): Option<JpegJob> {
    if id == 0 || q == [] then None else Some(q[0])
  }

  /** The library has started a job with this id and has not reported on it: the id is stored in the
      job, or the worker is about to store it. */
  predicate InFlight(s: State, id: nat) {
    || LookupJob(s.ongoingJpegQ, id).Some?
    || (s.pc.StoreId? && s.pc.id == id && s.ongoingJpegQ != [])
  }

  // ---------- transitions ----------

  predicate Fresh(s: State, f: Frame) { f !in s.accepted }

  predicate Enabled(s: State, e: Step) {
    match e
    case Data(f, _) => Fresh(s, f)
    case Raw(f, n) => Fresh(s, f) && 1 <= n
    case SendNext => s.sending > 0
    case PPDequeue => s.submitted > 0 && |s.ongoingPPQ| > 0
    case PPEnqueue(src, f) => src in s.inHand && Fresh(s, f)
    case PPToRaw(src, f) => src in s.inHand && Fresh(s, f)
    case JpegEvent(id) => id != 0 && InFlight(s, id)
    case LateJpegEvent => true
    case Start(_) => true
    case StartFails => true
    case Stop => true
    case Quit => true
    case Worker(ok, id) =>
      match s.pc
      case Idle => |s.cmds| > 0
      case Exited => false
      case Encode => |s.ongoingJpegQ| > 0 && (ok ==> id != 0)
      case SubmitPP => |s.ongoingPPQ| > 0
      case _ => true
  }

  /** What one locked operation of a producer, callback or control thread does. */
  function Next(s: State, e: Step): State
    requires Enabled(s, e)
  {
    match e
    case Data(f, reproc) =>
      var t := s.(accepted := s.accepted + {f}, sending := s.sending + 1);
      if reproc then t.(inputPPQ := s.inputPPQ + [f])
      else t.(inputJpegQ := s.inputJpegQ + [JpegJob(f, None, 0)])
    case Raw(f, n) => s.(inputRawQ := s.inputRawQ + [f], sending := s.sending + n)
    case SendNext => s.(cmds := s.cmds + [DoNextJob], sending := s.sending - 1)
    case PPDequeue =>
      s.(ongoingPPQ := s.ongoingPPQ[1..], submitted := s.submitted - 1,
         inHand := s.inHand + multiset{s.ongoingPPQ[0]})
    case PPEnqueue(src, f) =>
      s.(inHand := s.inHand - multiset{src}, accepted := s.accepted + {f},
         inputJpegQ := s.inputJpegQ + [JpegJob(f, Some(src), 0)], sending := s.sending + 1)
    case PPToRaw(src, f) =>
      s.(inHand := s.inHand - multiset{src}, released := s.released + [src],
         inputRawQ := s.inputRawQ + [f], sending := s.sending + 1)
    case JpegEvent(id) =>
      s.(ongoingJpegQ := s.ongoingJpegQ[1..],
         released := s.released + JobFrames(s.ongoingJpegQ[0]), sending := s.sending + 1)
    case LateJpegEvent => s.(sending := s.sending + 1)
    case Start(need) =>
      s.(reprocUp := s.reprocUp || need, cmds := s.cmds + [StartDataProc])
    case StartFails => s.(reprocUp := false)
    case Stop => s.(cmds := [StopDataProc] + s.cmds)
    case Quit => s.(cmds := [Exit] + s.cmds)
    case Worker(ok, id) => WorkerNext(s, ok, id)
  }

  predicate Stopping(pc: Pc) {
    pc.AbortJobs? || pc.StopReproc? || pc.FlushOngoingPP? || pc.FlushInputJpeg? || pc.FlushInputPP?
    || pc.FlushInputRaw?
  }

  predicate Dropping(pc: Pc) { pc.DropJpeg? || pc.DropRaw? || pc.DropPP? }

  predicate Encoding(pc: Pc) { pc.CheckOngoing? || pc.TakeJpeg? || pc.BeginJpeg? || pc.Encode? || pc.StoreId? }

  predicate Reprocessing(pc: Pc) { pc.TakeRaw? || pc.TakePP? || pc.BeginPP? || pc.SubmitPP? }

  /** What the worker does at its current position. */
  function WorkerNext(s: State, ok: bool, id: nat): State
    requires Enabled(s, Worker(ok, id))
  {
    if s.pc.Idle? then CommandNext(s)
    else if Stopping(s.pc) then StopNext(s)
    else if Encoding(s.pc) then EncodeNext(s, ok, id)
    else if Reprocessing(s.pc) then ReprocessNext(s, ok)
    else DropNext(s)
  }

  function CommandNext(s: State): State
    requires |s.cmds| > 0
  {
    var t := s.(cmds := s.cmds[1..]);
    match s.cmds[0]
    case StartDataProc => t.(active := true)
    case StopDataProc => t.(active := false, pc := AbortJobs)
    case DoNextJob => t.(pc := if s.active then CheckOngoing else DropJpeg)
    case Exit => t.(pc := Exited)
  }

  function StopNext(s: State): State
    requires Stopping(s.pc)
  {
    match s.pc
    case AbortJobs =>
      if s.ongoingJpegQ == [] then s.(pc := StopReproc)
      else s.(ongoingJpegQ := s.ongoingJpegQ[1..],
              released := s.released + JobFrames(s.ongoingJpegQ[0]))
    case StopReproc => s.(reprocUp := false, pc := FlushOngoingPP)
    case FlushOngoingPP =>
      s.(ongoingPPQ := [], submitted := 0, released := s.released + s.ongoingPPQ,
         pc := FlushInputJpeg)
    case FlushInputJpeg =>
      s.(inputJpegQ := [], released := s.released + JobsFrames(s.inputJpegQ), pc := FlushInputPP)
    case FlushInputPP =>
      s.(inputPPQ := [], released := s.released + s.inputPPQ, pc := FlushInputRaw)
    case FlushInputRaw => s.(inputRawQ := [], pc := Idle)
  }

  function EncodeNext(s: State, ok: bool, id: nat): State
    requires Encoding(s.pc) && (s.pc.Encode? ==> |s.ongoingJpegQ| > 0)
  {
    match s.pc
    case CheckOngoing => s.(pc := if s.ongoingJpegQ == [] then TakeJpeg else TakeRaw)
    case TakeJpeg =>
      if s.inputJpegQ == [] then s.(pc := TakeRaw)
      else s.(inputJpegQ := s.inputJpegQ[1..], pc := BeginJpeg(s.inputJpegQ[0]))
    case BeginJpeg(j) => s.(ongoingJpegQ := s.ongoingJpegQ + [j], pc := Encode)
    case Encode =>
      var last := |s.ongoingJpegQ| - 1;
      if ok then s.(pc := StoreId(id))
      else
        s.(ongoingJpegQ := s.ongoingJpegQ[..last],
           released := s.released + JobFrames(s.ongoingJpegQ[last]), pc := TakeRaw)
    case StoreId(id') =>
      // an event that came first has taken the job out of the queue and freed it
      if s.ongoingJpegQ == [] then s.(pc := TakeRaw)
      else
        var last := |s.ongoingJpegQ| - 1;
        s.(ongoingJpegQ := s.ongoingJpegQ[..last] + [s.ongoingJpegQ[last].(jobId := id')], pc := TakeRaw)
  }

  function ReprocessNext(s: State, ok: bool): State
    requires Reprocessing(s.pc) && (s.pc.SubmitPP? ==> |s.ongoingPPQ| > 0)
  {
    match s.pc
    case TakeRaw =>
      s.(inputRawQ := if s.inputRawQ == [] then [] else s.inputRawQ[1..], pc := TakePP)
    case TakePP =>
      if s.inputPPQ == [] then s.(pc := Idle)
      else if s.reprocUp then s.(inputPPQ := s.inputPPQ[1..], pc := BeginPP(s.inputPPQ[0]))
      else s.(inputPPQ := s.inputPPQ[1..], released := s.released + [s.inputPPQ[0]], pc := Idle)
    case BeginPP(f) => s.(ongoingPPQ := s.ongoingPPQ + [f], pc := SubmitPP)
    case SubmitPP =>
      var last := |s.ongoingPPQ| - 1;
      if ok then s.(submitted := s.submitted + 1, pc := Idle)
      else s.(ongoingPPQ := s.ongoingPPQ[..last], released := s.released + [s.ongoingPPQ[last]],
              pc := Idle)
  }

  function DropNext(s: State): State {
    match s.pc
    case DropJpeg =>
      if s.inputJpegQ == [] then s.(pc := DropRaw)
      else s.(inputJpegQ := s.inputJpegQ[1..],
              released := s.released + JobFrames(s.inputJpegQ[0]), pc := DropRaw)
    case DropRaw =>
      s.(inputRawQ := if s.inputRawQ == [] then [] else s.inputRawQ[1..], pc := DropPP)
    case DropPP =>
      if s.inputPPQ == [] then s.(pc := Idle)
      else s.(inputPPQ := s.inputPPQ[1..], released := s.released + [s.inputPPQ[0]], pc := Idle)
    case _ => s
  }

  // ---------- runs ----------

  ghost predicate ValidRun(s: State, run: seq<Step>)
    decreases |run|
  {
    run == [] || (Enabled(s, run[0]) && ValidRun(Next(s, run[0]), run[1..]))
  }

  ghost function Exec(s: State, run: seq<Step>): State
    requires ValidRun(s, run)
    decreases |run|
  {
    if run == [] then s else Exec(Next(s, run[0]), run[1..])
  }

  /** The jpeg library refuses an encode in this step. */
  predicate RefusesEncode(s: State, e: Step) { s.pc.Encode? && e.Worker? && !e.ok }

  ghost predicate EncodesStart(s: State, run: seq<Step>)
    requires ValidRun(s, run)
    decreases |run|
  {
    run == [] || (!RefusesEncode(s, run[0]) && EncodesStart(Next(s, run[0]), run[1..]))
  }

  /** Some interleaving leads from the initial state to s. */
  ghost predicate Reachable(s: State) {
    exists run :: ValidRun(INITIAL, run) && Exec(INITIAL, run) == s
  }

  /** ... and in it the jpeg library starts every encode it is asked for. */
  ghost predicate ReachableEncoding(s: State) {
    exists run :: ValidRun(INITIAL, run) && Exec(INITIAL, run) == s && EncodesStart(INITIAL, run)
  }
}
