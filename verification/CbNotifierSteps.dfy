/**
 The callback notifier as a step system: callers that enqueue callbacks and then send a wake-up,
 control calls whose commands overtake the queue, and the notifier thread.  Every step is one
 operation on a locked queue or one delivery.
 */
module CbNotifierSteps {
  import opened CameraQueue
  import opened CmdThread

  datatype Kind = Notify | Data | Timestamp | Snapshot | Unknown

  /** Callbacks are numbered in the order in which they were enqueued. */
  datatype Callback = Callback(number: nat, kind: Kind)

  /** Which upper-layer functions are set; they are fixed before the thread starts. */
  datatype Upper = Upper(notify: bool, data: bool, timestamp: bool)

  datatype Pc = Idle | FlushSnapshots | Take | Handle(cb: Callback) | FlushAll | Exited | Destroyed

  /** What happened to the snapshot session, oldest first. */
  datatype Event =
    | Started(expected: nat)
    | Stopped
    | SnapshotSeen(done: bool)  // an enabled snapshot callback was processed; done: SNAPSHOT_DONE raised

  datatype State = State(
    mActive: bool,
    admitted: nat,             // callers that have passed the activity check
    dataQ: seq<Callback>,
    sending: nat,              // callers that have enqueued and still owe the wake-up
    cmds: seq<Command>,
    pc: Pc,
    snapshotActive: bool,
    expected: nat,
    rcvd: nat,
    enqueued: nat,             // how many callbacks have been accepted so far
    delivered: seq<nat>,       // numbers handed to the upper layers, in order
    released: seq<nat>,        // numbers whose data was released, in order
    history: seq<Event>
  )

  const INITIAL := State(true, 0, [], 0, [], Idle, false, 0, 0, 0, [], [], [])

  datatype Step =
    | Admit
    | Enqueue(kind: Kind)
    | SendNext
    | StartSnapshots
    | StopSnapshots
    | ExitCall
    | Destroy                               // the joined notifier is deleted with its owner
    | Worker(expected: nat, enabled: bool)  // the parent's answers, if it is asked

  /** Nothing happens to a destroyed notifier: a caller that is still inside has no further step. */
  predicate Enabled(s: State, e: Step) {
    !s.pc.Destroyed? &&
    match e
    case Admit => s.mActive
    case Enqueue(_) => s.admitted > 0
    case SendNext => s.sending > 0
    case Destroy => s.pc.Exited?
    case Worker(_, _) => if s.pc.Idle? then |s.cmds| > 0 else !s.pc.Exited?
    case _ => true
  }

  function Next(s: State, u: Upper, e: Step): State
    requires Enabled(s, e)
  {
    match e
    case Admit => s.(admitted := s.admitted + 1)
    case Enqueue(kind) =>
      s.(admitted := s.admitted - 1, dataQ := s.dataQ + [Callback(s.enqueued, kind)],
         enqueued := s.enqueued + 1, sending := s.sending + 1)
    case SendNext => s.(sending := s.sending - 1, cmds := s.cmds + [DoNextJob])
    case StartSnapshots => s.(cmds := [StartDataProc] + s.cmds)
    case StopSnapshots => s.(cmds := [StopDataProc] + s.cmds)
    case ExitCall => s.(mActive := false, cmds := [Exit] + s.cmds)
    case Destroy =>
      // the destructor of the queue flushes it
      s.(dataQ := [], released := s.released + Numbers(s.dataQ), pc := Destroyed)
    case Worker(n, enabled) => WorkerNext(s, u, n, enabled)
  }

  function Numbers(q: seq<Callback>): seq<nat> {
    if q == [] then [] else [q[0].number] + Numbers(q[1..])
  }

  const IS_SNAPSHOT := (c: Callback) => c.kind.Snapshot?

  const NOT_SNAPSHOT := Not(IS_SNAPSHOT)

  function WorkerNext(s: State, u: Upper, n: nat, enabled: bool): State
    requires Enabled(s, Worker(n, enabled))
  {
    match s.pc
    case Idle =>
      var t := s.(cmds := s.cmds[1..]);
      (match s.cmds[0]
       case StartDataProc =>
         t.(snapshotActive := true, expected := n, rcvd := 0, history := s.history + [Started(n)])
       case StopDataProc => t.(pc := FlushSnapshots)
       case DoNextJob => t.(pc := Take)
       case Exit => t.(pc := FlushAll))
    case FlushSnapshots =>
      s.(dataQ := Filter(s.dataQ, NOT_SNAPSHOT),
         released := s.released + Numbers(Filter(s.dataQ, IS_SNAPSHOT)),
         snapshotActive := false, expected := 0, rcvd := 0, history := s.history + [Stopped], pc := Idle)
    case Take =>
      if s.dataQ == [] then s.(pc := Idle)
      else s.(dataQ := s.dataQ[1..], pc := Handle(s.dataQ[0]))
    case Handle(cb) => Released(if enabled then Delivered(s, u, cb) else s, cb)
    case FlushAll => s.(dataQ := [], released := s.released + Numbers(s.dataQ), pc := Exited)
    case _ => s
  }

  /** An enabled callback reaches the upper layer if the function for its kind is set. */
  function Delivered(s: State, u: Upper, cb: Callback): State {
    match cb.kind
    case Notify => if u.notify then s.(delivered := s.delivered + [cb.number]) else s
    case Data => if u.data then s.(delivered := s.delivered + [cb.number]) else s
    case Timestamp => if u.timestamp then s.(delivered := s.delivered + [cb.number]) else s
    case Snapshot =>
      if s.snapshotActive && u.data then
        var done := s.expected > 0 && s.expected == s.rcvd + 1;
        s.(rcvd := s.rcvd + 1, history := s.history + [SnapshotSeen(done)],
           delivered := s.delivered + [cb.number])
      else s
    case Unknown => s
  }

  function Released(s: State, cb: Callback): State {
    s.(released := s.released + [cb.number], pc := Idle)
  }

  ghost predicate ValidRun(s: State, u: Upper, run: seq<Step>)
    decreases |run|
  {
    run == [] || (Enabled(s, run[0]) && ValidRun(Next(s, u, run[0]), u, run[1..]))
  }

  ghost function Exec(s: State, u: Upper, run: seq<Step>): State
    requires ValidRun(s, u, run)
    decreases |run|
  {
    if run == [] then s else Exec(Next(s, u, run[0]), u, run[1..])
  }

  ghost predicate Reachable(s: State, u: Upper) {
    exists run :: ValidRun(INITIAL, u, run) && Exec(INITIAL, u, run) == s
  }
}
