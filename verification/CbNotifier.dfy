/**
 The notifier object.  Each method runs to completion; its contract says which steps of the step
 system it performs, so every property of the step system holds of it.
 */
module CbNotifier {
  import opened Wrappers
  import opened CameraQueue
  import opened CmdThread
  import opened CbNotifierSteps
  import opened CbNotifierTheorems

  datatype Status = NoError | UnknownError

  /** How often the thread still steps before it waits again. */
  function Rank(pc: Pc): nat {
    match pc
    case Take => 2
    case Handle(_) => 1
    case FlushSnapshots => 1
    case FlushAll => 1
    case _ => 0
  }

  predicate Waits(pc: Pc) { Rank(pc) == 0 }

  /** The thread carries on undisturbed until it waits again. */
  function Finish(s: State, u: Upper, n: nat, enabled: bool): State
    decreases Rank(s.pc)
  {
    if Waits(s.pc) then s else Finish(WorkerNext(s, u, n, enabled), u, n, enabled)
  }

  /** An undisturbed command is one of the interleavings. */
  lemma {:induction false} FinishReachable(s: State, u: Upper, n: nat, enabled: bool)
    requires Reachable(s, u)
    ensures Reachable(Finish(s, u, n, enabled), u)
    decreases Rank(s.pc)
  {
    hide Reachable;
    if !Waits(s.pc) {
      ghost var t := StepReachable(s, u, Worker(n, enabled));
      FinishReachable(t, u, n, enabled);
    }
  }

  lemma CommandReachable(s: State, u: Upper, n: nat, enabled: bool)
    requires Reachable(s, u) && s.pc.Idle? && |s.cmds| > 0
    ensures Reachable(Finish(WorkerNext(s, u, n, enabled), u, n, enabled), u)
  {
    hide Reachable, Finish, WorkerNext;
    ghost var t := StepReachable(s, u, Worker(n, enabled));
    FinishReachable(t, u, n, enabled);
  }

  /** DO_NEXT_JOB delivers the oldest callback, if its message is enabled, and releases it. */
  lemma TakeFinishes(s: State, u: Upper, n: nat, enabled: bool)
    requires s.pc.Idle?
    ensures Finish(s.(pc := Take), u, n, enabled)
            == if s.dataQ == [] then s
               else var t := s.(dataQ := s.dataQ[1..]);
                    Released(if enabled then Delivered(t, u, s.dataQ[0]) else t, s.dataQ[0])
  {
    if s.dataQ != [] {
      var t := s.(dataQ := s.dataQ[1..], pc := Handle(s.dataQ[0]));
      assert t == WorkerNext(s.(pc := Take), u, n, enabled);
      var v := WorkerNext(t, u, n, enabled);
      assert v.pc.Idle? && Finish(v, u, n, enabled) == v && Finish(t, u, n, enabled) == v;
    }
  }

  /** What one command does in the end. */
  lemma CommandFinishes(s: State, u: Upper, n: nat, enabled: bool)
    requires s.pc.Idle? && |s.cmds| > 0
    ensures var t := s.(cmds := s.cmds[1..]);
      Finish(WorkerNext(s, u, n, enabled), u, n, enabled)
      == match s.cmds[0]
         case StartDataProc =>
           t.(snapshotActive := true, expected := n, rcvd := 0, history := s.history + [Started(n)])
         case StopDataProc => WorkerNext(t.(pc := FlushSnapshots), u, 0, false)
         case DoNextJob => Finish(t.(pc := Take), u, n, enabled)
         case Exit => t.(dataQ := [], released := s.released + Numbers(s.dataQ), pc := Exited)
  {
    hide Filter, Numbers, Delivered;
    var t := s.(cmds := s.cmds[1..]);
    if s.cmds[0] == StopDataProc {
      assert Finish(WorkerNext(t.(pc := FlushSnapshots), u, n, enabled), u, n, enabled)
             == WorkerNext(t.(pc := FlushSnapshots), u, n, enabled);
    } else if s.cmds[0] == Command.Exit {
      assert Finish(WorkerNext(t.(pc := FlushAll), u, n, enabled), u, n, enabled)
             == WorkerNext(t.(pc := FlushAll), u, n, enabled);
    }
  }

  class QCameraCbNotifier {
    const mDataQ: Queue<Callback>
    const mProcTh: Queue<Command>
    const upper: Upper
    var mActive: bool
    var exited: bool
    var destroyed: bool
    var isSnapshotActive: bool
    var numOfSnapshotExpected: nat
    var numOfSnapshotRcvd: nat
    var enqueued: nat
    var delivered: seq<nat>     // calls made into the upper layers
    var released: seq<nat>      // calls of release_cb
    ghost var history: seq<Event>

    ghost predicate Valid()
      reads this, mDataQ, mProcTh
    {
      mDataQ.Valid() && mProcTh.Valid()
    }

    ghost function Position(): Pc
      reads this
    {
      if destroyed then Destroyed else if exited then Exited else Idle
    }

    ghost function Abs(): State
      reads this, mDataQ, mProcTh
    {
      State(mActive, 0, mDataQ.items, 0, mProcTh.items, Position(),
            isSnapshotActive, numOfSnapshotExpected, numOfSnapshotRcvd, enqueued, delivered,
            released, history)
    }

    /** The notifier after its callbacks have been set and its thread launched. */
    constructor (u: Upper)
      ensures Valid() && Abs() == INITIAL && upper == u && fresh(mDataQ) && fresh(mProcTh)
    {
      mDataQ := new Queue();
      mProcTh := new Queue();
      upper := u;
      mActive, exited, destroyed, isSnapshotActive := true, false, false, false;
      numOfSnapshotExpected, numOfSnapshotRcvd, enqueued := 0, 0, 0;
      delivered, released, history := [], [], [];
    }

    method NotifyCallback(kind: Kind) returns (rc: Status)
      requires Valid() && !destroyed
      modifies this`enqueued, mDataQ, mProcTh
      ensures Valid()
      ensures !mActive ==> rc == UnknownError && Abs() == old(Abs())
      ensures mActive
              ==> rc == NoError
                  && Abs() == Next(Next(Next(old(Abs()), upper, Admit), upper, Enqueue(kind)), upper, SendNext)
                  && mDataQ.items == old(mDataQ.items) + [Callback(old(enqueued), kind)]
                  && mProcTh.items == old(mProcTh.items) + [DoNextJob] && enqueued == old(enqueued) + 1
    {
      if !mActive { return UnknownError; }
      mDataQ.Enqueue(Callback(enqueued, kind));
      enqueued := enqueued + 1;
      mProcTh.Enqueue(DoNextJob);
      return NoError;
    }

    method StartSnapshots()
      requires Valid() && !destroyed
      modifies mProcTh
      ensures Valid() && Abs() == Next(old(Abs()), upper, CbNotifierSteps.StartSnapshots)
      ensures mProcTh.items == [StartDataProc] + old(mProcTh.items)
    {
      mProcTh.EnqueueWithPriority(StartDataProc);
    }

    method StopSnapshots()
      requires Valid() && !destroyed
      modifies mProcTh
      ensures Valid() && Abs() == Next(old(Abs()), upper, CbNotifierSteps.StopSnapshots)
      ensures mProcTh.items == [StopDataProc] + old(mProcTh.items)
    {
      mProcTh.EnqueueWithPriority(StopDataProc);
    }

    /** Sends the command; joining the thread is not modelled. */
    method Exit()
      requires Valid() && !destroyed
      modifies this`mActive, mProcTh
      ensures Valid() && Abs() == Next(old(Abs()), upper, ExitCall)
      ensures mProcTh.items == [Command.Exit] + old(mProcTh.items)
      ensures !mActive
    {
      mActive := false;
      mProcTh.EnqueueWithPriority(Command.Exit);
    }

    /** The joined notifier is deleted: the destructor of its queue flushes what is left. */
    method Destroy()
      requires Valid() && exited && !destroyed
      modifies this`destroyed, this`released, mDataQ
      ensures Valid() && Abs() == Next(old(Abs()), upper, CbNotifierSteps.Destroy)
      ensures mDataQ.items == [] && released == old(released) + Numbers(old(mDataQ.items))
    {
      destroyed := true;
      var cbs := mDataQ.Flush();
      ReleaseNotifications(cbs);
    }

    /** The release callback of a flushed queue. */
    method ReleaseNotifications(cbs: seq<Callback>)
      modifies this`released
      ensures released == old(released) + Numbers(cbs)
    {
      var i := 0;
      while i < |cbs|
        invariant 0 <= i <= |cbs| && released + Numbers(cbs[i..]) == old(released) + Numbers(cbs)
      {
        released := released + [cbs[i].number];
        i := i + 1;
      }
    }

    /** One command of the notifier thread: `n` is the parent's number of expected snapshots and
        `enabled` its answer whether the message type is enabled. */
    method HandleCommand(n: nat, enabled: bool) returns (running: bool)
      requires Valid() && !destroyed && !exited && mProcTh.items != []
      modifies this, mDataQ, mProcTh
      ensures Valid() && !destroyed && running == !exited
      ensures Abs() == Finish(WorkerNext(old(Abs()), upper, n, enabled), upper, n, enabled)
      ensures mProcTh.items == old(mProcTh.items)[1..] && mActive == old(mActive)
      ensures exited == (old(mProcTh.items)[0] == Command.Exit)
      ensures old(mProcTh.items)[0] == StartDataProc
              ==> isSnapshotActive && numOfSnapshotExpected == n && numOfSnapshotRcvd == 0
                  && mDataQ.items == old(mDataQ.items) && released == old(released)
                  && history == old(history) + [Started(n)]
      ensures old(mProcTh.items)[0] == StopDataProc
              ==> !isSnapshotActive && numOfSnapshotExpected == numOfSnapshotRcvd == 0
                  && (forall c :: c in mDataQ.items <==> c in old(mDataQ.items) && !c.kind.Snapshot?)
                  && history == old(history) + [Stopped]
      ensures old(mProcTh.items)[0] == Command.Exit
              ==> mDataQ.items == [] && released == old(released) + Numbers(old(mDataQ.items))
      ensures old(mProcTh.items)[0] != DoNextJob ==> delivered == old(delivered)
      ensures old(mProcTh.items)[0] == DoNextJob
              ==> isSnapshotActive == old(isSnapshotActive) && numOfSnapshotExpected == old(numOfSnapshotExpected)
      ensures old(mProcTh.items)[0] == DoNextJob && old(mDataQ.items) == []
              ==> mDataQ.items == [] && delivered == old(delivered) && released == old(released)
      ensures old(mProcTh.items)[0] == DoNextJob && old(mDataQ.items) != []
              ==> var cb := old(mDataQ.items)[0];
                  var seen := enabled && cb.kind.Snapshot? && upper.data && old(isSnapshotActive);
                  var heard := (cb.kind.Notify? && upper.notify) || (cb.kind.Data? && upper.data)
                               || (cb.kind.Timestamp? && upper.timestamp);
                  && mDataQ.items == old(mDataQ.items)[1..]
                  && released == old(released) + [cb.number]
                  && delivered == old(delivered) + (if seen || (enabled && heard) then [cb.number] else [])
                  && numOfSnapshotRcvd == old(numOfSnapshotRcvd) + (if seen then 1 else 0)
                  && history == old(history)
                       + (if seen then [SnapshotSeen(old(numOfSnapshotExpected) > 0
                                                     && old(numOfSnapshotExpected) == old(numOfSnapshotRcvd) + 1)]
                          else [])
    {
      hide Filter, Numbers, Delivered, Finish, WorkerNext;
      CommandFinishes(Abs(), upper, n, enabled);
      var cmd := mProcTh.Dequeue();
      match cmd.value {
        case StartDataProc =>
          isSnapshotActive, numOfSnapshotExpected, numOfSnapshotRcvd := true, n, 0;
          history := history + [Started(n)];
        case StopDataProc =>
          FlushSnapshotCallbacks();
        case DoNextJob =>
          DoNextCallback(n, enabled);
        case Exit =>
          exited := true;
          var cbs := mDataQ.Flush();
          ReleaseNotifications(cbs);
      }
      running := !exited;
    }

    method FlushSnapshotCallbacks()
      requires Valid() && !destroyed && !exited
      modifies this`isSnapshotActive, this`numOfSnapshotExpected, this`numOfSnapshotRcvd, this`history,
               this`released, mDataQ
      ensures Valid()
      ensures Abs() == WorkerNext(old(Abs()).(pc := FlushSnapshots), upper, 0, false)
      ensures forall c :: c in mDataQ.items <==> c in old(mDataQ.items) && !c.kind.Snapshot?
      ensures !isSnapshotActive && numOfSnapshotExpected == numOfSnapshotRcvd == 0
      ensures history == old(history) + [Stopped]
    {
      RestMembers(mDataQ.items);
      var cbs := mDataQ.FlushNodes(IS_SNAPSHOT);
      ReleaseNotifications(cbs);
      isSnapshotActive, numOfSnapshotExpected, numOfSnapshotRcvd := false, 0, 0;
      history := history + [Stopped];
    }

    method DoNextCallback(n: nat, enabled: bool)
      requires Valid() && !destroyed && !exited
      modifies this`delivered, this`history, this`numOfSnapshotRcvd, this`released, mDataQ
      ensures Valid()
      ensures Abs() == Finish(old(Abs()).(pc := Take), upper, n, enabled)
      ensures old(mDataQ.items) == []
              ==> mDataQ.items == [] && delivered == old(delivered) && released == old(released)
      ensures old(mDataQ.items) != []
              ==> var cb := old(mDataQ.items)[0];
                  var seen := enabled && cb.kind.Snapshot? && upper.data && old(isSnapshotActive);
                  var heard := (cb.kind.Notify? && upper.notify) || (cb.kind.Data? && upper.data)
                               || (cb.kind.Timestamp? && upper.timestamp);
                  && mDataQ.items == old(mDataQ.items)[1..]
                  && released == old(released) + [cb.number]
                  && delivered == old(delivered) + (if seen || (enabled && heard) then [cb.number] else [])
                  && numOfSnapshotRcvd == old(numOfSnapshotRcvd) + (if seen then 1 else 0)
                  && history == old(history)
                       + (if seen then [SnapshotSeen(old(numOfSnapshotExpected) > 0
                                                     && old(numOfSnapshotExpected) == old(numOfSnapshotRcvd) + 1)]
                          else [])
    {
      hide Delivered;
      TakeFinishes(Abs(), upper, n, enabled);
      var cb := mDataQ.Dequeue();
      if cb != None {
        if enabled {
          Deliver(cb.value);
        }
        released := released + [cb.value.number];
      }
    }

    method Deliver(cb: Callback)
      requires Valid()
      modifies this`delivered, this`history, this`numOfSnapshotRcvd
      ensures Abs() == Delivered(old(Abs()), upper, cb)
      ensures var seen := cb.kind.Snapshot? && upper.data && isSnapshotActive;
              var heard := (cb.kind.Notify? && upper.notify) || (cb.kind.Data? && upper.data)
                           || (cb.kind.Timestamp? && upper.timestamp);
              && delivered == old(delivered) + (if seen || heard then [cb.number] else [])
              && numOfSnapshotRcvd == old(numOfSnapshotRcvd) + (if seen then 1 else 0)
              && history == old(history)
                   + (if seen then [SnapshotSeen(numOfSnapshotExpected > 0
                                                 && numOfSnapshotExpected == old(numOfSnapshotRcvd) + 1)]
                      else [])
    {
      match cb.kind {
        case Notify => if upper.notify { delivered := delivered + [cb.number]; }
        case Data => if upper.data { delivered := delivered + [cb.number]; }
        case Timestamp => if upper.timestamp { delivered := delivered + [cb.number]; }
        case Snapshot =>
          if isSnapshotActive && upper.data {
            numOfSnapshotRcvd := numOfSnapshotRcvd + 1;
            var done := numOfSnapshotExpected > 0 && numOfSnapshotExpected == numOfSnapshotRcvd;
            history := history + [SnapshotSeen(done)];
            delivered := delivered + [cb.number];
          }
        case Unknown =>
      }
    }

    /** The thread, as long as commands are queued: whatever the parent answers, it leaves the
        object in a state of the step system, so all results about those hold. */
    method CbNotifyRoutine(answers: seq<(nat, bool)>)
      requires Valid() && !destroyed && !exited && Reachable(Abs(), upper)
      modifies this, mDataQ, mProcTh
      ensures Valid() && Reachable(Abs(), upper)
    {
      hide Reachable, Finish;
      var running, i := true, 0;
      while running && mProcTh.items != [] && i < |answers|
        invariant 0 <= i <= |answers| && Valid() && !destroyed && running == !exited && Reachable(Abs(), upper)
        decreases |answers| - i
      {
        CommandReachable(Abs(), upper, answers[i].0, answers[i].1);
        running := HandleCommand(answers[i].0, answers[i].1);
        i := i + 1;
      }
    }
  }

  /** What the flush of the snapshot callbacks keeps. */
  lemma {:induction false} RestMembers(q: seq<Callback>)
    ensures forall c :: c in Filter(q, NOT_SNAPSHOT) <==> c in q && !c.kind.Snapshot?
  {
    if q != [] {
      RestMembers(q[1..]);
      assert q == [q[0]] + q[1..];
    }
  }
}
