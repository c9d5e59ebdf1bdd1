/** What every interleaving of the callback notifier keeps. */
module CbNotifierTheorems {
  import opened CameraQueue
  import opened CmdThread
  import opened Counting
  import opened CbNotifierSteps

  // ---------- exactly one release ----------

  function AtPc(pc: Pc): seq<nat> { if pc.Handle? then [pc.cb.number] else [] }

  /** The callback waits, is being handled, or has been released once, if it was accepted. */
  ghost predicate Accounted(s: State, n: nat) {
    Count(Numbers(s.dataQ), n) + Count(AtPc(s.pc), n) + Count(s.released, n) == One(n < s.enqueued)
  }

  lemma {:induction false} NumbersAppend(q: seq<Callback>, c: Callback)
    ensures Numbers(q + [c]) == Numbers(q) + [c.number]
  {
    if q == [] {
      assert q + [c] == [c] && [c][1..] == [];
    } else {
      assert (q + [c])[1..] == q[1..] + [c];
      NumbersAppend(q[1..], c);
    }
  }

  lemma {:induction false} FilterCounts(q: seq<Callback>, n: nat)
    ensures Count(Numbers(Filter(q, NOT_SNAPSHOT)), n) + Count(Numbers(Filter(q, IS_SNAPSHOT)), n)
            == Count(Numbers(q), n)
  {
    hide Count;
    if q == [] {
      CountNone(n);
    } else {
      FilterCounts(q[1..], n);
      var c, keep := q[0], if q[0].kind.Snapshot? then IS_SNAPSHOT else NOT_SNAPSHOT;
      assert Numbers(q) == [c.number] + Numbers(q[1..]);
      CountConcat([c.number], Numbers(q[1..]), n);
      var kept := Filter(q[1..], keep);
      assert Filter(q, keep) == [c] + kept;
      assert ([c] + kept)[1..] == kept && Numbers([c] + kept) == [c.number] + Numbers(kept);
      CountConcat([c.number], Numbers(kept), n);
    }
  }

  lemma StepAccounts(s: State, u: Upper, e: Step, n: nat)
    requires Enabled(s, e) && Accounted(s, n)
    ensures Accounted(Next(s, u, e), n)
  {
    hide Count;
    CountNone(n);
    match e
    case Enqueue(kind) =>
      NumbersAppend(s.dataQ, Callback(s.enqueued, kind));
      CountAppend(Numbers(s.dataQ), s.enqueued, n);
    case Destroy =>
      CountConcat(s.released, Numbers(s.dataQ), n);
    case Worker(expected, enabled) => WorkerAccounts(s, u, expected, enabled, n);
    case _ =>
  }

  lemma WorkerAccounts(s: State, u: Upper, expected: nat, enabled: bool, n: nat)
    requires Enabled(s, Worker(expected, enabled)) && Accounted(s, n)
    ensures Accounted(WorkerNext(s, u, expected, enabled), n)
  {
    hide Count, Filter, Delivered;
    CountNone(n);
    match s.pc
    case FlushSnapshots =>
      FilterCounts(s.dataQ, n);
      CountConcat(s.released, Numbers(Filter(s.dataQ, IS_SNAPSHOT)), n);
    case Take =>
      if s.dataQ != [] {
        CountConcat([s.dataQ[0].number], Numbers(s.dataQ[1..]), n);
      }
    case Handle(cb) =>
      DeliveredKeeps(s, u, cb);
      CountOne(cb.number, n);
      CountAppend(s.released, cb.number, n);
    case FlushAll =>
      CountConcat(s.released, Numbers(s.dataQ), n);
    case _ =>
  }

  lemma DeliveredKeeps(s: State, u: Upper, cb: Callback)
    ensures var t := Delivered(s, u, cb);
      t.dataQ == s.dataQ && t.released == s.released && t.enqueued == s.enqueued
  {
  }

  // ---------- delivery in enqueue order ----------

  ghost predicate Increasing(q: seq<nat>) { forall i, j :: 0 <= i < j < |q| ==> q[i] < q[j] }

  /** Delivered callbacks, the one at hand, the waiting ones and the next one to be accepted have
      increasing numbers. */
  ghost predicate InOrder(s: State) {
    Increasing(s.delivered + (AtPc(s.pc) + Numbers(s.dataQ) + [s.enqueued]))
  }

  lemma DropMiddle(a: seq<nat>, m: seq<nat>, b: seq<nat>)
    requires Increasing(a + (m + b))
    ensures Increasing(a + b)
  {
    var w, v := a + (m + b), a + b;
    forall i, j | 0 <= i < j < |v| ensures v[i] < v[j] {
      var i', j' := if i < |a| then i else i + |m|, if j < |a| then j else j + |m|;
      assert v[i] == w[i'] && v[j] == w[j'];
    }
  }

  lemma {:induction false} FilterOrder(a: seq<nat>, q: seq<Callback>, keep: Callback -> bool, z: nat)
    requires Increasing(a + (Numbers(q) + [z]))
    ensures Increasing(a + (Numbers(Filter(q, keep)) + [z]))
    decreases |q|
  {
    hide Increasing;
    if q != [] {
      var c, tail := q[0], Numbers(q[1..]) + [z];
      assert Numbers(q) + [z] == [c.number] + tail;
      if keep(c) {
        assert a + ([c.number] + tail) == (a + [c.number]) + tail;
        FilterOrder(a + [c.number], q[1..], keep, z);
        var rest := Filter(q[1..], keep);
        assert ([c] + rest)[1..] == rest;
        assert a + (Numbers(Filter(q, keep)) + [z]) == (a + [c.number]) + (Numbers(rest) + [z]);
      } else {
        DropMiddle(a, [c.number], tail);
        FilterOrder(a, q[1..], keep, z);
      }
    }
  }

  lemma AppendLarger(w: seq<nat>, x: nat)
    requires Increasing(w + [x])
    ensures Increasing(w + [x, x + 1])
  {
    var v := w + [x, x + 1];
    forall i, j | 0 <= i < j < |v| ensures v[i] < v[j] {
      assert i <= |w| && v[i] == (w + [x])[i] && (w + [x])[|w|] == x;
      if j <= |w| { assert v[j] == (w + [x])[j]; }
    }
  }

  lemma StepKeepsOrder(s: State, u: Upper, e: Step)
    requires Enabled(s, e) && InOrder(s)
    ensures InOrder(Next(s, u, e))
  {
    hide Increasing, WorkerNext;
    match e
    case Enqueue(kind) => EnqueueKeepsOrder(s, u, kind);
    case Destroy => FlushKeepsOrder(s);
    case Worker(n, enabled) => WorkerKeepsOrder(s, u, n, enabled);
    case _ =>
  }

  lemma EnqueueKeepsOrder(s: State, u: Upper, kind: Kind)
    requires Enabled(s, Enqueue(kind)) && InOrder(s)
    ensures InOrder(Next(s, u, Enqueue(kind)))
  {
    hide Increasing, WorkerNext;
    NumbersAppend(s.dataQ, Callback(s.enqueued, kind));
    var w := s.delivered + AtPc(s.pc) + Numbers(s.dataQ);
    assert s.delivered + (AtPc(s.pc) + Numbers(s.dataQ) + [s.enqueued]) == w + [s.enqueued];
    AppendLarger(w, s.enqueued);
    assert s.delivered + (AtPc(s.pc) + (Numbers(s.dataQ) + [s.enqueued]) + [s.enqueued + 1])
           == w + [s.enqueued, s.enqueued + 1];
  }

  /** Flushing the whole queue while no callback is at hand. */
  lemma FlushKeepsOrder(s: State)
    requires InOrder(s) && !s.pc.Handle?
    ensures Increasing(s.delivered + ([] + [] + [s.enqueued]))
  {
    hide Increasing;
    var q, z := Numbers(s.dataQ), s.enqueued;
    assert [] + q + [z] == q + [z] && [] + [] + [z] == [z];
    DropMiddle(s.delivered, q, [z]);
  }

  lemma WorkerKeepsOrder(s: State, u: Upper, n: nat, enabled: bool)
    requires Enabled(s, Worker(n, enabled)) && InOrder(s)
    ensures InOrder(WorkerNext(s, u, n, enabled))
  {
    hide Increasing, Filter, Delivered;
    var d, q, z := s.delivered, Numbers(s.dataQ), s.enqueued;
    match s.pc
    case FlushSnapshots =>
      assert [] + q == q;
      FilterOrder(d, s.dataQ, NOT_SNAPSHOT, z);
      var rest := Numbers(Filter(s.dataQ, NOT_SNAPSHOT));
      assert [] + rest == rest;
    case Take =>
      if s.dataQ != [] {
        assert [] + q == [s.dataQ[0].number] + Numbers(s.dataQ[1..]);
      }
    case Handle(cb) => HandleKeepsOrder(s, u, cb, enabled);
    case FlushAll => FlushKeepsOrder(s);
    case _ =>
  }

  lemma HandleKeepsOrder(s: State, u: Upper, cb: Callback, enabled: bool)
    requires s.pc == Handle(cb) && InOrder(s)
    ensures InOrder(Released(if enabled then Delivered(s, u, cb) else s, cb))
  {
    hide Increasing;
    var d, tail := s.delivered, [] + Numbers(s.dataQ) + [s.enqueued];
    assert [cb.number] + Numbers(s.dataQ) + [s.enqueued] == [cb.number] + tail;
    DropMiddle(d, [cb.number], tail);
    assert d + ([cb.number] + tail) == (d + [cb.number]) + tail;
  }

  // ---------- wake-ups ----------

  /** DoNextJob commands queued or owed are never fewer than the waiting callbacks. */
  ghost predicate Awake(s: State) {
    CountNext(s.cmds) + s.sending + One(s.pc.Take?) >= |s.dataQ|
  }

  lemma {:induction false} FilterShrinks(q: seq<Callback>, keep: Callback -> bool)
    ensures |Filter(q, keep)| <= |q|
  {
    if q != [] { FilterShrinks(q[1..], keep); }
  }

  lemma StepKeepsAwake(s: State, u: Upper, e: Step)
    requires Enabled(s, e) && Awake(s)
    ensures Awake(Next(s, u, e))
  {
    hide CountNext, WorkerNext;
    match e
    case SendNext => CountSent(s.cmds, DoNextJob);
    case StartSnapshots => CountSent(s.cmds, StartDataProc);
    case StopSnapshots => CountSent(s.cmds, StopDataProc);
    case ExitCall => CountSent(s.cmds, Exit);
    case Worker(n, enabled) => WorkerKeepsAwake(s, u, n, enabled);
    case _ =>
  }

  lemma WorkerKeepsAwake(s: State, u: Upper, n: nat, enabled: bool)
    requires Enabled(s, Worker(n, enabled)) && Awake(s)
    ensures Awake(WorkerNext(s, u, n, enabled))
  {
    hide CountNext, Filter, Numbers;
    match s.pc
    case Idle =>
      assert s.cmds == [s.cmds[0]] + s.cmds[1..];
      CountSent(s.cmds[1..], s.cmds[0]);
    case FlushSnapshots => FilterShrinks(s.dataQ, NOT_SNAPSHOT);
    case _ =>
  }

  // ---------- SNAPSHOT_DONE ----------

  /** The index of the last Started or Stopped event, or -1. */
  function Marker(h: seq<Event>): int {
    if h == [] then -1
    else if h[|h| - 1].SnapshotSeen? then Marker(h[..|h| - 1]) else |h| - 1
  }

  lemma {:induction false} MarkerRange(h: seq<Event>)
    ensures -1 <= Marker(h) < |h|
    ensures Marker(h) >= 0 ==> !h[Marker(h)].SnapshotSeen?
    ensures forall i :: Marker(h) < i < |h| ==> h[i].SnapshotSeen?
  {
    if h != [] && h[|h| - 1].SnapshotSeen? { MarkerRange(h[..|h| - 1]); }
  }

  /** The snapshot processed at position i is the N-th since the session was started with N > 0. */
  predicate Completes(h: seq<Event>, i: nat)
    requires i < |h|
  {
    var m := Marker(h[..i]);
    0 <= m < i && h[m].Started? && h[m].expected > 0 && i - m == h[m].expected
  }

  /** SNAPSHOT_DONE is raised exactly when the expected number of snapshots of the running session
      has been processed, and snapshots are only ever processed in a running session. */
  ghost predicate Announced(h: seq<Event>) {
    forall i :: 0 <= i < |h| ==> EventRight(h, i)
  }

  ghost predicate EventRight(h: seq<Event>, i: nat)
    requires i < |h|
  {
    h[i].SnapshotSeen? ==>
      (h[i].done <==> Completes(h, i)) && 0 <= Marker(h[..i]) < i && h[Marker(h[..i])].Started?
  }

  /** The counters of the thread describe the session that the history ends in. */
  ghost predicate Counters(s: State) {
    var m := Marker(s.history);
    && (s.snapshotActive <==> 0 <= m < |s.history| && s.history[m].Started?)
    && (s.snapshotActive ==> s.expected == s.history[m].expected && s.rcvd == |s.history| - 1 - m)
  }

  lemma {:induction false} AppendEvent(h: seq<Event>, v: Event)
    requires Announced(h)
    requires v.SnapshotSeen? ==> var m := Marker(h);
      0 <= m < |h| && h[m].Started? && (v.done <==> h[m].expected > 0 && |h| - m == h[m].expected)
    ensures Announced(h + [v])
    ensures Marker(h + [v]) == if v.SnapshotSeen? then Marker(h) else |h|
  {
    hide EventRight;
    var g := h + [v];
    forall i | 0 <= i < |g| ensures EventRight(g, i) {
      if i < |h| { assert EventRight(h, i); EarlierEvent(h, v, i); } else { LastEvent(h, v); }
    }
    assert g[..|h|] == h;
  }

  lemma EarlierEvent(h: seq<Event>, v: Event, i: nat)
    requires i < |h| && EventRight(h, i)
    ensures EventRight(h + [v], i)
  {
    hide Marker;
    var g := h + [v];
    assert g[..i] == h[..i] && g[i] == h[i];
    MarkerRange(h[..i]);
    assert forall k :: 0 <= k < i ==> g[k] == h[k];
  }

  lemma LastEvent(h: seq<Event>, v: Event)
    requires v.SnapshotSeen? ==> var m := Marker(h);
      0 <= m < |h| && h[m].Started? && (v.done <==> h[m].expected > 0 && |h| - m == h[m].expected)
    ensures EventRight(h + [v], |h|)
  {
    hide Marker;
    var g := h + [v];
    assert g[..|h|] == h;
    assert forall k :: 0 <= k < |h| ==> g[k] == h[k];
  }

  lemma {:induction false} StepAnnounces(s: State, u: Upper, e: Step)
    requires Enabled(s, e) && Announced(s.history) && Counters(s)
    ensures Announced(Next(s, u, e).history) && Counters(Next(s, u, e))
  {
    hide Announced, Counters, WorkerNext;
    match e
    case Worker(n, enabled) => WorkerAnnounces(s, u, n, enabled);
    case _ => assert Counters(Next(s, u, e)) by { SameCounters(s, Next(s, u, e)); }
  }

  lemma SameCounters(s: State, t: State)
    requires Counters(s) && t.history == s.history && t.snapshotActive == s.snapshotActive
    requires t.expected == s.expected && t.rcvd == s.rcvd
    ensures Counters(t)
  {
  }

  lemma {:induction false} WorkerAnnounces(s: State, u: Upper, n: nat, enabled: bool)
    requires Enabled(s, Worker(n, enabled)) && Announced(s.history) && Counters(s)
    ensures var t := WorkerNext(s, u, n, enabled); Announced(t.history) && Counters(t)
  {
    hide Announced, Marker, Filter, Numbers;
    MarkerRange(s.history);
    match s.pc
    case Idle => if s.cmds[0].StartDataProc? { AppendEvent(s.history, Started(n)); }
    case FlushSnapshots => AppendEvent(s.history, Stopped);
    case Handle(cb) =>
      if cb.kind.Snapshot? && s.snapshotActive {
        AppendEvent(s.history, SnapshotSeen(s.expected > 0 && s.expected == s.rcvd + 1));
      }
    case _ =>
  }

  /** Hence between two SNAPSHOT_DONE events a new session was started. */
  lemma AtMostOncePerSession(h: seq<Event>, i: nat, j: nat)
    requires Announced(h) && i < j < |h|
    requires h[i] == SnapshotSeen(true) && h[j] == SnapshotSeen(true)
    ensures exists k :: i < k < j && h[k].Started?
  {
    var m, n := Marker(h[..i]), Marker(h[..j]);
    hide Announced, Marker;
    MarkerBefore(h, i);
    MarkerBefore(h, j);
    assert Completes(h, i) && Completes(h, j) by { ByAnnounced(h, i); ByAnnounced(h, j); }
    assert n < i ==> n == m;
  }

  lemma MarkerBefore(h: seq<Event>, i: nat)
    requires i <= |h|
    ensures var m := Marker(h[..i]);
      -1 <= m < i && (m >= 0 ==> !h[m].SnapshotSeen?) && forall k :: m < k < i ==> h[k].SnapshotSeen?
  {
    MarkerRange(h[..i]);
    assert forall k :: 0 <= k < i ==> h[..i][k] == h[k];
  }

  lemma ByAnnounced(h: seq<Event>, i: nat)
    requires Announced(h) && i < |h| && h[i] == SnapshotSeen(true)
    ensures Completes(h, i)
  {
    assert EventRight(h, i);
  }

  // ---------- every run ----------

  ghost predicate Inv(s: State) {
    && (forall n :: Accounted(s, n)) && InOrder(s) && Awake(s)
    && Announced(s.history) && Counters(s) && (s.pc.Destroyed? ==> s.dataQ == [])
  }

  lemma InitialInv()
    ensures Inv(INITIAL)
  {
    forall n ensures Accounted(INITIAL, n) {}
  }

  lemma StepKeepsInv(s: State, u: Upper, e: Step)
    requires Inv(s) && Enabled(s, e)
    ensures Inv(Next(s, u, e))
  {
    hide Accounted, InOrder, Awake, Announced, Counters, Next, Enabled;
    forall n ensures Accounted(Next(s, u, e), n) { StepAccounts(s, u, e, n); }
    StepKeepsOrder(s, u, e);
    StepKeepsAwake(s, u, e);
    StepAnnounces(s, u, e);
    DestroyEmpties(s, u, e);
  }

  lemma DestroyEmpties(s: State, u: Upper, e: Step)
    requires Enabled(s, e)
    ensures Next(s, u, e).pc.Destroyed? ==> Next(s, u, e).dataQ == []
  {
    hide Filter, Numbers, Delivered;
  }

  lemma {:induction false} RunKeepsInv(s: State, u: Upper, run: seq<Step>)
    requires Inv(s) && ValidRun(s, u, run)
    ensures Inv(Exec(s, u, run))
    decreases |run|
  {
    hide Inv, Next, Enabled;
    if run != [] {
      StepKeepsInv(s, u, run[0]);
      RunKeepsInv(Next(s, u, run[0]), u, run[1..]);
    }
  }

  lemma {:induction false} ExecExtends(s: State, u: Upper, run: seq<Step>, e: Step)
    requires ValidRun(s, u, run) && Enabled(Exec(s, u, run), e)
    ensures ValidRun(s, u, run + [e]) && Exec(s, u, run + [e]) == Next(Exec(s, u, run), u, e)
    decreases |run|
  {
    if run == [] {
      assert run + [e] == [e] && [e][1..] == [];
    } else {
      assert (run + [e])[1..] == run[1..] + [e];
      ExecExtends(Next(s, u, run[0]), u, run[1..], e);
    }
  }

  lemma StepReachable(s: State, u: Upper, e: Step) returns (t: State)
    requires Reachable(s, u) && Enabled(s, e)
    ensures t == Next(s, u, e) && Reachable(t, u)
  {
    hide Next, Enabled;
    var run :| ValidRun(INITIAL, u, run) && Exec(INITIAL, u, run) == s;
    ExecExtends(INITIAL, u, run, e);
    t := Next(s, u, e);
  }

  lemma InitialReachable(u: Upper)
    ensures Reachable(INITIAL, u)
  {
    assert ValidRun(INITIAL, u, []) && Exec(INITIAL, u, []) == INITIAL;
  }

  /** Main result: the invariant holds in every reachable state. */
  lemma ReachableInv(s: State, u: Upper)
    requires Reachable(s, u)
    ensures Inv(s)
  {
    hide Inv, ValidRun, Exec;
    InitialInv();
    var run :| ValidRun(INITIAL, u, run) && Exec(INITIAL, u, run) == s;
    RunKeepsInv(INITIAL, u, run);
  }

  /** Every accepted callback waits, is being handled or was released exactly once. */
  lemma ReleasedExactlyOnce(s: State, u: Upper, n: nat)
    requires Reachable(s, u)
    ensures Count(Numbers(s.dataQ), n) + Count(AtPc(s.pc), n) + Count(s.released, n)
            == if n < s.enqueued then 1 else 0
  {
    hide Reachable;
    ReachableInv(s, u);
    assert Accounted(s, n);
  }

  /** The flush on EXIT releases exactly the callbacks enqueued before it; one that passed the
      activity check earlier but is enqueued later is released when the notifier is destroyed. */
  lemma ExitReleases(s: State, u: Upper, run: seq<Step>, n: nat)
    requires Reachable(s, u) && s.pc.FlushAll?
    requires ValidRun(Next(s, u, Worker(0, false)), u, run)
    ensures var t := Exec(Next(s, u, Worker(0, false)), u, run);
      Count(t.released, n) == One(n < if t.pc.Destroyed? then t.enqueued else s.enqueued)
  {
    hide Reachable, ValidRun, Exec, Count, InOrder, Awake, Announced, Counters;
    ReachableInv(s, u);
    var t := Next(s, u, Worker(0, false));
    StepKeepsInv(s, u, Worker(0, false));
    RunKeepsInv(t, u, run);
    var v := Exec(t, u, run);
    assert Accounted(t, n) && Accounted(v, n);
    CountNone(n);
    AfterExit(t, u, run);
  }

  lemma {:induction false} AfterExit(s: State, u: Upper, run: seq<Step>)
    requires s.pc.Exited? && ValidRun(s, u, run)
    ensures var t := Exec(s, u, run);
      t.pc.Destroyed? || (t.pc.Exited? && t.released == s.released)
    decreases |run|
  {
    if run != [] {
      var t := Next(s, u, run[0]);
      if !t.pc.Destroyed? { AfterExit(t, u, run[1..]); }
    }
  }

  /** Once the notifier is destroyed, every callback ever accepted has been released exactly once. */
  lemma DestroyReleasesAll(s: State, u: Upper, n: nat)
    requires Reachable(s, u) && s.pc.Destroyed?
    ensures s.dataQ == [] && Count(s.released, n) == One(n < s.enqueued)
  {
    hide Reachable, Count;
    ReachableInv(s, u);
    assert Accounted(s, n);
    CountNone(n);
  }

  /** A callback can miss the flush on EXIT: it has passed the activity check before, is enqueued
      afterwards and stays until the notifier is destroyed. */
  lemma LateCallback(u: Upper, kind: Kind) returns (s: State)
    ensures Reachable(s, u) && s.pc.Exited? && s.enqueued == 1 && Count(s.released, 0) == 0
    ensures Next(s, u, Destroy).released == [0]
  {
    hide Reachable, Next, Count;
    s := ExitedEarly(u);
    LateSteps(s, u, kind);
    s := StepReachable(s, u, Enqueue(kind));
    CountNone(0);
  }

  lemma LateSteps(s: State, u: Upper, kind: Kind)
    requires s == INITIAL.(mActive := false, admitted := 1, pc := Exited)
    ensures Enabled(s, Enqueue(kind))
    ensures var t := Next(s, u, Enqueue(kind));
      t.pc.Exited? && t.enqueued == 1 && t.released == [] && Next(t, u, Destroy).released == [0]
  {
    hide Next, Numbers;
    var t := Next(s, u, Enqueue(kind));
    EnqueueStep(s, u, kind);
    OneNumber(0, kind);
    DestroyFlushes(t, u);
    assert [] + [0] == [0];
  }

  lemma EnqueueStep(s: State, u: Upper, kind: Kind)
    requires s == INITIAL.(mActive := false, admitted := 1, pc := Exited)
    ensures Next(s, u, Enqueue(kind))
            == s.(admitted := 0, dataQ := [Callback(0, kind)], enqueued := 1, sending := 1)
  {
    hide WorkerNext;
    assert [] + [Callback(0, kind)] == [Callback(0, kind)];
  }

  lemma DestroyFlushes(s: State, u: Upper)
    requires s.pc.Exited?
    ensures Next(s, u, Destroy).released == s.released + Numbers(s.dataQ)
  {
    hide WorkerNext, Numbers;
  }

  lemma OneNumber(n: nat, kind: Kind)
    ensures Numbers([Callback(n, kind)]) == [n]
  {
  }

  /** The thread handles EXIT while a caller that has passed the activity check is still inside. */
  lemma ExitedEarly(u: Upper) returns (s: State)
    ensures Reachable(s, u) && s == INITIAL.(mActive := false, admitted := 1, pc := Exited)
  {
    hide Reachable, WorkerNext;
    s := Admitted(u);
    ExitSteps(u);
    s := StepReachable(s, u, Worker(0, false));
    s := StepReachable(s, u, Worker(0, false));
  }

  lemma ExitSteps(u: Upper)
    ensures var s := INITIAL.(mActive := false, admitted := 1, cmds := [Exit]);
      var t := s.(cmds := [], pc := FlushAll);
      WorkerNext(s, u, 0, false) == t && WorkerNext(t, u, 0, false) == t.(pc := Exited)
  {
    hide Delivered, Filter;
    assert [Exit][1..] == [];
  }

  /** A caller has passed the activity check, and then EXIT is sent. */
  lemma Admitted(u: Upper) returns (s: State)
    ensures Reachable(s, u) && s == INITIAL.(mActive := false, admitted := 1, cmds := [Exit])
  {
    hide Reachable, WorkerNext;
    InitialReachable(u);
    s := StepReachable(INITIAL, u, Admit);
    s := StepReachable(s, u, ExitCall);
  }

  /** Whatever reached the upper layers has been released, once. */
  lemma DeliveredThenReleased(s: State, u: Upper, i: nat)
    requires Reachable(s, u) && i < |s.delivered|
    ensures Count(s.released, s.delivered[i]) == 1
  {
    hide Reachable, Count, Awake, Announced, Counters;
    ReachableInv(s, u);
    var n, rest := s.delivered[i], AtPc(s.pc) + Numbers(s.dataQ) + [s.enqueued];
    forall k | 0 <= k < |rest| ensures n < rest[k] {
      var w := s.delivered + rest;
      assert w[i] == n && w[|s.delivered| + k] == rest[k];
    }
    assert rest[|rest| - 1] == s.enqueued;
    assert Accounted(s, n);
    assert n !in rest;
    CountMember(AtPc(s.pc), n);
    CountMember(Numbers(s.dataQ), n);
  }

  lemma {:induction false} CountMember(q: seq<nat>, n: nat)
    ensures n in q <==> Count(q, n) > 0
  {
    if q != [] {
      CountMember(q[1..], n);
      assert q == [q[0]] + q[1..];
    }
  }

  /** The upper layers see callbacks in the order in which they were enqueued. */
  lemma DeliveredInOrder(s: State, u: Upper)
    requires Reachable(s, u)
    ensures Increasing(s.delivered)
  {
    hide Reachable;
    ReachableInv(s, u);
    var rest := AtPc(s.pc) + Numbers(s.dataQ) + [s.enqueued];
    assert rest + [] == rest && s.delivered + [] == s.delivered;
    DropMiddle(s.delivered, rest, []);
  }

  /** The function that the callback is for is set; a snapshot also needs a running session. */
  predicate Heard(s: State, u: Upper, cb: Callback) {
    || (cb.kind.Notify? && u.notify)
    || (cb.kind.Data? && u.data)
    || (cb.kind.Timestamp? && u.timestamp)
    || (cb.kind.Snapshot? && u.data && s.snapshotActive)
  }

  /** The number that the step hands to the upper layers, if any: that of the callback at hand if its
      message is enabled and its function is set. */
  function HandedUp(s: State, u: Upper, e: Step): seq<nat> {
    if s.pc.Handle? && e.Worker? && e.enabled && Heard(s, u, s.pc.cb) then [s.pc.cb.number] else []
  }

  lemma StepDelivers(s: State, u: Upper, e: Step)
    requires Enabled(s, e)
    ensures Next(s, u, e).delivered == s.delivered + HandedUp(s, u, e)
  {
    hide Filter, Numbers;
  }

  ghost function AllHandedUp(s: State, u: Upper, run: seq<Step>): seq<nat>
    requires ValidRun(s, u, run)
    decreases |run|
  {
    if run == [] then [] else HandedUp(s, u, run[0]) + AllHandedUp(Next(s, u, run[0]), u, run[1..])
  }

  /** Over every run, what is delivered is exactly the enabled callbacks whose function is set when they
      are handled, in that order. */
  lemma {:induction false} DeliveredExactly(s: State, u: Upper, run: seq<Step>)
    requires ValidRun(s, u, run)
    ensures Exec(s, u, run).delivered == s.delivered + AllHandedUp(s, u, run)
    decreases |run|
  {
    hide Next, Enabled, HandedUp;
    if run != [] {
      StepDelivers(s, u, run[0]);
      DeliveredExactly(Next(s, u, run[0]), u, run[1..]);
    }
  }

  /** A quiet notifier that has not ended has no callback left to deliver. */
  lemma QuietMeansDelivered(s: State, u: Upper)
    requires Reachable(s, u) && s.pc.Idle? && s.cmds == [] && s.sending == 0
    ensures s.dataQ == []
  {
    hide Reachable;
    ReachableInv(s, u);
  }

  /** SNAPSHOT_DONE in every run: raised exactly at the N-th snapshot of a session started with
      N > 0, never outside a session, and at most once per session. */
  lemma SnapshotDone(s: State, u: Upper)
    requires Reachable(s, u)
    ensures Announced(s.history)
    ensures forall i, j :: 0 <= i < j < |s.history|
              && s.history[i] == SnapshotSeen(true) && s.history[j] == SnapshotSeen(true)
              ==> exists k :: i < k < j && s.history[k].Started?
  {
    hide Reachable, Announced;
    ReachableInv(s, u);
    forall i, j | 0 <= i < j < |s.history| && s.history[i] == SnapshotSeen(true) && s.history[j] == SnapshotSeen(true)
      ensures exists k :: i < k < j && s.history[k].Started?
    {
      AtMostOncePerSession(s.history, i, j);
    }
  }
}
