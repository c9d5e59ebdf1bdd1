/** Who holds the preview buffers: the gralloc memory object and the native window it draws on. */
module Gralloc {
  import opened Wrappers

  const MAX_NUM_FRAMES := 24
  const INVALID_OPERATION := -38
  const BAD_INDEX := -75

  /** The buffer table of the HAL beside the window's own view.  `misused` counts buffers handed
      to the window that are not its own or that it holds already. */
  datatype State = State(
    handles: seq<Option<nat>>,
    owned: seq<bool>,
    count: nat,
    pool: set<nat>,
    held: set<nat>,
    misused: nat)

  predicate Shaped(s: State) { s.count <= |s.handles| == |s.owned| }

  ghost predicate Named(s: State)
    requires Shaped(s)
  {
    && (forall i :: 0 <= i < s.count ==> s.handles[i].Some? && s.handles[i].value in s.pool)
    && (forall i, j :: 0 <= i < j < s.count ==> s.handles[i] != s.handles[j])
    && (forall h :: h in s.pool ==> Some(h) in s.handles[..s.count])
  }

  /** Each buffer is either owned by the HAL or held by the window. */
  ghost predicate Conserved(s: State) {
    && Shaped(s) && Named(s) && s.held <= s.pool
    && (forall i :: 0 <= i < s.count ==> (s.owned[i] <==> s.handles[i].value !in s.held))
    && (forall i :: s.count <= i < |s.owned| ==> !s.owned[i])
  }

  /** The window takes a buffer back. */
  function TakeBack(s: State, h: Option<nat>): State {
    if h.Some? && h.value in s.pool && h.value !in s.held then s.(held := s.held + {h.value})
    else s.(misused := s.misused + 1)
  }

  /** The window gives out the buffer `want`, if it holds it. */
  function Gives(held: set<nat>, want: Option<nat>): Option<nat> {
    if want.Some? && want.value in held then want else None
  }

  /** First position of a handle in the table, or the length. */
  function Find(handles: seq<Option<nat>>, h: nat): nat {
    if handles == [] || handles[0] == Some(h) then 0 else 1 + Find(handles[1..], h)
  }

  lemma {:induction false} FindIsFirst(handles: seq<Option<nat>>, h: nat)
    ensures var k := Find(handles, h);
      && k <= |handles| && (k < |handles| ==> handles[k] == Some(h))
      && forall j :: 0 <= j < k ==> handles[j] != Some(h)
  {
    if handles != [] && handles[0] != Some(h) {
      FindIsFirst(handles[1..], h);
      assert forall j :: 0 < j < |handles| ==> handles[j] == handles[1..][j - 1];
    }
  }

  function Enqueued(s: State, index: nat, ok: bool): State
    requires Shaped(s) && index < |s.owned|
  {
    if ok then TakeBack(s, s.handles[index]).(owned := s.owned[index := false]) else s
  }

  function Dequeued(s: State, want: Option<nat>): (State, int)
    requires Shaped(s)
  {
    var got := Gives(s.held, want);
    if got == None then (s, BAD_INDEX)
    else
      var t := s.(held := s.held - {got.value});
      FindIsFirst(s.handles[..s.count], got.value);
      var k := Find(s.handles[..s.count], got.value);
      if k < s.count then (t.(owned := s.owned[k := true]), k) else (t, BAD_INDEX)
  }

  /** Show a buffer and get another one: `ok` says whether the window accepts it and `want` which
      buffer it would give in return. */
  function Displayed(s: State, index: nat, ok: bool, want: Option<nat>): (r: (State, int))
    requires Shaped(s) && index < |s.owned|
    ensures Shaped(r.0) && |r.0.owned| == |s.owned|
  {
    if !s.owned[index] then (s, INVALID_OPERATION) else Dequeued(Enqueued(s, index, ok), want)
  }

  lemma EnqueueConserves(s: State, index: nat, ok: bool)
    requires Conserved(s) && index < |s.owned| && s.owned[index]
    ensures Conserved(Enqueued(s, index, ok)) && Enqueued(s, index, ok).misused == s.misused
  {
    assert forall i :: 0 <= i < s.count && i != index ==> s.handles[i] != s.handles[index];
  }

  lemma DequeueConserves(s: State, want: Option<nat>)
    requires Conserved(s)
    ensures var (t, r) := Dequeued(s, want);
      && Conserved(t) && t.misused == s.misused
      && (r >= 0 <==> Gives(s.held, want).Some?)
      && (r >= 0 ==> r < s.count && !s.owned[r] && t.owned == s.owned[r := true])
      && (r < 0 ==> t == s)
  {
    var got := Gives(s.held, want);
    if got != None {
      FindIsFirst(s.handles[..s.count], got.value);
      var k := Find(s.handles[..s.count], got.value);
      assert k < s.count;
      assert forall i :: 0 <= i < s.count && i != k ==> s.handles[i] != s.handles[k];
    }
  }

  /** Displaying keeps every buffer with exactly one side, whether or not the window accepts or
      gives a buffer; a non-negative result is a buffer the HAL now owns, and nothing else moves
      except the displayed buffer. */
  lemma DisplayConserves(s: State, index: nat, ok: bool, want: Option<nat>)
    requires Conserved(s) && index < |s.owned|
    ensures var (t, r) := Displayed(s, index, ok, want);
      && Conserved(t) && t.misused == s.misused
      && t.handles == s.handles && t.count == s.count && t.pool == s.pool
      && (r >= 0 ==> r < s.count && t.owned[r])
      && forall i :: 0 <= i < |s.owned| ==>
           (t.owned[i] <==> i == r || (s.owned[i] && !(i == index && ok)))
  {
    if s.owned[index] {
      EnqueueConserves(s, index, ok);
      DequeueConserves(Enqueued(s, index, ok), want);
    }
  }

  /** What a display of an owned buffer does, in terms of the window: it gets the buffer if it accepts
      it, and then gives the wanted one if it has that. */
  lemma DisplayExact(s: State, index: nat, ok: bool, want: Option<nat>)
    requires Conserved(s) && index < |s.owned| && s.owned[index]
    ensures index < s.count && s.handles[index].Some?
    ensures var (t, r) := Displayed(s, index, ok, want);
      var there := if ok then s.held + {s.handles[index].value} else s.held;
      && (if want.Some? && want.value in there then
            0 <= r < s.count && s.handles[r] == want && t.held == there - {want.value}
          else r == -75 && t.held == there)
      && forall i :: 0 <= i < |s.owned| ==> t.owned[i] == (i == r || (s.owned[i] && !(ok && i == index)))
  {
    EnqueueConserves(s, index, ok);
    DequeueConserves(Enqueued(s, index, ok), want);
    DisplayConserves(s, index, ok, want);
    var got := Gives(Enqueued(s, index, ok).held, want);
    if got.Some? { FindIsFirst(s.handles[..s.count], got.value); }
  }

  // ---------- giving everything back ----------

  function Returned(s: State, i: nat): State
    requires Shaped(s) && i < |s.owned|
  {
    if s.owned[i] then TakeBack(s, s.handles[i]).(owned := s.owned[i := false]) else s
  }

  function ReturnedUpTo(s: State, n: nat): (t: State)
    requires Shaped(s) && n <= |s.owned|
    ensures Shaped(t) && t.handles == s.handles && t.count == s.count && t.pool == s.pool
    ensures |t.owned| == |s.owned|
  {
    if n == 0 then s else Returned(ReturnedUpTo(s, n - 1), n - 1)
  }

  function Deallocated(s: State): State
    requires Shaped(s)
  {
    ReturnedUpTo(s, s.count).(count := 0)
  }

  lemma {:induction false} ReturnConserves(s: State, n: nat)
    requires Conserved(s) && n <= s.count
    ensures var t := ReturnedUpTo(s, n);
      && Conserved(t) && t.misused == s.misused
      && forall i :: 0 <= i < |s.owned| ==> t.owned[i] == (i >= n && s.owned[i])
  {
    hide Named, TakeBack;
    if n > 0 {
      ReturnConserves(s, n - 1);
      var t := ReturnedUpTo(s, n - 1);
      if t.owned[n - 1] { EnqueueConserves(t, n - 1, true); }
    }
  }

  /** Deallocating gives every buffer back, each owned one once. */
  lemma DeallocateReturnsAll(s: State)
    requires Conserved(s)
    ensures var t := Deallocated(s);
      && t.held == t.pool == s.pool && t.misused == s.misused && t.count == 0
      && forall i :: 0 <= i < |t.owned| ==> !t.owned[i]
  {
    ReturnConserves(s, s.count);
    var t := ReturnedUpTo(s, s.count);
    forall h | h in t.pool ensures h in t.held {
      var i :| 0 <= i < s.count && s.handles[..s.count][i] == Some(h);
      assert !t.owned[i];
    }
  }

  // ---------- whole sessions ----------

  /** One displayed frame: the buffer shown and how the window answers. */
  datatype Call = Call(index: nat, ok: bool, want: Option<nat>)

  function DisplayedAll(s: State, calls: seq<Call>): (t: State)
    requires Shaped(s) && forall i :: 0 <= i < |calls| ==> calls[i].index < |s.owned|
    ensures Shaped(t) && |t.owned| == |s.owned|
    decreases |calls|
  {
    if calls == [] then s
    else DisplayedAll(Displayed(s, calls[0].index, calls[0].ok, calls[0].want).0, calls[1..])
  }

  lemma {:induction false} SessionConserves(s: State, calls: seq<Call>)
    requires Conserved(s) && forall i :: 0 <= i < |calls| ==> calls[i].index < |s.owned|
    ensures var t := DisplayedAll(s, calls);
      && Conserved(t) && t.misused == s.misused
      && t.handles == s.handles && t.count == s.count && t.pool == s.pool
    decreases |calls|
  {
    hide Named, Displayed;
    if calls != [] {
      DisplayConserves(s, calls[0].index, calls[0].ok, calls[0].want);
      SessionConserves(Displayed(s, calls[0].index, calls[0].ok, calls[0].want).0, calls[1..]);
    }
  }

  /** Main result: from a state in which every buffer is with one side, any sequence of displayed
      frames followed by `deallocate` leaves all buffers with the window, none handed to it twice. */
  lemma SessionReturnsAll(s: State, calls: seq<Call>)
    requires Conserved(s) && forall i :: 0 <= i < |calls| ==> calls[i].index < |s.owned|
    ensures var t := Deallocated(DisplayedAll(s, calls));
      && t.held == t.pool == s.pool && t.misused == s.misused
      && forall i :: 0 <= i < |t.owned| ==> !t.owned[i]
  {
    SessionConserves(s, calls);
    DeallocateReturnsAll(DisplayedAll(s, calls));
  }

  // ---------- allocation ----------

  /** The state right after a successful `allocate`. */
  predicate JustAllocated(s: State, min: nat)
    requires Shaped(s)
  {
    forall i :: 0 <= i < s.count ==> (s.owned[i] <==> i >= min)
  }

  /** What the world answers to `allocate`. */
  datatype World = World(
    minUndequeued: Option<nat>,   // None: the query fails
    countOk: bool,
    pool: set<nat>,               // the buffers the window makes for the new count
    geometryOk: bool,
    usageOk: bool,
    wants: seq<Option<nat>>,      // which buffer each dequeue would give
    ionOk: seq<bool>)             // whether the n-th buffer can be imported

  datatype Outcome =
    | Allocated
    | SetupFailed
    | OutOfTable               // a buffer would be stored behind the end of the table
    | DequeueFailed(at: nat)
    | ImportFailed(at: nat)

  /** The first n dequeues give distinct buffers of the pool. */
  predicate Granted(w: World, n: nat)
    requires n <= |w.wants|
  {
    && (forall i :: 0 <= i < n ==> w.wants[i].Some? && w.wants[i].value in w.pool)
    && (forall i, j :: 0 <= i < j < n ==> w.wants[i] != w.wants[j])
  }

  predicate Imported(w: World, n: nat)
    requires n <= |w.ionOk|
  {
    forall i :: 0 <= i < n ==> w.ionOk[i]
  }

  function Values(q: seq<Option<nat>>): set<nat> { set x | x in q && x.Some? :: x.value }

  lemma ValuesAppend(q: seq<Option<nat>>, h: nat)
    ensures Values(q + [Some(h)]) == Values(q) + {h}
  {
    assert forall x :: x in q + [Some(h)] <==> x in q || x == Some(h);
  }

  /** Taking as many distinct buffers as the pool has takes all of them. */
  lemma {:induction false} TakesAll(q: seq<Option<nat>>, pool: set<nat>)
    requires forall i :: 0 <= i < |q| ==> q[i].Some? && q[i].value in pool
    requires forall i, j :: 0 <= i < j < |q| ==> q[i] != q[j]
    requires |q| == |pool|
    ensures Values(q) == pool
  {
    if q != [] {
      var k := |q| - 1;
      var h := q[k].value;
      TakesAll(q[..k], pool - {h});
      assert q == q[..k] + [Some(h)];
      ValuesAppend(q[..k], h);
    }
  }

  class Window {
    var pool: set<nat>
    var held: set<nat>
    var misused: nat

    constructor ()
      ensures pool == held == {} && misused == 0
    {
      pool, held, misused := {}, {}, 0;
    }

    method SetBufferCount(ok: bool, made: set<nat>)
      modifies this
      ensures misused == old(misused)
      ensures if ok then pool == held == made else pool == old(pool) && held == old(held)
    {
      if ok { pool, held := made, made; }
    }

    method TakeBack(h: Option<nat>)
      modifies this
      ensures pool == old(pool)
      ensures if h.Some? && h.value in pool && h.value !in old(held)
              then held == old(held) + {h.value} && misused == old(misused)
              else held == old(held) && misused == old(misused) + 1
    {
      if h.Some? && h.value in pool && h.value !in held {
        held := held + {h.value};
      } else {
        misused := misused + 1;
      }
    }

    method DequeueBuffer(want: Option<nat>) returns (h: Option<nat>)
      modifies this`held
      ensures h == Gives(old(held), want)
      ensures held == old(held) - if h.Some? then {h.value} else {}
    {
      h := Gives(held, want);
      if h.Some? { held := held - {h.value}; }
    }
  }

  class QCameraGrallocMemory {
    const mWindow: Window
    const mBufferHandle: array<Option<nat>>
    const mLocalFlag: array<bool>          // true: owned
    var mBufferCount: nat
    var mMinUndequeuedBuffers: nat

    ghost predicate Valid()
      reads this
    {
      && mBufferHandle.Length == mLocalFlag.Length == MAX_NUM_FRAMES && mBufferCount <= MAX_NUM_FRAMES
    }

    ghost function Abs(): State
      reads this, mWindow, mBufferHandle, mLocalFlag
    {
      State(mBufferHandle[..], mLocalFlag[..], mBufferCount, mWindow.pool, mWindow.held, mWindow.misused)
    }

    constructor (window: Window)
      ensures Valid() && mWindow == window && mBufferCount == 0
      ensures forall i :: 0 <= i < MAX_NUM_FRAMES ==> mBufferHandle[i] == None && !mLocalFlag[i]
      ensures fresh(mBufferHandle) && fresh(mLocalFlag)
    {
      mWindow := window;
      mBufferHandle := new Option<nat>[MAX_NUM_FRAMES](i => None);
      mLocalFlag := new bool[MAX_NUM_FRAMES](i => false);
      mBufferCount, mMinUndequeuedBuffers := 0, 0;
    }

    method DisplayBuffer(index: nat, ok: bool, want: Option<nat>) returns (r: int)
      requires Valid() && index < MAX_NUM_FRAMES
      modifies mWindow, mLocalFlag
      ensures Valid() && (Abs(), r) == Displayed(old(Abs()), index, ok, want)
      ensures !old(mLocalFlag[index]) ==> r == -38 && Abs() == old(Abs())
    {
      r := BAD_INDEX;
      if !mLocalFlag[index] { return INVALID_OPERATION; }
      if ok {
        mWindow.TakeBack(mBufferHandle[index]);
        mLocalFlag[index] := false;
      }
      ghost var s := Abs();
      assert s == Enqueued(old(Abs()), index, ok);
      var h := mWindow.DequeueBuffer(want);
      if h.Some? {
        var i := FindHandle(h.value);
        if i < mBufferCount {
          mLocalFlag[i] := true;
          r := i;
        }
      }
      assert Abs() == Dequeued(s, want).0;
    }

    /** The index of a handle, or the number of buffers. */
    method FindHandle(h: nat) returns (i: nat)
      requires Valid()
      ensures i == Find(mBufferHandle[..mBufferCount], h) <= mBufferCount
    {
      FindIsFirst(mBufferHandle[..mBufferCount], h);
      i := 0;
      while i < mBufferCount
        invariant i <= Find(mBufferHandle[..mBufferCount], h) <= mBufferCount
      {
        assert mBufferHandle[..mBufferCount][i] == mBufferHandle[i];
        if mBufferHandle[i] == Some(h) { return; }
        i := i + 1;
      }
    }

    method Deallocate()
      requires Valid()
      modifies this`mBufferCount, mWindow, mLocalFlag
      ensures Valid() && Abs() == Deallocated(old(Abs()))
      ensures mBufferCount == 0
      ensures old(Conserved(Abs())) ==>
        && mWindow.held == mWindow.pool == old(mWindow.pool) && mWindow.misused == old(mWindow.misused)
        && forall i :: 0 <= i < MAX_NUM_FRAMES ==> !mLocalFlag[i]
    {
      if Conserved(Abs()) { DeallocateReturnsAll(Abs()); }
      ghost var s := Abs();
      var cnt := 0;
      while cnt < mBufferCount
        invariant cnt <= mBufferCount && Valid() && Abs() == ReturnedUpTo(s, cnt)
      {
        if mLocalFlag[cnt] {
          mWindow.TakeBack(mBufferHandle[cnt]);
        }
        mLocalFlag[cnt] := false;
        assert Abs() == Returned(ReturnedUpTo(s, cnt), cnt);
        cnt := cnt + 1;
      }
      mBufferCount := 0;
    }

    /** The initial registration flags: 0 for the buffers left with the window, 1 for the others. */
    method GetRegFlags(regFlags: array<int>)
      requires Valid() && regFlags.Length >= mBufferCount && regFlags.Length >= mMinUndequeuedBuffers
      modifies regFlags
      ensures forall i :: 0 <= i < regFlags.Length ==>
        regFlags[i] == if i < mMinUndequeuedBuffers then 0
                       else if i < mBufferCount then 1 else old(regFlags[i])
      ensures JustAllocated(old(Abs()), mMinUndequeuedBuffers) ==>
        forall i :: 0 <= i < mBufferCount ==> (regFlags[i] == 1 <==> old(mLocalFlag[i]))
    {
      var i := 0;
      while i < mMinUndequeuedBuffers
        invariant 0 <= i <= mMinUndequeuedBuffers
        invariant forall j :: 0 <= j < regFlags.Length ==> regFlags[j] == if j < i then 0 else old(regFlags[j])
      {
        regFlags[i] := 0;
        i := i + 1;
      }
      while i < mBufferCount
        invariant mMinUndequeuedBuffers <= i && (i <= mBufferCount || i == mMinUndequeuedBuffers)
        invariant forall j :: 0 <= j < regFlags.Length ==>
          regFlags[j] == if j < mMinUndequeuedBuffers then 0 else if j < i then 1 else old(regFlags[j])
      {
        regFlags[i] := 1;
        i := i + 1;
      }
    }

    /** The first n dequeues have succeeded; `was` are the ownership flags before. */
    ghost predicate Taken(w: World, n: nat, was: seq<bool>)
      requires n <= MAX_NUM_FRAMES == |was| && n <= |w.wants| && n <= |w.ionOk|
      reads this, mWindow, mBufferHandle, mLocalFlag
    {
      && Valid()
      && Granted(w, n) && Imported(w, n)
      && mWindow.pool == w.pool && mWindow.held == w.pool - Values(w.wants[..n])
      && mBufferHandle[..n] == w.wants[..n]
      && forall i :: 0 <= i < MAX_NUM_FRAMES ==> (mLocalFlag[i] <==> i < n || was[i])
    }

    /** Gives the first n buffers back; `keep` says whether their handles stay in the table. */
    method CancelFirst(w: World, n: nat, keep: bool)
      requires Valid() && n <= MAX_NUM_FRAMES && n <= |w.wants| && Granted(w, n)
      requires mWindow.pool == w.pool && mWindow.held !! Values(w.wants[..n])
      requires mBufferHandle[..n] == w.wants[..n] && forall i :: 0 <= i < n ==> mLocalFlag[i]
      modifies mWindow, mBufferHandle, mLocalFlag
      ensures Valid() && mWindow.pool == w.pool && mWindow.misused == old(mWindow.misused)
      ensures mWindow.held == old(mWindow.held) + Values(w.wants[..n])
      ensures forall i :: 0 <= i < MAX_NUM_FRAMES ==> mLocalFlag[i] == (i >= n && old(mLocalFlag[i]))
      ensures forall i :: 0 <= i < MAX_NUM_FRAMES ==>
        mBufferHandle[i] == if i < n && !keep then None else old(mBufferHandle[i])
    {
      var i := 0;
      assert w.wants[..0] == [];
      while i < n
        invariant 0 <= i <= n && mWindow.pool == w.pool && mWindow.misused == old(mWindow.misused)
        invariant mWindow.held == old(mWindow.held) + Values(w.wants[..i])
        invariant forall j :: 0 <= j < MAX_NUM_FRAMES ==> mLocalFlag[j] == (j >= i && old(mLocalFlag[j]))
        invariant forall j :: 0 <= j < MAX_NUM_FRAMES ==>
          mBufferHandle[j] == if j < i && !keep then None else old(mBufferHandle[j])
      {
        assert old(mBufferHandle[..n])[i] == w.wants[i] == w.wants[..n][i];
        assert w.wants[..i + 1] == w.wants[..i] + [w.wants[i]];
        ValuesAppend(w.wants[..i], w.wants[i].value);
        if mLocalFlag[i] {
          mWindow.TakeBack(mBufferHandle[i]);
        }
        mLocalFlag[i] := false;
        if !keep { mBufferHandle[i] := None; }
        i := i + 1;
      }
    }

    /** `w` is what the window and the memory driver answer.  On success the first
        `mMinUndequeuedBuffers` buffers stay with the window and the HAL owns the others; a flag that
        an earlier import failure left set behind them stays set. */
    method Allocate(count: nat, w: World) returns (r: Outcome)
      requires Valid()
      requires w.minUndequeued.Some? ==>
        var n := count + w.minUndequeued.value;
        n == |w.pool| == |w.wants| == |w.ionOk|
      modifies this, mWindow, mBufferHandle, mLocalFlag
      ensures Valid() && mWindow.misused == old(mWindow.misused)
      ensures r.SetupFailed?
              <==> !(w.minUndequeued.Some? && w.countOk && w.geometryOk && w.usageOk)
      ensures r.SetupFailed? ==> mLocalFlag[..] == old(mLocalFlag[..])
      ensures if w.minUndequeued.Some? && w.countOk then mWindow.pool == w.pool
              else mWindow.pool == old(mWindow.pool) && mWindow.held == old(mWindow.held)
      ensures r.DequeueFailed? ==>
        && r.at < |w.wants| && r.at < MAX_NUM_FRAMES
        && Granted(w, r.at) && !Granted(w, r.at + 1) && Imported(w, r.at)
        && mWindow.held == w.pool
        && forall i :: 0 <= i < MAX_NUM_FRAMES ==> mLocalFlag[i] == (i > r.at && old(mLocalFlag[i]))
      ensures r.ImportFailed? ==>
        && r.at < |w.wants| && r.at < MAX_NUM_FRAMES
        && Granted(w, r.at + 1) && !w.ionOk[r.at] && Imported(w, r.at)
        && mWindow.held == w.pool - {w.wants[r.at].value}
        && forall i :: 0 <= i < MAX_NUM_FRAMES ==>
             mLocalFlag[i] == (i == r.at || (i > r.at && old(mLocalFlag[i])))
      ensures r.OutOfTable?
              <==> SetupOk(w) && |w.wants| > 24 && Granted(w, 24) && Imported(w, 24)
      ensures r.OutOfTable? ==> Taken(w, MAX_NUM_FRAMES, old(mLocalFlag[..]))
      ensures r.Allocated?
              <==> SetupOk(w) && |w.wants| <= 24 && Granted(w, |w.wants|) && Imported(w, |w.wants|)
      ensures r.Allocated? ==>
        && mMinUndequeuedBuffers == w.minUndequeued.value
        && mBufferCount == count + mMinUndequeuedBuffers
        && mBufferHandle[..mBufferCount] == w.wants
        && JustAllocated(Abs(), mMinUndequeuedBuffers)
        && (forall i :: mBufferCount <= i < MAX_NUM_FRAMES ==> mLocalFlag[i] == old(mLocalFlag[i]))
        && (Conserved(Abs()) <==> forall i :: mBufferCount <= i < MAX_NUM_FRAMES ==> !mLocalFlag[i])
      ensures !r.Allocated? ==> mBufferCount == old(mBufferCount)
    {
      hide Granted, Imported, Conserved, Values;
      if w.minUndequeued == None { return SetupFailed; }
      mMinUndequeuedBuffers := w.minUndequeued.value;
      var n := count + mMinUndequeuedBuffers;
      mWindow.SetBufferCount(w.countOk, w.pool);
      if !w.countOk || !w.geometryOk || !w.usageOk { return SetupFailed; }
      NothingTaken(w);
      r := DequeueAll(n, w);
      if r != Allocated { return; }
      mBufferCount := n;
      AllTaken(w, mMinUndequeuedBuffers);
      assert w.wants[..n] == w.wants && mBufferHandle[..n] == w.wants;
      assert mBufferHandle[..mMinUndequeuedBuffers] == w.wants[..mMinUndequeuedBuffers];
      assert mWindow.held == {};
      CancelFirst(w, mMinUndequeuedBuffers, true);
      assert mBufferHandle[..n] == w.wants;
      InitiallyConserved(Abs(), w, mMinUndequeuedBuffers);
    }

    method DequeueAll(n: nat, w: World) returns (r: Outcome)
      requires n == |w.wants| == |w.ionOk| && Valid() && Taken(w, 0, mLocalFlag[..])
      modifies mWindow, mBufferHandle, mLocalFlag
      ensures Valid() && mWindow.pool == w.pool && mWindow.misused == old(mWindow.misused)
      ensures !r.SetupFailed?
      ensures r.Allocated? <==> n <= MAX_NUM_FRAMES && Granted(w, n) && Imported(w, n)
      ensures r.Allocated? ==> Taken(w, n, old(mLocalFlag[..]))
      ensures r.OutOfTable?
              <==> n > MAX_NUM_FRAMES && Granted(w, MAX_NUM_FRAMES) && Imported(w, MAX_NUM_FRAMES)
      ensures r.OutOfTable? ==> Taken(w, MAX_NUM_FRAMES, old(mLocalFlag[..]))
      ensures r.DequeueFailed? ==>
        && r.at < n && r.at < MAX_NUM_FRAMES && Granted(w, r.at) && !Granted(w, r.at + 1) && Imported(w, r.at)
        && mWindow.held == w.pool
        && forall i :: 0 <= i < MAX_NUM_FRAMES ==> mLocalFlag[i] == (i > r.at && old(mLocalFlag[i]))
      ensures r.ImportFailed? ==>
        && r.at < n && r.at < MAX_NUM_FRAMES && Granted(w, r.at + 1) && !w.ionOk[r.at] && Imported(w, r.at)
        && mWindow.held == w.pool - {w.wants[r.at].value}
        && forall i :: 0 <= i < MAX_NUM_FRAMES ==>
             mLocalFlag[i] == (i == r.at || (i > r.at && old(mLocalFlag[i])))
    {
      hide Granted, Imported, Values;
      ghost var was := mLocalFlag[..];
      var cnt := 0;
      while cnt < n
        invariant 0 <= cnt <= n && cnt <= MAX_NUM_FRAMES && Taken(w, cnt, was) && mWindow.misused == old(mWindow.misused)
      {
        if cnt == MAX_NUM_FRAMES { return OutOfTable; }
        GrantsNext(w, cnt);
        var h := mWindow.DequeueBuffer(w.wants[cnt]);
        if h == None {
          mLocalFlag[cnt] := false;
          CancelFirst(w, cnt, false);
          NeverGranted(w, cnt + 1);
          return DequeueFailed(cnt);
        }
        mBufferHandle[cnt], mLocalFlag[cnt] := h, true;
        if !w.ionOk[cnt] {
          CancelFirst(w, cnt, false);
          NeverImported(w, cnt);
          return ImportFailed(cnt);
        }
        assert w.wants[..cnt + 1] == w.wants[..cnt] + [h];
        ImportsNext(w, cnt);
        cnt := cnt + 1;
      }
      return Allocated;
    }
  }

  /** Every request to the window before the first dequeue succeeds. */
  predicate SetupOk(w: World) { w.minUndequeued.Some? && w.countOk && w.geometryOk && w.usageOk }

  /** A window and a memory driver that answer every request for n buffers, whatever n is: with more
      than MAX_NUM_FRAMES of them the end of the table is reached. */
  lemma {:induction false} ManyBuffers(n: nat) returns (w: World)
    ensures SetupOk(w) && |w.pool| == |w.wants| == |w.ionOk| == n && Granted(w, n) && Imported(w, n)
    ensures forall h :: h in w.pool ==> h < n
  {
    if n == 0 {
      w := World(Some(0), true, {}, true, true, [], []);
    } else {
      var v := ManyBuffers(n - 1);
      w := v.(pool := v.pool + {n - 1}, wants := v.wants + [Some(n - 1)], ionOk := v.ionOk + [true]);
    }
  }

  lemma NeverGranted(w: World, k: nat)
    requires k <= |w.wants| && !Granted(w, k)
    ensures forall n :: k <= n <= |w.wants| ==> !Granted(w, n)
  {
  }

  lemma NeverImported(w: World, k: nat)
    requires k < |w.ionOk| && !w.ionOk[k]
    ensures forall n :: k < n <= |w.ionOk| ==> !Imported(w, n)
  {
  }

  /** The next dequeue succeeds exactly if it names a buffer not given before. */
  lemma GrantsNext(w: World, n: nat)
    requires n < |w.wants| && Granted(w, n)
    ensures Values(w.wants[..n]) <= w.pool
    ensures Granted(w, n + 1) <==> Gives(w.pool - Values(w.wants[..n]), w.wants[n]).Some?
    ensures Granted(w, n + 1) ==> Values(w.wants[..n + 1]) == Values(w.wants[..n]) + {w.wants[n].value}
  {
    assert forall i :: 0 <= i < n ==> w.wants[..n][i] == w.wants[i];
    assert w.wants[..n + 1] == w.wants[..n] + [w.wants[n]];
    if Granted(w, n + 1) { ValuesAppend(w.wants[..n], w.wants[n].value); }
  }

  lemma ImportsNext(w: World, n: nat)
    requires n < |w.ionOk| && Imported(w, n) && w.ionOk[n]
    ensures Imported(w, n + 1)
  {
  }

  lemma NothingTaken(w: World)
    ensures Granted(w, 0) && Imported(w, 0) && Values(w.wants[..0]) == {}
  {
  }

  lemma AllTaken(w: World, min: nat)
    requires min <= |w.wants| == |w.pool| && Granted(w, |w.wants|)
    ensures Values(w.wants[..|w.wants|]) == w.pool && Granted(w, min)
  {
    assert w.wants[..|w.wants|] == w.wants;
    TakesAll(w.wants, w.pool);
  }

  lemma InitiallyConserved(s: State, w: World, min: nat)
    requires Shaped(s) && s.count == |w.wants| == |w.pool| && min <= s.count && Granted(w, s.count)
    requires s.handles[..s.count] == w.wants && s.pool == w.pool && s.held == Values(w.wants[..min])
    requires forall i :: 0 <= i < s.count ==> (s.owned[i] <==> min <= i)
    ensures Conserved(s) <==> forall i :: s.count <= i < |s.owned| ==> !s.owned[i]
  {
    TakesAll(w.wants, w.pool);
    assert forall i :: 0 <= i < s.count ==> s.handles[..s.count][i] == s.handles[i];
    assert forall i :: 0 <= i < min ==> w.wants[..min][i] == w.wants[i];
  }
}
