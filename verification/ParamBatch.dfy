/**
 The parameter batch: a table of fixed slots with a list of the used slots threaded through it by
 index.  `first` and the `next` fields link the used ids in increasing order; PARM_MAX ends the list.
 */
module ParamBatch {
  import opened Bytes

  const PARM_MAX := 105         // fits the uint8_t link fields
  const PARM_HAL_VERSION := 0
  const CAM_HAL_V1 := 1

  type Id = i: nat | i < PARM_MAX

  /** Little-endian 32-bit encoding of an int32_t. */
  function Le32(v: int): (b: seq<Byte>)
    ensures |b| == 4
  {
    var u := v % 0x1_0000_0000;
    [u % 256, u / 256 % 256, u / 0x1_0000 % 256, u / 0x100_0000]
  }

  /** The four bytes have the weights 1, 2^8, 2^16 and 2^24. */
  lemma Le32Weights(v: int)
    ensures var b := Le32(v);
            (b[0] as int) + 0x100 * (b[1] as int) + 0x1_0000 * (b[2] as int) + 0x100_0000 * (b[3] as int) == v % 0x1_0000_0000
  {
    var u := v % 0x1_0000_0000;
    DivTwice(u, u / 256, u / 0x1_0000, u / 0x100_0000);
    assert u == 256 * (u / 256) + u % 256;
  }

  function FromLe32(b: seq<Byte>): int
    requires |b| == 4
  {
    var u := b[0] as int + 256 * (b[1] as int + 256 * (b[2] as int + 256 * b[3] as int));
    if u < 0x8000_0000 then u else u - 0x1_0000_0000
  }

  lemma Le32RoundTrip(v: int)
    requires -0x8000_0000 <= v < 0x8000_0000
    ensures FromLe32(Le32(v)) == v
  {
    var u := v % 0x1_0000_0000;
    var a, b, c := u / 256, u / 0x1_0000, u / 0x100_0000;
    assert a == 256 * b + a % 256 && b == 256 * c + b % 256 && u == 256 * a + u % 256 by {
      DivTwice(u, a, b, c);
    }
    assert u == if v < 0 then v + 0x1_0000_0000 else v;
  }

  lemma DivTwice(u: nat, a: nat, b: nat, c: nat)
    requires a == u / 256 && b == u / 0x1_0000 && c == u / 0x100_0000
    ensures a / 256 == b && b / 256 == c
  {
  }

  // ---------- what a batch means ----------

  /** The linked ids and the content of every slot. */
  datatype Batch = Batch(linked: set<Id>, slots: seq<seq<Byte>>)

  function Zeros(n: nat): seq<Byte> { seq(n, _ => 0) }

  function Empty(entrySize: nat): Batch {
    Batch({}, seq(PARM_MAX, _ => Zeros(entrySize)))
  }

  /** Copies the value over the front of the slot. */
  function Overlay(slot: seq<Byte>, value: seq<Byte>): seq<Byte>
    requires |value| <= |slot|
  {
    value + slot[|value|..]
  }

  /** One entry is added: its id is linked in any case, its value is copied if it fits. */
  function Add(b: Batch, id: Id, value: seq<Byte>): (r: Batch)
    requires |b.slots| == PARM_MAX
    ensures |r.slots| == PARM_MAX
    ensures forall i :: 0 <= i < PARM_MAX ==> |r.slots[i]| == |b.slots[i]|
  {
    var slots := if |value| > |b.slots[id]| then b.slots
                 else b.slots[id := Overlay(b.slots[id], value)];
    Batch(b.linked + {id}, slots)
  }

  datatype Entry = Entry(id: Id, value: seq<Byte>)

  function AddAll(b: Batch, es: seq<Entry>): (r: Batch)
    requires |b.slots| == PARM_MAX
    ensures |r.slots| == PARM_MAX
    ensures forall i :: 0 <= i < PARM_MAX ==> |r.slots[i]| == |b.slots[i]|
    decreases |es|
  {
    if es == [] then b else AddAll(Add(b, es[0].id, es[0].value), es[1..])
  }

  /** A fresh batch, which always carries the HAL version. */
  function Init(entrySize: nat): (r: Batch)
    ensures |r.slots| == PARM_MAX
  {
    Add(Empty(entrySize), PARM_HAL_VERSION, Le32(CAM_HAL_V1))
  }

  function Ids(es: seq<Entry>): set<Id> { set i | 0 <= i < |es| :: es[i].id }

  // ---------- the threaded list ----------

  /** n is the least linked id above i, or the end of the list. */
  ghost predicate IsNext(linked: set<Id>, i: int, n: int) {
    && (n == PARM_MAX || n in linked)
    && i < n
    && forall x :: x in linked && i < x ==> n <= x
  }

  ghost predicate Threaded(first: int, next: seq<int>, linked: set<Id>) {
    && |next| == PARM_MAX
    && IsNext(linked, -1, first)
    && forall i :: i in linked ==> IsNext(linked, i, next[i])
  }

  /** The ids met by following the links from an id to the end of the list. */
  function Walk(from: int, next: seq<int>): seq<int>
    decreases PARM_MAX - from
  {
    if !(0 <= from < PARM_MAX && from < |next|) then []
    else if next[from] <= from then [from]
    else [from] + Walk(next[from], next)
  }

  predicate Increasing(s: seq<int>) { forall i, j :: 0 <= i < j < |s| ==> s[i] < s[j] }

  lemma {:induction false} WalkFrom(from: int, next: seq<int>, linked: set<Id>, below: int)
    requires |next| == PARM_MAX && (forall i :: i in linked ==> IsNext(linked, i, next[i]))
    requires IsNext(linked, below, from) && -1 <= below
    ensures Increasing(Walk(from, next))
    ensures forall x :: x in Walk(from, next) <==> x in linked && below < x
    decreases PARM_MAX - from
  {
    if from < PARM_MAX {
      WalkFrom(next[from], next, linked, from);
      InFront(from, Walk(next[from], next));
    }
  }

  lemma InFront(x: int, s: seq<int>)
    requires Increasing(s) && forall y :: y in s ==> x < y
    ensures Increasing([x] + s) && forall y :: y in [x] + s <==> y == x || y in s
  {
    forall j | 0 < j < |[x] + s| ensures x < ([x] + s)[j] {
      assert ([x] + s)[j] == s[j - 1] && s[j - 1] in s;
    }
  }

  /** Walking the links visits exactly the linked ids, in increasing order. */
  lemma WalkVisitsLinked(first: int, next: seq<int>, linked: set<Id>)
    requires Threaded(first, next, linked)
    ensures Increasing(Walk(first, next))
    ensures forall x :: x in Walk(first, next) <==> x in linked
  {
    WalkFrom(first, next, linked, -1);
  }

  /** A set of ids has only one increasing enumeration ... */
  lemma {:induction false} IncreasingUnique(s: seq<int>, t: seq<int>)
    requires Increasing(s) && Increasing(t) && forall x :: x in s <==> x in t
    ensures s == t
  {
    assert s != [] ==> s[0] in s;
    assert t != [] ==> t[0] in t;
    if s != [] && t != [] {
      assert s[0] in t && t[0] in s;
      assert s[0] == t[0];
      forall x ensures x in s[1..] <==> x in t[1..] {
        assert x in s[1..] <==> x in s && x != s[0] by {
          if x in s && x != s[0] { var i :| 0 <= i < |s| && s[i] == x; assert s[1..][i - 1] == x; }
        }
        assert x in t[1..] <==> x in t && x != t[0] by {
          if x in t && x != t[0] { var i :| 0 <= i < |t| && t[i] == x; assert t[1..][i - 1] == x; }
        }
      }
      IncreasingUnique(s[1..], t[1..]);
      assert s == [s[0]] + s[1..] && t == [t[0]] + t[1..];
    }
  }

  /** ... so the visited list depends on which ids were added and not on their order. */
  lemma OrderIndependent(first: int, next: seq<int>, first': int, next': seq<int>,
                         es: seq<Entry>, es': seq<Entry>, entrySize: nat)
    requires Threaded(first, next, AddAll(Init(entrySize), es).linked)
    requires Threaded(first', next', AddAll(Init(entrySize), es').linked)
    requires Ids(es) == Ids(es')
    ensures Walk(first, next) == Walk(first', next')
  {
    AddedIds(Init(entrySize), es);
    AddedIds(Init(entrySize), es');
    WalkVisitsLinked(first, next, AddAll(Init(entrySize), es).linked);
    WalkVisitsLinked(first', next', AddAll(Init(entrySize), es').linked);
    IncreasingUnique(Walk(first, next), Walk(first', next'));
  }

  /** After any adds, exactly the added ids are linked besides those linked before. */
  lemma {:induction false} AddedIds(b: Batch, es: seq<Entry>)
    requires |b.slots| == PARM_MAX
    ensures AddAll(b, es).linked == b.linked + Ids(es)
    decreases |es|
  {
    if es != [] {
      AddedIds(Add(b, es[0].id, es[0].value), es[1..]);
      assert Ids(es) == {es[0].id} + Ids(es[1..]) by {
        forall x | x in Ids(es) ensures x in {es[0].id} + Ids(es[1..]) {
          var i :| 0 <= i < |es| && es[i].id == x;
          if i > 0 { assert es[1..][i - 1].id == x; }
        }
        forall x | x in Ids(es[1..]) ensures x in Ids(es) {
          var i :| 0 <= i < |es[1..]| && es[1..][i].id == x;
          assert es[i + 1].id == x;
        }
      }
    }
  }

  /** A slot that no fitting entry addresses keeps its content. */
  lemma {:induction false} UntouchedSlot(b: Batch, es: seq<Entry>, id: Id)
    requires |b.slots| == PARM_MAX
    requires forall e :: e in es && e.id == id ==> |e.value| > |b.slots[id]|
    ensures AddAll(b, es).slots[id] == b.slots[id]
    decreases |es|
  {
    if es != [] {
      assert es[0] in es;
      UntouchedSlot(Add(b, es[0].id, es[0].value), es[1..], id);
    }
  }

  /** The last entry that fits its slot is what the slot starts with in the end. */
  lemma {:induction false} LastWriteWins(b: Batch, before: seq<Entry>, e: Entry, after: seq<Entry>)
    requires |b.slots| == PARM_MAX && |e.value| <= |b.slots[e.id]|
    requires forall x :: x in after && x.id == e.id ==> |x.value| > |b.slots[e.id]|
    ensures AddAll(b, before + [e] + after).slots[e.id][..|e.value|] == e.value
    decreases |before|
  {
    var es := before + [e] + after;
    if before == [] {
      assert es[0] == e && es[1..] == after;
      UntouchedSlot(Add(b, e.id, e.value), after, e.id);
    } else {
      assert es[0] == before[0] && es[1..] == before[1..] + [e] + after;
      LastWriteWins(Add(b, before[0].id, before[0].value), before[1..], e, after);
    }
  }

  // ---------- the table ----------

  class ParmBuffer {
    const entrySize: nat        // sizeof(parm_type_t)
    var first: int
    const next: array<int>
    const data: array<seq<Byte>>
    ghost var linked: set<Id>

    ghost predicate Valid()
      reads this, next, data
    {
      && next.Length == PARM_MAX && data.Length == PARM_MAX && entrySize >= 4
      && (forall i :: 0 <= i < PARM_MAX ==> |data[i]| == entrySize)
      && Threaded(first, next[..], linked)
    }

    ghost function Abs(): (b: Batch)
      requires Valid()
      reads this, next, data
      ensures |b.slots| == PARM_MAX
    {
      Batch(linked, data[..])
    }

    constructor (entrySize: nat)
      requires entrySize >= 4
      ensures Valid() && Abs() == Init(entrySize) && this.entrySize == entrySize
      ensures fresh(next) && fresh(data)
    {
      this.entrySize := entrySize;
      next := new int[PARM_MAX](_ => 0);
      data := new seq<Byte>[PARM_MAX](_ => Zeros(entrySize));
      first := PARM_MAX;
      linked := {};
      new;
      InitBatchUpdate();
    }

    /** Clears the table and links the HAL version. */
    method InitBatchUpdate()
      requires next.Length == PARM_MAX && data.Length == PARM_MAX && entrySize >= 4
      modifies this, next, data
      ensures Valid() && Abs() == Init(entrySize)
      ensures linked == {0} && first == 0 && data[0][..4] == [1, 0, 0, 0] && next.Length == data.Length == 105
      ensures forall i, k :: 0 <= i < data.Length && (if i == 0 then 4 else 0) <= k < entrySize ==> data[i][k] == 0
    {
      forall i | 0 <= i < PARM_MAX { next[i] := 0; }
      forall i | 0 <= i < PARM_MAX { data[i] := Zeros(entrySize); }
      first := PARM_MAX;
      linked := {};
      assert Abs() == Empty(entrySize);
      var _ := AddSetParmEntryToBatch(PARM_HAL_VERSION, Le32(CAM_HAL_V1));
    }

    /** The search and relinking half of adding an entry. */
    method Link(position: Id)
      requires Valid()
      modifies this, next
      ensures Valid() && linked == old(linked) + {position}
    {
      var current := first;
      if position == current {
      } else if position < current {
        next[position] := current;
        first := position;
      } else {
        while position > next[current]
          invariant current in linked && current < position
          decreases PARM_MAX - current
        {
          current := next[current];
        }
        if position != next[current] {
          var after := next[current];
          next[current] := position;
          next[position] := after;
        }
      }
      linked := linked + {position};
    }

    /** Links the id at its place in the list and copies the value into the slot if it fits. */
    method AddSetParmEntryToBatch(position: Id, value: seq<Byte>) returns (ok: bool)
      requires Valid()
      modifies this, next, data
      ensures Valid()
      ensures ok <==> |value| <= entrySize
      ensures Abs() == Add(old(Abs()), position, value)
      ensures forall x :: x in Walk(first, next[..]) <==> x in old(linked) || x == position
      ensures linked == old(linked) + {position}
      ensures data[position] == if |value| <= entrySize then value + old(data[position])[|value|..]
                                else old(data[position])
      ensures forall i :: 0 <= i < data.Length && i != position ==> data[i] == old(data[i])
    {
      Link(position);
      WalkVisitsLinked(first, next[..], linked);
      if |value| > entrySize {
        return false;
      }
      data[position] := Overlay(data[position], value);
      return true;
    }
  }
}
