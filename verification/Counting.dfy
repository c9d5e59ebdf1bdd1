/** Counting occurrences in sequences of identifiers. */
module Counting {

  function One(b: bool): nat { if b then 1 else 0 }

  function Count(q: seq<nat>, f: nat): nat {
    if q == [] then 0 else One(q[0] == f) + Count(q[1..], f)
  }

  lemma {:induction false} CountConcat(a: seq<nat>, b: seq<nat>, f: nat)
    ensures Count(a + b, f) == Count(a, f) + Count(b, f)
  {
    if a == [] {
      assert a + b == b;
    } else {
      assert (a + b)[1..] == a[1..] + b;
      CountConcat(a[1..], b, f);
    }
  }

  lemma CountNone(f: nat)
    ensures Count([], f) == 0
  {
  }

  lemma CountOne(g: nat, f: nat)
    ensures Count([g], f) == One(g == f)
  {
    assert [g][1..] == [];
  }

  lemma CountAppend(q: seq<nat>, g: nat, f: nat)
    ensures Count(q + [g], f) == Count(q, f) + One(g == f)
  {
    CountOne(g, f);
    CountConcat(q, [g], f);
  }

  lemma CountHead(q: seq<nat>, f: nat)
    requires q != []
    ensures Count(q, f) == One(q[0] == f) + Count(q[1..], f)
  {
  }
}
