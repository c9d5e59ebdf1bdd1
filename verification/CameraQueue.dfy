/** The locked queue that every camera worker thread is built on. */
module CameraQueue {
  import opened Wrappers

  /** The items that a predicate keeps, in order. */
  function Filter<T>(q: seq<T>, keep: T -> bool): seq<T> {
    if q == [] then []
    else if keep(q[0]) then [q[0]] + Filter(q[1..], keep) else Filter(q[1..], keep)
  }

  function Not<T>(p: T -> bool): T -> bool { x => !p(x) }

  lemma {:induction false} FilterAppend<T>(q: seq<T>, x: T, keep: T -> bool)
    ensures Filter(q + [x], keep) == Filter(q, keep) + if keep(x) then [x] else []
  {
    if q == [] {
      assert q + [x] == [x] && [x][1..] == [];
    } else {
      assert (q + [x])[1..] == q[1..] + [x];
      FilterAppend(q[1..], x, keep);
    }
  }

  lemma FilterNothing<T>(keep: T -> bool)
    ensures Filter([], keep) == []
  {
  }

  lemma NotHolds<T>(p: T -> bool, x: T)
    ensures Not(p)(x) == !p(x)
  {
  }

  /** Splitting a queue by a predicate loses and duplicates nothing. */
  lemma {:induction false} FilterPartitions<T>(q: seq<T>, keep: T -> bool)
    ensures multiset(Filter(q, keep)) + multiset(Filter(q, Not(keep))) == multiset(q)
  {
    if q != [] {
      FilterPartitions(q[1..], keep);
      assert q == [q[0]] + q[1..];
    }
  }

  class Queue<T> {
    var items: seq<T>
    var size: int

    ghost predicate Valid()
      reads this
    {
      size == |items|
    }

    constructor ()
      ensures Valid() && items == []
    {
      items, size := [], 0;
    }

    method IsEmpty() returns (flag: bool)
      requires Valid()
      ensures flag <==> items == []
    {
      flag := true;
      if size > 0 { flag := false; }
    }

    method Enqueue(x: T)
      requires Valid()
      modifies this
      ensures Valid() && items == old(items) + [x]
    {
      items := items + [x];
      size := size + 1;
    }

    method EnqueueWithPriority(x: T)
      requires Valid()
      modifies this
      ensures Valid() && items == [x] + old(items)
    {
      items := [x] + items;
      size := size + 1;
    }

    method Dequeue(fromHead: bool := true) returns (r: Option<T>)
      requires Valid()
      modifies this
      ensures Valid()
      ensures old(items) == [] ==> r == None && items == []
      ensures old(items) != [] ==> |items| == |old(items)| - 1
      ensures old(items) != [] && fromHead ==> r == Some(old(items)[0]) && items == old(items)[1..]
      ensures old(items) != [] && !fromHead
              ==> r == Some(old(items)[|items|]) && items == old(items)[..|items|]
    {
      r := None;
      if items != [] {
        if fromHead {
          r, items := Some(items[0]), items[1..];
        } else {
          r, items := Some(items[|items| - 1]), items[..|items| - 1];
        }
        size := size - 1;
      }
    }

    /** Empties the queue; `handed` are the items given to the release callback, in order. */
    method Flush() returns (handed: seq<T>)
      requires Valid()
      modifies this
      ensures Valid() && items == [] && handed == old(items)
    {
      handed := [];
      while items != []
        invariant Valid() && handed + items == old(items)
        decreases |items|
      {
        handed, items, size := handed + [items[0]], items[1..], size - 1;
      }
      size := 0;
    }

    /** Removes the matching items, handing them to the release callback, and keeps the rest. */
    method FlushNodes(matches: T -> bool) returns (handed: seq<T>)
      requires Valid()
      modifies this
      ensures Valid()
      ensures items == Filter(old(items), Not(matches))
      ensures handed == Filter(old(items), matches)
    {
      hide Filter, Not;
      handed := [];
      ghost var was, keep := items, Not(matches);
      FilterNothing(keep);
      FilterNothing(matches);
      assert was[..0] == [] && items[..0] == [];
      var pos := 0;
      ghost var seen := 0;
      while pos < |items|
        invariant Valid() && 0 <= pos <= |items| && 0 <= seen <= |was|
        invariant items[..pos] == Filter(was[..seen], keep) && items[pos..] == was[seen..]
        invariant handed == Filter(was[..seen], matches)
        decreases |was| - seen
      {
        var node := items[pos];
        assert was[..seen + 1] == was[..seen] + [node];
        FilterAppend(was[..seen], node, keep);
        FilterAppend(was[..seen], node, matches);
        NotHolds(matches, node);
        assert items[pos..][1..] == items[pos + 1..] && was[seen..][1..] == was[seen + 1..];
        if matches(node) {
          items, size := items[..pos] + items[pos + 1..], size - 1;
          handed := handed + [node];
        } else {
          pos := pos + 1;
        }
        seen := seen + 1;
      }
      assert was[..seen] == was && items[..pos] == items;
    }
  }
}
