/** A text file read line by line, as fgets does. */
module Stdio {
  import opened Wrappers

  /** The end of what one read takes from p on: at most k characters, up to a line end. */
  function LineEnd(s: string, p: nat, k: nat): (e: nat)
    requires p <= |s|
    ensures p <= e <= |s| && e <= p + k && (k > 0 && p < |s| ==> e > p)
    decreases k
  {
    if k == 0 || p == |s| then p else if s[p] == '\n' then p + 1 else LineEnd(s, p + 1, k - 1)
  }

  lemma {:induction false} LineEndAt(s: string, p: nat, k: nat, e: nat)
    requires p < e <= |s| && e - p <= k && s[e - 1] == '\n' && forall i :: p <= i < e - 1 ==> s[i] != '\n'
    ensures LineEnd(s, p, k) == e
    decreases k
  {
    if p < e - 1 { LineEndAt(s, p + 1, k - 1, e); }
  }

  lemma {:induction false} LineEndFull(s: string, p: nat, k: nat)
    requires p + k <= |s| && forall i :: p <= i < p + k ==> s[i] != '\n'
    ensures LineEnd(s, p, k) == p + k
    decreases k
  {
    if k > 0 { LineEndFull(s, p + 1, k - 1); }
  }

  class File {
    const text: string
    var pos: nat

    ghost predicate Valid()
      reads this
    {
      pos <= |text|
    }

    constructor (text: string)
      ensures Valid() && this.text == text && pos == 0
    {
      this.text, pos := text, 0;
    }

    /** Reads at most size - 1 characters, stopping after a line end; None at the end of the file. */
    method Fgets(size: nat) returns (line: Option<string>)
      requires Valid() && size >= 2
      modifies this
      ensures Valid()
      ensures old(pos) == |text| ==> line == None && pos == old(pos)
      ensures old(pos) < |text|
              ==> pos == LineEnd(text, old(pos), size - 1) && line == Some(text[old(pos)..pos])
      ensures old(pos) < |text|
              ==> old(pos) < pos <= |text| && pos - old(pos) <= size - 1
                  && (forall i :: old(pos) <= i < pos - 1 ==> text[i] != '\n')
                  && (pos - old(pos) < size - 1 ==> pos == |text| || text[pos - 1] == '\n')
    {
      if pos == |text| { return None; }
      var start := pos;
      ghost var limit := size - 1;
      var left := size - 1;
      while left > 0 && pos < |text|
        invariant start <= pos <= |text|
        invariant LineEnd(text, start, limit) == LineEnd(text, pos, left)
        invariant pos - start + left == limit && forall i :: start <= i < pos ==> text[i] != '\n'
        decreases left
      {
        pos, left := pos + 1, left - 1;
        if text[pos - 1] == '\n' {
          return Some(text[start..pos]);
        }
      }
      return Some(text[start..pos]);
    }
  }
}
