/** Focus and metering areas: their text form, their validity and their mapping to the preview. */
module CameraAreas {
  import opened Wrappers
  import opened CText

  datatype Area = Area(left: int, top: int, width: int, height: int, weight: int)

  const AREA_STR_SIZE := 32

  // ---------- printing ----------

  function Separator(spaced: bool): string { if spaced then ", " else "," }

  /** "(left,top,right,bottom,weight)", with a blank after each comma if spaced. */
  function PrintArea(a: Area, spaced: bool): string {
    "(" + PrintNums([a.left, a.top, a.left + a.width, a.top + a.height, a.weight], spaced) + ")"
  }

  function PrintNums(v: seq<int>, spaced: bool): string {
    if v == [] then ""
    else if |v| == 1 then PrintInt(v[0])
    else PrintInt(v[0]) + Separator(spaced) + PrintNums(v[1..], spaced)
  }

  function PrintAreas(v: seq<Area>, spaced: bool): string {
    if v == [] then ""
    else if |v| == 1 then PrintArea(v[0], spaced)
    else PrintArea(v[0], spaced) + "," + PrintAreas(v[1..], spaced)
  }

  // ---------- parsing ----------

  /** n numbers from pos on, each but the last followed by a comma. */
  function Nums(s: string, pos: nat, n: nat): (r: Option<seq<int>>)
    ensures r.Some? ==> |r.value| == n
    decreases n
  {
    if n == 0 then Some([])
    else
      var (x, end) := Strtol(s, pos, 10);
      if CharAt(s, end) != ',' && n > 1 then None
      else
        var rest := Nums(s, end + 1, n - 1);
        if rest.None? then None else Some([x] + rest.value)
  }

  lemma NumsExact(s: string, n: nat)
    ensures Nums(s, 1, n).Some? ==> exists ends :: NumbersAt(s, 1, Nums(s, 1, n).value, ends)
    ensures Nums(s, 1, n).None? ==> forall v, ends :: |v| == n ==> !NumbersAt(s, 1, v, ends)
  {
    hide Nums, NumbersAt;
    if Nums(s, 1, n).Some? {
      NumsFound(s, 1, n);
    } else {
      forall v, ends | |v| == n && NumbersAt(s, 1, v, ends) ensures false { NumsComplete(s, 1, v, ends); }
    }
  }

  /** "(n1, n2, ...)" */
  function NDim(s: string, n: nat): (r: Option<seq<int>>)
    ensures r.Some? ==> |r.value| == n
  {
    if s == "" || s[0] != '(' || s[|s| - 1] != ')' then None else Nums(s, 1, n)
  }

  /** Number i is what strtol reads at pos, or behind the comma that follows number i - 1; it ends at
      ends[i]. */
  ghost predicate NumberAt(s: string, pos: nat, v: seq<int>, ends: seq<nat>, i: nat)
    requires i < |v| == |ends|
  {
    && Strtol(s, if i == 0 then pos else ends[i - 1] + 1, 10) == (v[i], ends[i])
    && (i + 1 < |v| ==> CharAt(s, ends[i]) == ',')
  }

  ghost predicate NumbersAt(s: string, pos: nat, v: seq<int>, ends: seq<nat>) {
    |ends| == |v| && forall i :: 0 <= i < |v| ==> NumberAt(s, pos, v, ends, i)
  }

  lemma NumbersBehind(s: string, pos: nat, v: seq<int>, ends: seq<nat>)
    requires v != [] && |ends| == |v|
    ensures NumbersAt(s, pos, v, ends)
            <==> NumberAt(s, pos, v, ends, 0) && NumbersAt(s, ends[0] + 1, v[1..], ends[1..])
  {
    hide Strtol;
    var next, v', ends' := ends[0] + 1, v[1..], ends[1..];
    forall i | 0 <= i < |v'| ensures NumberAt(s, next, v', ends', i) == NumberAt(s, pos, v, ends, i + 1) {
      if i > 0 { assert ends'[i - 1] == ends[i]; }
    }
    if NumberAt(s, pos, v, ends, 0) && NumbersAt(s, next, v', ends') {
      forall i | 0 < i < |v| ensures NumberAt(s, pos, v, ends, i) {
        assert NumberAt(s, next, v', ends', i - 1);
      }
    }
  }

  /** What Nums finds are n numbers at their places. */
  lemma {:induction false} NumsFound(s: string, pos: nat, n: nat)
    requires Nums(s, pos, n).Some?
    ensures exists ends :: NumbersAt(s, pos, Nums(s, pos, n).value, ends)
    decreases n
  {
    hide Strtol;
    var v := Nums(s, pos, n).value;
    if n == 0 {
      assert NumbersAt(s, pos, v, []);
    } else {
      var end := Strtol(s, pos, 10).1;
      NumsFound(s, end + 1, n - 1);
      var rest :| NumbersAt(s, end + 1, v[1..], rest);
      NumbersBehind(s, pos, v, [end] + rest);
      assert ([end] + rest)[1..] == rest;
      assert NumberAt(s, pos, v, [end] + rest, 0);
    }
  }

  /** n numbers at their places are what Nums finds. */
  lemma {:induction false} NumsComplete(s: string, pos: nat, v: seq<int>, ends: seq<nat>)
    requires NumbersAt(s, pos, v, ends)
    ensures Nums(s, pos, |v|) == Some(v)
    decreases |v|
  {
    hide Strtol;
    if v != [] {
      NumbersBehind(s, pos, v, ends);
      assert NumberAt(s, pos, v, ends, 0);
      NumsComplete(s, ends[0] + 1, v[1..], ends[1..]);
      assert [v[0]] + v[1..] == v;
    }
  }

  function Following(before: seq<int>, rest: Option<seq<int>>): Option<seq<int>> {
    if rest.Some? then Some(before + rest.value) else None
  }

  method ParseNDimVector(s: string, num: array<int>) returns (ok: bool)
    modifies num
    ensures ok <==> NDim(s, num.Length).Some?
    ensures ok ==> num[..] == NDim(s, num.Length).value
    ensures ok ==> s[0] == '(' && s[|s| - 1] == ')' && exists ends :: NumbersAt(s, 1, num[..], ends)
    ensures !ok && s != "" && s[0] == '(' && s[|s| - 1] == ')'
            ==> forall v, ends :: |v| == num.Length ==> !NumbersAt(s, 1, v, ends)
  {
    hide Strtol, Nums, Following, NumbersAt;
    NumsExact(s, num.Length);
    if CharAt(s, 0) != '(' || s[|s| - 1] != ')' { return false; }
    var start, i := 1, 0;
    ghost var all := Nums(s, 1, num.Length);
    assert num[..0] == [];
    FollowingNothing(all);
    while i < num.Length
      invariant 0 <= i <= num.Length
      invariant all == Following(num[..i], Nums(s, start, num.Length - i))
    {
      var (x, end) := Strtol(s, start, 10);
      ghost var before := num[..i];
      NumsStep(s, start, num.Length - i);
      num[i] := x;
      if CharAt(s, end) != ',' && i < num.Length - 1 {
        FollowingNone(before);
        return false;
      }
      assert num[..i + 1] == before + [x];
      FollowingTwice(before, [x], Nums(s, end + 1, num.Length - i - 1));
      start := end + 1;
      i := i + 1;
    }
    assert num[..i] == num[..];
    NumsEnd(s, start, num[..]);
    return true;
  }

  lemma FollowingNothing(rest: Option<seq<int>>)
    ensures Following([], rest) == rest
  {
    if rest.Some? { assert [] + rest.value == rest.value; }
  }

  lemma FollowingNone(before: seq<int>)
    ensures Following(before, None) == None
  {
  }

  lemma FollowingTwice(a: seq<int>, b: seq<int>, rest: Option<seq<int>>)
    ensures Following(a, Following(b, rest)) == Following(a + b, rest)
  {
    if rest.Some? { assert a + (b + rest.value) == a + b + rest.value; }
  }

  lemma NumsStep(s: string, pos: nat, n: nat)
    requires n > 0
    ensures var (x, end) := Strtol(s, pos, 10);
            Nums(s, pos, n)
            == if CharAt(s, end) != ',' && n > 1 then None else Following([x], Nums(s, end + 1, n - 1))
  {
    hide Strtol;
  }

  lemma NumsEnd(s: string, pos: nat, v: seq<int>)
    ensures Following(v, Nums(s, pos, 0)) == Some(v)
  {
    assert v + [] == v;
  }

  /** Overflow: a parenthesised text does not fit the local buffer.  Wraps: a width or height does
      not fit the 32 bits it is computed in. */
  datatype Parsed = BadAreas | Overflow | Wraps | Areas(areas: seq<Area>)

  /** The width and height of the parsed numbers can be computed. */
  predicate DiffsFit(v: seq<int>)
    requires |v| == 5
  {
    Int32(v[2] - v[0]) && Int32(v[3] - v[1])
  }

  /** The first index from pos on that holds c. */
  function StrChr(s: string, pos: nat, c: char): (r: Option<nat>)
    ensures r.Some? ==> pos <= r.value < |s| && s[r.value] == c
    decreases |s| - pos
  {
    if pos >= |s| then None else if s[pos] == c then Some(pos) else StrChr(s, pos + 1, c)
  }

  function FromNums(v: seq<int>): Area
    requires |v| == 5
  {
    Area(v[0], v[1], v[2] - v[0], v[3] - v[1], v[4])
  }

  /** The areas from pos on, at most max of them. */
  function ParseAreas(s: string, pos: nat, max: int): Parsed
    requires pos <= |s|
    decreases |s| - pos
  {
    if CharAt(s, pos) != '(' then BadAreas
    else
      var end := StrChr(s, pos, ')');
      if end == None then BadAreas
      else if end.value + 1 - pos >= AREA_STR_SIZE then Overflow
      else
        var v := NDim(s[pos..end.value + 1], 5);
        if v == None || max <= 0 then BadAreas
        else if !DiffsFit(v.value) then Wraps
        else
          var next := StrChr(s, end.value, '(');
          if next == None then Areas([FromNums(v.value)])
          else
            var rest := ParseAreas(s, next.value, max - 1);
            if rest.Areas? then Areas([FromNums(v.value)] + rest.areas) else rest
  }

  function After(before: seq<Area>, rest: Parsed): Parsed {
    if rest.Areas? then Areas(before + rest.areas) else rest
  }

  lemma AfterTwice(a: seq<Area>, b: seq<Area>, rest: Parsed)
    ensures After(a, After(b, rest)) == After(a + b, rest)
  {
    if rest.Areas? { assert a + (b + rest.areas) == a + b + rest.areas; }
  }

  lemma AfterNothing(rest: Parsed)
    ensures After([], rest) == rest
  {
    if rest.Areas? { assert [] + rest.areas == rest.areas; }
  }

  lemma AfterFails(before: seq<Area>)
    ensures After(before, BadAreas) == BadAreas && After(before, Overflow) == Overflow
    ensures After(before, Wraps) == Wraps
  {
  }

  lemma AfterLast(before: seq<Area>, a: Area)
    ensures After(before, Areas([a])) == Areas(before + [a])
  {
  }

  lemma {:induction false} AreasStep(s: string, pos: nat, max: int)
    requires pos <= |s|
    ensures var end := StrChr(s, pos, ')');
            ParseAreas(s, pos, max)
            == if CharAt(s, pos) != '(' || end == None then BadAreas
               else if end.value + 1 - pos >= AREA_STR_SIZE then Overflow
               else
                 var v := NDim(s[pos..end.value + 1], 5);
                 var next := StrChr(s, end.value, '(');
                 if v == None || max <= 0 then BadAreas
                 else if !DiffsFit(v.value) then Wraps
                 else if next == None then Areas([FromNums(v.value)])
                 else After([FromNums(v.value)], ParseAreas(s, next.value, max - 1))
  {
    hide NDim, StrChr;
  }

  method ParseCameraAreaString(s: string, max: int) returns (r: Parsed)
    ensures r == ParseAreas(s, 0, max)
  {
    hide Strtol, NDim, StrChr, ParseAreas, After;
    var pareas: seq<Area> := [];
    AfterNothing(ParseAreas(s, 0, max));
    var start, index := Some(0), 0;
    var values := new int[5];
    while start != None
      invariant start != None ==> start.value <= |s|
      invariant index == |pareas|
      invariant start != None
                ==> ParseAreas(s, 0, max) == After(pareas, ParseAreas(s, start.value, max - index))
      invariant start == None ==> ParseAreas(s, 0, max) == Areas(pareas)
      decreases if start == None then 0 else |s| - start.value + 1
    {
      AreasStep(s, start.value, max - index);
      AfterFails(pareas);
      if CharAt(s, start.value) != '(' { return BadAreas; }
      var end := StrChr(s, start.value, ')');
      if end == None { return BadAreas; }
      if end.value + 1 - start.value >= AREA_STR_SIZE { return Overflow; }
      var areaStr := s[start.value..end.value + 1];
      var ok := ParseNDimVector(areaStr, values);
      if !ok { return BadAreas; }
      if index >= max { return BadAreas; }
      if !Int32(values[2] - values[0]) || !Int32(values[3] - values[1]) { return Wraps; }
      var area := Area(values[0], values[1], values[2] - values[0], values[3] - values[1], values[4]);
      AfterLast(pareas, area);
      ghost var before := pareas;
      pareas := pareas + [area];
      index := index + 1;
      start := StrChr(s, end.value, '(');
      if start != None {
        AfterTwice(before, [area], ParseAreas(s, start.value, max - index));
      }
    }
    return Areas(pareas);
  }

  // ---------- round trip ----------

  /** From pos on: the numbers are read back, and a blank before them does not matter. */
  ghost predicate ReadsBack(s: string, pos: nat, v: seq<int>)
    requires pos <= |s|
  {
    && Nums(s, pos, |v|) == Some(v)
    && (pos > 0 && s[pos - 1] == ' ' ==> Nums(s, pos - 1, |v|) == Some(v))
  }

  lemma {:induction false} NumsPrinted(s: string, pos: nat, q: nat, v: seq<int>, spaced: bool)
    requires v != [] && pos <= q < |s| && s[pos..q] == PrintNums(v, spaced) && s[q] == ')'
    requires forall i :: 0 <= i < |v| ==> Int32(v[i])
    ensures ReadsBack(s, pos, v)
    decreases |v|
  {
    hide Strtol, Nums, PrintInt, ReadsBack;
    var x := PrintInt(v[0]);
    if |v| == 1 {
      LastNum(s, pos, q, v[0]);
      assert v == [v[0]];
    } else {
      var sep, rest := Separator(spaced), PrintNums(v[1..], spaced);
      var m := pos + |x|;
      assert s[pos..q] == x + (sep + rest);
      Slices(s, pos, q, x, sep + rest);
      Slices(s, m, q, sep, rest);
      assert s[m] == s[m..m + |sep|][0] == ',';
      if spaced { assert s[m + 1] == s[m..m + |sep|][1] == ' '; }
      NumsPrinted(s, m + |sep|, q, v[1..], spaced);
      assert Nums(s, m + 1, |v| - 1) == Some(v[1..]) by { ReadsBackAt(s, m + |sep|, v[1..], m + 1); }
      FirstNum(s, pos, m, v);
    }
  }

  lemma Slices(s: string, pos: nat, q: nat, a: string, b: string)
    requires pos <= q <= |s| && s[pos..q] == a + b
    ensures pos + |a| <= q && s[pos..pos + |a|] == a && s[pos + |a|..q] == b
  {
    assert |s[pos..q]| == |a| + |b|;
    assert s[pos..pos + |a|] == s[pos..q][..|a|];
    assert s[pos + |a|..q] == s[pos..q][|a|..];
  }

  lemma ReadsBackAt(s: string, pos: nat, v: seq<int>, at: nat)
    requires pos <= |s| && ReadsBack(s, pos, v)
    requires at == pos || (pos > 0 && at == pos - 1 && s[at] == ' ')
    ensures Nums(s, at, |v|) == Some(v)
  {
  }

  lemma LastNum(s: string, pos: nat, q: nat, x: int)
    requires pos <= q < |s| && s[pos..q] == PrintInt(x) && s[q] == ')' && Int32(x)
    ensures ReadsBack(s, pos, [x])
  {
    hide Strtol, PrintInt;
    StrtolPrintedInt(s, pos, q, x);
    assert |PrintInt(x)| > 0 by { NonEmptyInt(x); }
    assert Nums(s, q + 1, 0) == Some([]) && [x] + [] == [x];
    if pos > 0 && s[pos - 1] == ' ' {
      SkipBlank(s, pos - 1);
      assert Nums(s, pos - 1, 1) == Some([x]);
    }
  }

  lemma {:induction false} FirstNum(s: string, pos: nat, m: nat, v: seq<int>)
    requires |v| > 1 && pos <= m < |s| && s[pos..m] == PrintInt(v[0]) && s[m] == ',' && Int32(v[0])
    requires Nums(s, m + 1, |v| - 1) == Some(v[1..])
    ensures ReadsBack(s, pos, v)
  {
    hide Strtol, PrintInt, Nums;
    StrtolPrintedInt(s, pos, m, v[0]);
    assert |PrintInt(v[0])| > 0 by { NonEmptyInt(v[0]); }
    assert v == [v[0]] + v[1..];
    NumsStep(s, pos, |v|);
    if pos > 0 && s[pos - 1] == ' ' {
      SkipBlank(s, pos - 1);
      NumsStep(s, pos - 1, |v|);
    }
  }

  lemma NonEmptyInt(x: int)
    ensures |PrintInt(x)| > 0
  {
  }

  lemma SkipBlank(s: string, p: nat)
    requires p < |s| && s[p] == ' ' && Strtol(s, p + 1, 10).1 > p + 1
    ensures Strtol(s, p, 10) == Strtol(s, p + 1, 10)
  {
  }

  predicate ValidAreaText(a: Area) {
    && Int32(a.left) && Int32(a.top) && Int32(a.width) && Int32(a.height) && Int32(a.weight)
    && Int32(a.left + a.width) && Int32(a.top + a.height)
  }

  lemma {:induction false} NDimPrinted(a: Area, spaced: bool)
    requires ValidAreaText(a)
    ensures var v := NDim(PrintArea(a, spaced), 5); v.Some? && FromNums(v.value) == a
  {
    hide PrintNums, Nums;
    var t := PrintArea(a, spaced);
    var v := [a.left, a.top, a.left + a.width, a.top + a.height, a.weight];
    assert t[1..|t| - 1] == PrintNums(v, spaced);
    NumsPrinted(t, 1, |t| - 1, v, spaced);
  }

  predicate Plain(c: char) { c != '(' && c != ')' }

  lemma PlainDigit(c: char)
    requires IsDigit(c, 10)
    ensures Plain(c)
  {
  }

  lemma PlainInt(n: int)
    ensures forall i :: 0 <= i < |PrintInt(n)| ==> Plain(PrintInt(n)[i])
  {
    hide PrintNat, IsDigit, Plain;
    var ds := PrintNat(if n < 0 then -n else n, 10);
    PrintedDigits(if n < 0 then -n else n, 10);
    forall i | 0 <= i < |ds| ensures Plain(ds[i]) { PlainDigit(ds[i]); }
    assert Plain('-') by { PlainMinus(); }
  }

  lemma PlainMinus()
    ensures Plain('-')
  {
  }

  lemma {:induction false} PlainNums(v: seq<int>, spaced: bool)
    ensures forall i :: 0 <= i < |PrintNums(v, spaced)| ==> Plain(PrintNums(v, spaced)[i])
    decreases |v|
  {
    hide PrintInt;
    if v != [] { PlainInt(v[0]); }
    if |v| > 1 { PlainNums(v[1..], spaced); }
  }

  lemma {:induction false} FindChr(s: string, pos: nat, q: nat, c: char)
    requires pos <= q < |s| && s[q] == c && forall i :: pos <= i < q ==> s[i] != c
    ensures StrChr(s, pos, c) == Some(q)
    decreases q - pos
  {
    if pos < q { FindChr(s, pos + 1, q, c); }
  }

  lemma PrintedAreaShape(a: Area, spaced: bool)
    ensures var t := PrintArea(a, spaced);
            |t| >= 2 && t[0] == '(' && t[|t| - 1] == ')' && forall i :: 0 < i < |t| - 1 ==> Plain(t[i])
  {
    hide PrintNums;
    PlainNums([a.left, a.top, a.left + a.width, a.top + a.height, a.weight], spaced);
  }

  ghost predicate AllFit(v: seq<Area>, spaced: bool) {
    forall i :: 0 <= i < |v| ==> |PrintArea(v[i], spaced)| < AREA_STR_SIZE
  }

  /** The first printed area: where it ends, and what it reads as. */
  lemma FirstArea(s: string, pos: nat, e: nat, a: Area, spaced: bool)
    requires ValidAreaText(a) && pos <= e < |s| && s[pos..e + 1] == PrintArea(a, spaced)
    ensures CharAt(s, pos) == '(' && StrChr(s, pos, ')') == Some(e)
    ensures var v := NDim(s[pos..e + 1], 5); v.Some? && FromNums(v.value) == a && DiffsFit(v.value)
  {
    hide PrintArea, NDim;
    var t := PrintArea(a, spaced);
    PrintedAreaShape(a, spaced);
    NDimPrinted(a, spaced);
    forall i | pos <= i <= e ensures s[i] == t[i - pos] { assert s[i] == s[pos..e + 1][i - pos]; }
    FindChr(s, pos, e, ')');
  }

  /** One round of the parsing loop over a printed area. */
  lemma {:induction false} ParseOne(s: string, pos: nat, e: nat, a: Area, max: int, spaced: bool)
    requires ValidAreaText(a) && pos <= e < |s| && s[pos..e + 1] == PrintArea(a, spaced) && max > 0
    ensures ParseAreas(s, pos, max)
            == if |PrintArea(a, spaced)| >= AREA_STR_SIZE then Overflow
               else if StrChr(s, e, '(') == None then Areas([a])
               else After([a], ParseAreas(s, StrChr(s, e, '(').value, max - 1))
  {
    hide PrintArea, NDim, StrChr, FromNums;
    FirstArea(s, pos, e, a, spaced);
  }

  lemma {:induction false} ParsePrintedFrom(s: string, pos: nat, v: seq<Area>, max: int, spaced: bool)
    requires pos <= |s| && v != [] && |v| <= max && s[pos..] == PrintAreas(v, spaced)
    requires forall i :: 0 <= i < |v| ==> ValidAreaText(v[i])
    ensures ParseAreas(s, pos, max) == if AllFit(v, spaced) then Areas(v) else Overflow
    decreases |v|
  {
    hide PrintArea, AllFit, StrChr, ParseAreas, PrintAreas;
    var e := FirstSplit(s, pos, v, spaced);
    ParseOne(s, pos, e, v[0], max, spaced);
    FitSplit(v, spaced);
    assert v == [v[0]] + v[1..];
    if |v| > 1 {
      NextArea(s, e, v, spaced);
      ParsePrintedFrom(s, e + 2, v[1..], max - 1, spaced);
    } else {
      assert v[1..] == [];
      NoNextArea(s, e);
    }
  }

  /** Where the first of the printed areas ends. */
  lemma FirstSplit(s: string, pos: nat, v: seq<Area>, spaced: bool) returns (e: nat)
    requires pos <= |s| && v != [] && s[pos..] == PrintAreas(v, spaced)
    ensures pos <= e < |s| && s[pos..e + 1] == PrintArea(v[0], spaced) && s[e] == ')'
    ensures s[e + 1..] == if |v| == 1 then "" else "," + PrintAreas(v[1..], spaced)
    ensures |v| == 1 ==> e + 1 == |s|
  {
    hide PrintArea;
    var t := PrintArea(v[0], spaced);
    var tail := if |v| == 1 then "" else "," + PrintAreas(v[1..], spaced);
    assert PrintAreas(v, spaced) == t + tail;
    PrintedAreaShape(v[0], spaced);
    e := SplitEnd(s, pos, t, tail);
  }

  lemma SplitEnd(s: string, pos: nat, t: string, tail: string) returns (e: nat)
    requires pos <= |s| && s[pos..] == t + tail && |t| > 0
    ensures pos <= e < |s| && s[pos..e + 1] == t && s[e] == t[|t| - 1] && s[e + 1..] == tail
  {
    e := pos + |t| - 1;
    assert s[pos..|s|] == s[pos..];
    Slices(s, pos, |s|, t, tail);
    assert s[e] == s[pos..e + 1][|t| - 1];
    assert s[e + 1..|s|] == s[e + 1..];
  }

  lemma NoNextArea(s: string, e: nat)
    requires e + 1 == |s| && s[e] == ')'
    ensures StrChr(s, e, '(') == None
  {
    assert StrChr(s, e + 1, '(') == None;
  }

  lemma NextArea(s: string, e: nat, v: seq<Area>, spaced: bool)
    requires |v| > 1 && e < |s| && s[e] == ')' && s[e + 1..] == "," + PrintAreas(v[1..], spaced)
    ensures e + 2 < |s| && s[e + 2..] == PrintAreas(v[1..], spaced) && StrChr(s, e, '(') == Some(e + 2)
  {
    hide PrintArea;
    PrintedAreaShape(v[1], spaced);
    var rest := PrintAreas(v[1..], spaced);
    assert rest[0] == '(';
    assert s[e + 1] == s[e + 1..][0] == ',';
    assert s[e + 2..] == s[e + 1..][1..] == rest;
    assert s[e + 2] == s[e + 2..][0];
    FindChr(s, e, e + 2, '(');
  }

  lemma FitSplit(v: seq<Area>, spaced: bool)
    requires v != []
    ensures AllFit(v, spaced) <==> |PrintArea(v[0], spaced)| < AREA_STR_SIZE && AllFit(v[1..], spaced)
    ensures AllFit([], spaced)
  {
    hide PrintArea;
    if |PrintArea(v[0], spaced)| < AREA_STR_SIZE && AllFit(v[1..], spaced) {
      forall i | 0 <= i < |v| ensures |PrintArea(v[i], spaced)| < AREA_STR_SIZE {
        if i > 0 { assert v[i] == v[1..][i - 1]; }
      }
    }
  }

  /** What stands between or behind two areas does not matter, as long as no area opens in it. */
  lemma GapIgnored(a: Area, gap: string, b: Area, tail: string, max: int, spaced: bool)
    requires ValidAreaText(a) && ValidAreaText(b) && AllFit([a, b], spaced) && max >= 2
    requires '(' !in gap && '(' !in tail
    ensures ParseAreas(PrintArea(a, spaced) + gap + PrintArea(b, spaced) + tail, 0, max) == Areas([a, b])
  {
    hide PrintArea, ParseAreas, StrChr;
    var ta, tb := PrintArea(a, spaced), PrintArea(b, spaced);
    var s := ta + gap + tb + tail;
    var e, p := |ta| - 1, |ta| + |gap|;
    var q := p + |tb| - 1;
    assert |PrintArea([a, b][0], spaced)| < AREA_STR_SIZE && |PrintArea([a, b][1], spaced)| < AREA_STR_SIZE;
    PrintedAreaShape(a, spaced);
    PrintedAreaShape(b, spaced);
    assert s[0..e + 1] == ta && s[p..q + 1] == tb;
    ParseOne(s, 0, e, a, max, spaced);
    ParseOne(s, p, q, b, max - 1, spaced);
    assert s[e] == ')' && s[p] == '(' && forall i :: e < i < p ==> s[i] == gap[i - e - 1];
    FindChr(s, e, p, '(');
    assert s[q] == ')' && forall i :: q < i < |s| ==> s[i] == tail[i - q - 1];
    NotFound(s, q, '(');
  }

  lemma {:induction false} NotFound(s: string, pos: nat, c: char)
    requires forall i :: pos <= i < |s| ==> s[i] != c
    ensures StrChr(s, pos, c) == None
    decreases |s| - pos
  {
    if pos < |s| { NotFound(s, pos + 1, c); }
  }

  /** A printed list that is longer than the maximum is not parsed. */
  lemma {:induction false} TooManyAreas(s: string, pos: nat, v: seq<Area>, max: int, spaced: bool)
    requires pos <= |s| && v != [] && max < |v| && s[pos..] == PrintAreas(v, spaced)
    requires forall i :: 0 <= i < |v| ==> ValidAreaText(v[i])
    ensures !ParseAreas(s, pos, max).Areas?
    decreases |v|
  {
    hide PrintArea, StrChr, ParseAreas, PrintAreas;
    if max <= 0 {
      AreasStep(s, pos, max);
    } else {
      var e := FirstSplit(s, pos, v, spaced);
      ParseOne(s, pos, e, v[0], max, spaced);
      NextArea(s, e, v, spaced);
      TooManyAreas(s, e + 2, v[1..], max - 1, spaced);
    }
  }

  /** Parsing the printed areas gives them back exactly when there are some, not more than the maximum,
      and every one fits the local buffer. */
  lemma AreasRoundTrip(v: seq<Area>, max: int, spaced: bool)
    requires forall i :: 0 <= i < |v| ==> ValidAreaText(v[i])
    ensures ParseAreas(PrintAreas(v, spaced), 0, max) == Areas(v)
            <==> v != [] && |v| <= max && AllFit(v, spaced)
  {
    assert PrintAreas(v, spaced)[0..] == PrintAreas(v, spaced);
    if v == [] {
      assert ParseAreas("", 0, max) == BadAreas;
    } else if |v| <= max {
      ParsePrintedFrom(PrintAreas(v, spaced), 0, v, max, spaced);
    } else {
      TooManyAreas(PrintAreas(v, spaced), 0, v, max, spaced);
    }
  }

  // ---------- validity ----------

  predicate DefaultArea(v: seq<Area>) { |v| == 1 && v[0] == Area(0, 0, 0, 0, 0) }

  predicate InRange(a: Area) {
    && -1000 <= a.left && -1000 <= a.top && 0 < a.width && 0 < a.height
    && a.left + a.width <= 1000 && a.top + a.height <= 1000 && 1 <= a.weight <= 1000
  }

  ghost predicate ValidAreas(v: seq<Area>) {
    DefaultArea(v) || forall i :: 0 <= i < |v| ==> InRange(v[i])
  }

  /** All tests before a sum pass and the sum does not fit 32 bits. */
  predicate SumWraps(a: Area) {
    && -1000 <= a.left && -1000 <= a.top && 0 < a.width && 0 < a.height
    && (!Int32(a.left + a.width) || (a.left + a.width <= 1000 && !Int32(a.top + a.height)))
  }

  ghost predicate WrapsFirst(v: seq<Area>, i: nat)
    requires i < |v|
  {
    SumWraps(v[i]) && forall j :: 0 <= j < i ==> InRange(v[j])
  }

  datatype Verdict = Valid | Invalid | Wrapping

  method ValidateCameraAreas(v: seq<Area>) returns (r: Verdict)
    ensures r.Valid? <==> ValidAreas(v)
    ensures r.Valid? <==>
      v == [Area(0, 0, 0, 0, 0)]
      || forall i :: 0 <= i < |v| ==>
           && -1000 <= v[i].left && -1000 <= v[i].top && 0 < v[i].width && 0 < v[i].height
           && v[i].left + v[i].width <= 1000 && v[i].top + v[i].height <= 1000
           && 1 <= v[i].weight && v[i].weight <= 1000
    ensures r.Wrapping? <==> !DefaultArea(v) && exists i :: 0 <= i < |v| && WrapsFirst(v, i)
  {
    if |v| == 1 && v[0].left == 0 && v[0].top == 0 && v[0].width == 0 && v[0].height == 0
       && v[0].weight == 0 {
      return Valid;
    }
    for i := 0 to |v|
      invariant forall j :: 0 <= j < i ==> InRange(v[j])
    {
      if v[i].left < -1000 { return Invalid; }
      if v[i].top < -1000 { return Invalid; }
      if v[i].width <= 0 || v[i].height <= 0 { return Invalid; }
      if !Int32(v[i].left + v[i].width) { assert WrapsFirst(v, i); return Wrapping; }
      if v[i].left + v[i].width > 1000 { return Invalid; }
      if !Int32(v[i].top + v[i].height) { assert WrapsFirst(v, i); return Wrapping; }
      if v[i].top + v[i].height > 1000 { return Invalid; }
      if v[i].weight < 1 || v[i].weight > 1000 { return Invalid; }
    }
    return Valid;
  }

  lemma {:induction false} NumsInt32(s: string, pos: nat, n: nat)
    requires Nums(s, pos, n).Some?
    ensures forall i :: 0 <= i < n ==> Int32(Nums(s, pos, n).value[i])
    decreases n
  {
    hide Strtol;
    if n > 0 { NumsInt32(s, Strtol(s, pos, 10).1 + 1, n - 1); }
  }

  lemma NDimInt32(s: string, n: nat)
    requires NDim(s, n).Some?
    ensures forall i :: 0 <= i < n ==> Int32(NDim(s, n).value[i])
  {
    hide Nums;
    NumsInt32(s, 1, n);
  }

  /** Parsed areas have their right and bottom edges in 32 bits, so their sums never wrap. */
  lemma {:induction false} ParsedFit(s: string, pos: nat, max: int)
    requires pos <= |s| && ParseAreas(s, pos, max).Areas?
    ensures var v := ParseAreas(s, pos, max).areas; forall i :: 0 <= i < |v| ==> ValidAreaText(v[i])
    decreases |s| - pos
  {
    hide ParseAreas, NDim;
    AreasStep(s, pos, max);
    var end := StrChr(s, pos, ')').value;
    var next := StrChr(s, end, '(');
    NDimInt32(s[pos..end + 1], 5);
    if next.Some? { ParsedFit(s, next.value, max - 1); }
  }

  lemma SmallInt(n: int)
    requires -1000 <= n <= 1000
    ensures |PrintInt(n)| <= 5
  {
    assert Power(10, 4) == 10000;
    PrintedLength(if n < 0 then -n else n, 10, 4);
  }

  /** Every valid area fits when printed without blanks, so the round trip holds for every list that
      validation accepts, is not longer than the maximum and is not empty; the empty list, which
      validation accepts too, prints to a text that is rejected. */
  lemma {:induction false} ValidAreasRoundTrip(v: seq<Area>, max: int)
    requires ValidAreas(v)
    ensures ParseAreas(PrintAreas(v, false), 0, max) == Areas(v) <==> v != [] && |v| <= max
  {
    hide ParseAreas, PrintAreas;
    forall i | 0 <= i < |v| ensures |PrintArea(v[i], false)| < AREA_STR_SIZE {
      AreaFits(v[i]);
    }
    AreasRoundTrip(v, max, false);
  }

  lemma AreaFits(a: Area)
    requires InRange(a) || a == Area(0, 0, 0, 0, 0)
    ensures |PrintArea(a, false)| < AREA_STR_SIZE
  {
    hide PrintInt, PrintNums;
    SmallInt(a.left);
    SmallInt(a.top);
    SmallInt(a.left + a.width);
    SmallInt(a.top + a.height);
    SmallInt(a.weight);
    NumsLength([a.left, a.top, a.left + a.width, a.top + a.height, a.weight]);
  }

  lemma {:induction false} NumsLength(v: seq<int>)
    requires v != [] && forall i :: 0 <= i < |v| ==> |PrintInt(v[i])| <= 5
    ensures |PrintNums(v, false)| <= 6 * |v| - 1
    decreases |v|
  {
    hide PrintInt;
    if |v| > 1 { NumsLength(v[1..]); }
  }

  /** Printed with blanks, the largest valid area does not fit: the text fills the whole buffer. */
  lemma SpacedAreaOverflows()
    ensures var a := Area(-1000, -1000, 2000, 2000, 1000);
            InRange(a) && |PrintArea(a, true)| == 32 == AREA_STR_SIZE
            && ParseAreas(PrintArea(a, true), 0, 1) == Overflow
  {
    var a := Area(-1000, -1000, 2000, 2000, 1000);
    assert PrintNat(1000, 10) == PrintNat(100, 10) + "0" == PrintNat(10, 10) + "00";
    var v := [-1000, -1000, 1000, 1000, 1000];
    assert v[1..] == [-1000, 1000, 1000, 1000];
    assert v[1..][1..] == [1000, 1000, 1000];
    assert v[1..][1..][1..] == [1000, 1000];
    assert v[1..][1..][1..][1..] == [1000];
    assert |PrintNums(v[1..][1..][1..], true)| == 10;
    assert |PrintNums(v[1..], true)| == 23;
    assert PrintAreas([a], true) == PrintArea(a, true);
    assert PrintArea(a, true)[0..] == PrintArea(a, true);
    ParsePrintedFrom(PrintArea(a, true), 0, [a], 1, true);
    assert !AllFit([a], true);
  }

  // ---------- mapping to the preview ----------

  /** The conversion to an integer type drops the fraction. */
  function Truncated(x: real): int { if x >= 0.0 then x.Floor else -((-x).Floor) }

  datatype Roi = Roi(left: int, top: int, width: int, height: int, weight: int)

  /** A coordinate in -1000..1000 on an axis of `size` pixels. */
  function Position(x: int, size: int): int {
    Truncated((x as real + 1000.0) * (size as real / 2000.0))
  }

  function Extent(length: int, size: int): int {
    Truncated((length * size) as real / 2000.0)
  }

  /** C division rounds toward zero; the lengths of valid areas are positive. */
  function Centre(start: int, length: int, size: int): int
    requires length >= 0
  {
    Truncated(((start + length / 2) as real + 1000.0) * size as real / 2000.0)
  }

  function ToRoi(a: Area, w: int, h: int): Roi {
    Roi(Position(a.left, w), Position(a.top, h), Extent(a.width, w), Extent(a.height, h), a.weight)
  }

  function ToPoint(a: Area, w: int, h: int): (int, int)
    requires a.width >= 0 && a.height >= 0
  {
    (Centre(a.left, a.width, w), Centre(a.top, a.height, h))
  }

  /** Along one axis: the region starts and ends inside the preview. */
  lemma {:induction false} SpanInside(start: int, length: int, size: int)
    requires -1000 <= start && 0 < length && start + length <= 1000 && size > 0
    ensures 0 <= Position(start, size) && 0 <= Extent(length, size)
    ensures Position(start, size) + Extent(length, size) <= size
  {
    var p := (start + 1000) * size;
    assert (start as real + 1000.0) * (size as real / 2000.0) == p as real / 2000.0;
    assert p >= 0 && length * size >= 0;
    assert p + length * size == (start + 1000 + length) * size;
    assert (start + 1000 + length) * size <= 2000 * size;
  }

  lemma CentreInside(start: int, length: int, size: int)
    requires -1000 <= start && 0 < length && start + length <= 1000 && size > 0
    ensures 0 <= Centre(start, length, size) < size
  {
    hide Truncated, Centre;
    var m := start + length / 2 + 1000;
    CentreIs(start, length, size, m);
    MulLess(m, 2000, size);
    TruncatedBelow(m * size, size);
  }

  lemma CentreIs(start: int, length: int, size: int, m: int)
    requires length >= 0 && m == start + length / 2 + 1000 && size > 0
    ensures Centre(start, length, size) == Truncated((m * size) as real / 2000.0)
  {
    assert (start + length / 2) as real + 1000.0 == m as real;
    ProductReal(m, size);
    SameTruncated(((start + length / 2) as real + 1000.0) * size as real / 2000.0, (m * size) as real / 2000.0);
  }

  lemma SameTruncated(x: real, y: real)
    requires x == y
    ensures Truncated(x) == Truncated(y)
  {
  }

  lemma {:induction false} ProductReal(m: int, n: nat)
    ensures m as real * n as real == (m * n) as real
  {
    if n > 0 {
      ProductReal(m, n - 1);
      Distributes(m as real, (n - 1) as real);
      assert n as real == (n - 1) as real + 1.0 && m * n == m * (n - 1) + m;
    }
  }

  lemma Distributes(x: real, y: real)
    ensures x * (y + 1.0) == x * y + x
  {
  }

  lemma MulLess(m: int, n: int, size: int)
    requires 0 <= m < n && size > 0
    ensures 0 <= m * size < n * size
  {
  }

  lemma TruncatedBelow(x: int, size: int)
    requires 0 <= x < 2000 * size
    ensures 0 <= Truncated(x as real / 2000.0) < size
  {
    assert 0.0 <= x as real / 2000.0 < size as real;
  }

  /** Every focus region of a valid area lies in the preview ... */
  lemma RoiInPreview(a: Area, w: int, h: int)
    requires InRange(a) && w > 0 && h > 0
    ensures var r := ToRoi(a, w, h);
            && 0 <= r.left && 0 <= r.width && r.left + r.width <= w
            && 0 <= r.top && 0 <= r.height && r.top + r.height <= h
  {
    hide Position, Extent;
    SpanInside(a.left, a.width, w);
    SpanInside(a.top, a.height, h);
  }

  /** The region in whole numbers: every coordinate is scaled by the preview size over 2000 and rounded
      down. */
  lemma RoiExact(a: Area, w: int, h: int)
    requires InRange(a) && w > 0 && h > 0
    ensures var r := ToRoi(a, w, h);
            && r.left == (a.left + 1000) * w / 2000 && r.top == (a.top + 1000) * h / 2000
            && r.width == a.width * w / 2000 && r.height == a.height * h / 2000
            && r.weight == a.weight
  {
    hide Position, Extent;
    SpanExact(a.left, a.width, w);
    SpanExact(a.top, a.height, h);
  }

  lemma SpanExact(start: int, length: int, size: int)
    requires -1000 <= start && 0 < length && size > 0
    ensures Position(start, size) == (start + 1000) * size / 2000
    ensures Extent(length, size) == length * size / 2000
  {
    hide Truncated;
    var m := start + 1000;
    assert start as real + 1000.0 == m as real;
    ProductReal(m, size);
    Scaled(m as real, size as real, (m * size) as real);
    MulNonNegative(m, size);
    MulNonNegative(length, size);
    TruncatedIs(m * size);
    TruncatedIs(length * size);
    PositionIs(start, size);
  }

  lemma PositionIs(start: int, size: int)
    requires (start as real + 1000.0) * (size as real / 2000.0) == ((start + 1000) * size) as real / 2000.0
    ensures Position(start, size) == Truncated(((start + 1000) * size) as real / 2000.0)
  {
  }

  lemma Scaled(x: real, y: real, z: real)
    requires x * y == z
    ensures x * (y / 2000.0) == z / 2000.0
  {
  }

  lemma MulNonNegative(x: int, y: int)
    requires x >= 0 && y >= 0
    ensures x * y >= 0
  {
  }

  lemma TruncatedIs(x: int)
    requires x >= 0
    ensures Truncated(x as real / 2000.0) == x / 2000
  {
    var q, m := x / 2000, x % 2000;
    assert x as real / 2000.0 == q as real + m as real / 2000.0;
    assert 0.0 <= m as real / 2000.0 < 1.0;
  }

  /** The metering point is the centre, scaled in the same way. */
  lemma PointExact(a: Area, w: int, h: int)
    requires InRange(a) && w > 0 && h > 0
    ensures var p := ToPoint(a, w, h);
            && p.0 == (a.left + a.width / 2 + 1000) * w / 2000
            && p.1 == (a.top + a.height / 2 + 1000) * h / 2000
  {
    hide Centre;
    CentreExact(a.left, a.width, w);
    CentreExact(a.top, a.height, h);
  }

  lemma CentreExact(start: int, length: int, size: int)
    requires -1000 <= start && 0 < length && size > 0
    ensures Centre(start, length, size) == (start + length / 2 + 1000) * size / 2000
  {
    hide Truncated, Centre;
    var m := start + length / 2 + 1000;
    CentreIs(start, length, size, m);
    MulNonNegative(m, size);
    TruncatedIs(m * size);
  }

  /** ... and the whole field of view maps to the whole preview. */
  lemma FullRoi(w: int, h: int, weight: int)
    requires w > 0 && h > 0
    ensures ToRoi(Area(-1000, -1000, 2000, 2000, weight), w, h) == Roi(0, 0, w, h, weight)
  {
    assert (2000 * w) as real / 2000.0 == w as real;
    assert (2000 * h) as real / 2000.0 == h as real;
  }

  /** Every metering point of a valid area lies in the preview. */
  lemma PointInPreview(a: Area, w: int, h: int)
    requires InRange(a) && w > 0 && h > 0
    ensures var p := ToPoint(a, w, h); 0 <= p.0 < w && 0 <= p.1 < h
  {
    hide Centre;
    CentreInside(a.left, a.width, w);
    CentreInside(a.top, a.height, h);
  }

  // ---------- numbers that wrap ----------

  /** "(n1,n2,n3,n4,n5)" for any five numbers. */
  function PrintTuple(v: seq<int>): string { "(" + PrintNums(v, false) + ")" }

  /** A text of five 32-bit numbers that fits the buffer is an area unless right - left or
      bottom - top wraps. */
  lemma TupleWrapsIff(v: seq<int>, max: int)
    requires |v| == 5 && (forall i :: 0 <= i < 5 ==> Int32(v[i]))
    requires |PrintTuple(v)| < AREA_STR_SIZE && max > 0
    ensures ParseAreas(PrintTuple(v), 0, max) == if Int32(v[2] - v[0]) && Int32(v[3] - v[1])
               then Areas([Area(v[0], v[1], v[2] - v[0], v[3] - v[1], v[4])]) else Wraps
  {
    hide PrintNums, Nums, ParseAreas, StrChr;
    var t := PrintTuple(v);
    var e := |t| - 1;
    assert t[1..e] == PrintNums(v, false) && t[0..e + 1] == t;
    NumsPrinted(t, 1, e, v, false);
    assert Nums(t, 1, 5) == Some(v) by { ReadsBackAt(t, 1, v, 1); }
    PlainNums(v, false);
    forall i | 0 <= i < e ensures t[i] != ')' { if i > 0 { assert t[i] == PrintNums(v, false)[i - 1]; } }
    FindChr(t, 0, e, ')');
    NoNextArea(t, e);
    AreasStep(t, 0, max);
  }

  /** For example: left, top, right and bottom become left, top, width and height. */
  lemma OneAreaText()
    ensures ParseAreas("(1,2,11,22,5)", 0, 1) == Areas([Area(1, 2, 10, 20, 5)])
  {
    hide PrintInt, ParseAreas;
    var v := [1, 2, 11, 22, 5];
    SmallInts();
    assert v[1..] == [2, 11, 22, 5] && v[1..][1..] == [11, 22, 5];
    assert v[1..][1..][1..] == [22, 5] && v[1..][1..][1..][1..] == [5];
    assert PrintNums(v[1..][1..][1..], false) == "22,5";
    assert PrintNums(v[1..][1..], false) == "11,22,5";
    assert PrintTuple(v) == "(1,2,11,22,5)";
    TupleWrapsIff(v, 1);
  }

  lemma SmallInts()
    ensures PrintInt(1) == "1" && PrintInt(2) == "2" && PrintInt(5) == "5"
    ensures PrintInt(11) == "11" && PrintInt(22) == "22"
  {
  }

  /** 32-bit arithmetic as it wraps in practice. */
  function Wrap32(x: int): int { (x + 0x8000_0000) % 0x1_0000_0000 - 0x8000_0000 }

  const WRAPPING_TUPLE := [2147483647, 0, -2147483648, 10, 1]

  /** One such text: with wrapping arithmetic its width is 1 and its right edge negative, so it would
      pass every test although it starts far to the right of any preview. */
  lemma WrappingTuplePasses(max: int, w: int)
    requires max > 0 && w > 0
    ensures ParseAreas(PrintTuple(WRAPPING_TUPLE), 0, max) == Wraps
    ensures var v := WRAPPING_TUPLE;
      var a := Area(v[0], v[1], Wrap32(v[2] - v[0]), Wrap32(v[3] - v[1]), v[4]);
      && -1000 <= a.left && -1000 <= a.top && 0 < a.width && 0 < a.height
      && Wrap32(a.left + a.width) <= 1000 && Wrap32(a.top + a.height) <= 1000 && 1 <= a.weight <= 1000
      && Position(a.left, w) > w
  {
    hide Position, ParseAreas, PrintTuple;
    WrappingTupleFits();
    TupleWrapsIff(WRAPPING_TUPLE, max);
    FarRight(w);
  }

  lemma FarRight(w: int)
    requires w > 0
    ensures Position(2147483647, w) > w
  {
    var x := (2147483647 as real + 1000.0) * (w as real / 2000.0);
    assert x == w as real * (2147484647.0 / 2000.0);
    assert x >= w as real * 2.0;
    assert x.Floor >= w + 1;
  }

  lemma WrappingTupleFits()
    ensures |PrintTuple(WRAPPING_TUPLE)| < AREA_STR_SIZE
  {
    var v := WRAPPING_TUPLE;
    assert v[1..] == [0, -2147483648, 10, 1] && v[1..][1..] == [-2147483648, 10, 1];
    assert v[1..][1..][1..] == [10, 1] && v[1..][1..][1..][1..] == [1];
    assert PrintNums(v[1..][1..][1..], false) == "10,1" by { assert PrintNat(10, 10) == "10"; }
    PrintIntLength(2147483647);
    PrintIntLength(-2147483648);
    TenDigits(2147483647);
  }

  lemma TenDigits(n: nat)
    requires n < 0x8000_0000
    ensures |PrintInt(n)| <= 10
  {
    assert Power(10, 5) == 100000;
    assert Power(10, 10) == 10000000000 by { assert Power(10, 8) == 1000 * Power(10, 5); }
    PrintedLength(n, 10, 10);
  }

  datatype Setting<T> = Ignored | Rejected | Overran | Wrapped | Accepted(staged: string, regions: seq<T>)

  /** The products of lengths and preview sizes fit 32 bits, as they do for real previews. */
  ghost predicate ProductsFit(v: seq<Area>, w: int, h: int) {
    forall i :: 0 <= i < |v| ==> Int32(v[i].width * w) && Int32(v[i].height * h)
  }

  method SetFocusAreas(text: Option<string>, max: int, w: int, h: int) returns (r: Setting<Roi>)
    requires w > 0 && h > 0
    ensures r.Ignored? <==> max == 0 || text.None?
    ensures max != 0 && text.Some? ==>
      match ParseAreas(text.value, 0, max)
      case BadAreas => r.Rejected?
      case Overflow => r.Overran?
      case Wraps => r.Wrapped?
      case Areas(v) =>
        if !ValidAreas(v) then r.Rejected?
        else if !DefaultArea(v) && !ProductsFit(v, w, h) then r.Wrapped?
        else && r.Accepted? && r.staged == text.value
             && |r.regions| == (if DefaultArea(v) then 0 else |v|)
             && forall i :: 0 <= i < |r.regions| ==> InRange(v[i]) && r.regions[i] == ToRoi(v[i], w, h)
  {
    hide ParseAreas, ToRoi;
    if max == 0 || text.None? { return Ignored; }
    var parsed := ParseCameraAreaString(text.value, max);
    if parsed.Overflow? { return Overran; }
    if parsed.Wraps? { return Wrapped; }
    if parsed.BadAreas? { return Rejected; }
    ParsedFit(text.value, 0, max);
    var verdict := ValidateCameraAreas(parsed.areas);
    assert !verdict.Wrapping?;
    if !verdict.Valid? { return Rejected; }
    var found := if DefaultArea(parsed.areas) then 0 else |parsed.areas|;
    var regions := [];
    for i := 0 to found
      invariant |regions| == i
      invariant forall j :: 0 <= j < i ==> regions[j] == ToRoi(parsed.areas[j], w, h)
      invariant forall j :: 0 <= j < i ==>
        Int32(parsed.areas[j].width * w) && Int32(parsed.areas[j].height * h)
    {
      if !Int32(parsed.areas[i].width * w) || !Int32(parsed.areas[i].height * h) { return Wrapped; }
      regions := regions + [ToRoi(parsed.areas[i], w, h)];
    }
    return Accepted(text.value, regions);
  }

  method SetMeteringAreas(text: Option<string>, max: int, w: int, h: int) returns (r: Setting<(int, int)>)
    requires w > 0 && h > 0
    ensures r.Ignored? <==> max == 0 || text.None?
    ensures max != 0 && text.Some? ==>
      match ParseAreas(text.value, 0, max)
      case BadAreas => r.Rejected?
      case Overflow => r.Overran?
      case Wraps => r.Wrapped?
      case Areas(v) =>
        if !ValidAreas(v) then r.Rejected?
        else && r.Accepted? && r.staged == text.value
             && |r.regions| == (if DefaultArea(v) then 0 else |v|)
             && forall i :: 0 <= i < |r.regions| ==> InRange(v[i]) && r.regions[i] == ToPoint(v[i], w, h)
  {
    hide ParseAreas, ToPoint;
    if max == 0 || text.None? { return Ignored; }
    var parsed := ParseCameraAreaString(text.value, max);
    if parsed.Overflow? { return Overran; }
    if parsed.Wraps? { return Wrapped; }
    if parsed.BadAreas? { return Rejected; }
    ParsedFit(text.value, 0, max);
    var verdict := ValidateCameraAreas(parsed.areas);
    assert !verdict.Wrapping?;
    if !verdict.Valid? { return Rejected; }
    var found := if DefaultArea(parsed.areas) then 0 else |parsed.areas|;
    var points := [];
    for i := 0 to found
      invariant |points| == i
      invariant forall j :: 0 <= j < i ==> points[j] == ToPoint(parsed.areas[j], w, h)
    {
      points := points + [ToPoint(parsed.areas[i], w, h)];
    }
    return Accepted(text.value, points);
  }
}
