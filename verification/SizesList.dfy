/** Lists of sizes such as "640x480,1280x720": how they are printed and parsed. */
module SizesList {
  import opened CText

  datatype Size = Size(width: int, height: int)

  predicate ValidSize(d: Size) { Int32(d.width) && Int32(d.height) }

  function PrintSize(d: Size): string { PrintInt(d.width) + "x" + PrintInt(d.height) }

  function PrintSizes(v: seq<Size>): string {
    if v == [] then ""
    else if |v| == 1 then PrintSize(v[0])
    else PrintSize(v[0]) + "," + PrintSizes(v[1..])
  }

  lemma {:induction false} PrintSizesAppend(v: seq<Size>, d: Size)
    requires v != []
    ensures PrintSizes(v + [d]) == PrintSizes(v) + "," + PrintSize(d)
  {
    assert (v + [d])[1..] == v[1..] + [d];
    if |v| > 1 { PrintSizesAppend(v[1..], d); }
  }

  const BUFFER_SIZE := 32

  /** A printed size, even with the separator, fits the local buffer. */
  lemma PrintedSizeFits(d: Size)
    requires ValidSize(d)
    ensures |"," + PrintSize(d)| < BUFFER_SIZE
  {
    PrintIntLength(d.width);
    PrintIntLength(d.height);
  }

  method CreateHfrSizesString(values: seq<Size>) returns (str: string)
    requires forall i :: 0 <= i < |values| ==> ValidSize(values[i])
    ensures str == PrintSizes(values)
  {
    hide PrintSize;
    str := "";
    if |values| > 0 {
      PrintedSizeFits(values[0]);
      str := str + Truncate(PrintSize(values[0]), BUFFER_SIZE);
    }
    var i := 1;
    assert |values| > 0 ==> values[..1] == [values[0]];
    while i < |values|
      invariant 1 <= i && (|values| > 0 ==> i <= |values| && str == PrintSizes(values[..i]))
      invariant |values| == 0 ==> str == ""
    {
      PrintedSizeFits(values[i]);
      assert values[..i + 1] == values[..i] + [values[i]];
      PrintSizesAppend(values[..i], values[i]);
      str := str + Truncate("," + PrintSize(values[i]), BUFFER_SIZE);
      i := i + 1;
    }
    assert |values| > 0 ==> values[..i] == values;
  }

  /** BAD_VALUE is not -1, so the caller's comparison with -1 never sees the failure. */
  datatype PairResult = BadValue | Pair(first: int, second: int, end: nat)

  function ParsePair(s: string, pos: nat, delim: char): (r: PairResult)
    ensures r.Pair? ==> r.end >= pos
  {
    var (w, end) := Strtol(s, pos, 10);
    if CharAt(s, end) != delim then BadValue
    else
      var (h, end2) := Strtol(s, end + 1, 10);
      Pair(w, h, end2)
  }

  /** What the parsing loop pushes from pos on.  junk stands for the uninitialised locals that are
      pushed when a pair could not be parsed. */
  function ParseSizes(s: string, pos: nat, junk: nat -> Size): seq<Size>
    requires pos <= |s|
    decreases |s| - pos
  {
    var r := ParsePair(s, pos, 'x');
    var next := if r.Pair? then r.end else pos;
    var c := CharAt(s, next);
    if c != ',' && c != '\0' then []
    else
      var d := if r.Pair? then Size(r.first, r.second) else junk(pos);
      if c == '\0' then [d] else [d] + ParseSizes(s, next + 1, junk)
  }

  method ParseSizesList(s: string, junk: nat -> Size) returns (sizes: seq<Size>)
    ensures sizes == ParseSizes(s, 0, junk)
  {
    hide ParsePair, ParseSizes;
    sizes := [];
    var pos := 0;
    while true
      invariant 0 <= pos <= |s|
      invariant sizes + ParseSizes(s, pos, junk) == ParseSizes(s, 0, junk)
      decreases |s| - pos
    {
      var start := pos;
      SizesStep(s, start, junk);
      var r := ParsePair(s, start, 'x');
      var d := junk(start);
      if r.Pair? {
        d, pos := Size(r.first, r.second), r.end;
      }
      if CharAt(s, pos) != ',' && CharAt(s, pos) != '\0' { return; }
      ghost var before := sizes;
      sizes := sizes + [d];
      if CharAt(s, pos) == '\0' { return; }
      pos := pos + 1;
      assert before + ([d] + ParseSizes(s, pos, junk)) == sizes + ParseSizes(s, pos, junk);
    }
  }

  /** One round of the parsing loop. */
  lemma SizesStep(s: string, pos: nat, junk: nat -> Size)
    requires pos <= |s|
    ensures var r := ParsePair(s, pos, 'x');
            var next := if r.Pair? then r.end else pos;
            var d := if r.Pair? then Size(r.first, r.second) else junk(pos);
            && (CharAt(s, next) != ',' && CharAt(s, next) != '\0' ==> ParseSizes(s, pos, junk) == [])
            && (CharAt(s, next) == '\0' ==> ParseSizes(s, pos, junk) == [d])
            && (CharAt(s, next) == ',' ==>
                  next < |s| && ParseSizes(s, pos, junk) == [d] + ParseSizes(s, next + 1, junk))
  {
    hide ParsePair;
  }

  lemma ParsePrintedPair(s: string, pos: nat, d: Size, q: nat)
    requires ValidSize(d) && pos <= q <= |s| && s[pos..q] == PrintSize(d)
    requires !IsDigit(CharAt(s, q), 10)
    ensures ParsePair(s, pos, 'x') == Pair(d.width, d.height, q)
  {
    hide Strtol;
    var w, h := PrintInt(d.width), PrintInt(d.height);
    var m := pos + |w|;
    assert s[pos..m] == s[pos..q][..|w|] == w;
    assert s[m] == s[pos..q][|w|] == 'x';
    assert s[m + 1..q] == s[pos..q][|w| + 1..] == h;
    StrtolPrintedInt(s, pos, m, d.width);
    StrtolPrintedInt(s, m + 1, q, d.height);
  }

  lemma {:induction false} ParsePrintedFrom(s: string, pos: nat, v: seq<Size>, junk: nat -> Size)
    requires pos <= |s| && v != [] && s[pos..] == PrintSizes(v)
    requires forall i :: 0 <= i < |v| ==> ValidSize(v[i])
    ensures ParseSizes(s, pos, junk) == v
    decreases |v|
  {
    hide ParsePair, PrintSize;
    var q := pos + |PrintSize(v[0])|;
    assert s[pos..q] == s[pos..][..|PrintSize(v[0])|] == PrintSize(v[0]);
    if |v| > 1 {
      assert s[q] == s[pos..][|PrintSize(v[0])|] == ',';
      assert s[q + 1..] == s[pos..][|PrintSize(v[0])| + 1..] == PrintSizes(v[1..]);
      ParsePrintedFrom(s, q + 1, v[1..], junk);
      assert v == [v[0]] + v[1..];
    } else {
      assert q == |s|;
    }
    ParsePrintedPair(s, pos, v[0], q);
  }

  /** Parsing the printed list gives the list back, unless it is empty: the empty string yields one
      size of uninitialised width and height. */
  lemma {:induction false} SizesRoundTrip(v: seq<Size>, junk: nat -> Size)
    requires forall i :: 0 <= i < |v| ==> ValidSize(v[i])
    ensures ParseSizes(PrintSizes(v), 0, junk) == v <==> v != []
  {
    if v != [] {
      assert PrintSizes(v)[0..] == PrintSizes(v);
      ParsePrintedFrom(PrintSizes(v), 0, v, junk);
    } else {
      assert ParseSizes("", 0, junk) == [junk(0)];
    }
  }

  /** For example. */
  lemma TwoSizes(junk: nat -> Size)
    ensures PrintSizes([Size(640, 480), Size(1280, 720)]) == "640x480,1280x720"
    ensures ParseSizes("640x480,1280x720", 0, junk) == [Size(640, 480), Size(1280, 720)]
  {
    hide PrintInt, ParseSizes;
    var v := [Size(640, 480), Size(1280, 720)];
    Decimals();
    assert v[1..] == [Size(1280, 720)];
    assert PrintSize(v[0]) == "640x480" && PrintSize(v[1]) == "1280x720";
    SizesRoundTrip(v, junk);
  }

  lemma Decimals()
    ensures PrintInt(640) == "640" && PrintInt(480) == "480" && PrintInt(720) == "720" && PrintInt(1280) == "1280"
  {
    assert PrintNat(64, 10) == "64" && PrintNat(48, 10) == "48" && PrintNat(72, 10) == "72";
    assert PrintNat(12, 10) == "12" && PrintNat(128, 10) == "128";
  }

  // ---------- uninitialised sizes ----------

  /** From pos on the parser gets to an empty element, reading complete pairs before it. */
  predicate HasEmptyElement(s: string, pos: nat)
    requires pos <= |s|
    decreases |s| - pos
  {
    CharAt(s, pos) == ',' || CharAt(s, pos) == '\0'
    || (var r := ParsePair(s, pos, 'x');
        r.Pair? && CharAt(s, r.end) == ',' && HasEmptyElement(s, r.end + 1))
  }

  lemma EmptyElement(s: string, pos: nat)
    requires pos <= |s| && (CharAt(s, pos) == ',' || CharAt(s, pos) == '\0')
    ensures ParsePair(s, pos, 'x').BadValue?
  {
    assert SkipSpaces(s, pos) == pos && DigitsEnd(s, pos, 10) == pos;
  }

  /** An element at which no pair is found either ends the parse or is empty. */
  lemma BadElement(s: string, pos: nat, junk: nat -> Size)
    requires pos <= |s| && ParsePair(s, pos, 'x').BadValue?
    requires CharAt(s, pos) != ',' && CharAt(s, pos) != '\0'
    ensures ParseSizes(s, pos, junk) == []
  {
    hide ParsePair;
  }

  const ZEROS: nat -> Size := _ => Size(0, 0)

  const ONES: nat -> Size := _ => Size(1, 1)

  /** What is pushed depends on uninitialised memory exactly if the parser gets to an empty element:
      the whole string is empty, or there is a comma in front, at the end or after another one. */
  lemma {:induction false} JunkPushedIff(s: string, pos: nat)
    requires pos <= |s|
    ensures HasEmptyElement(s, pos)
            <==> ParseSizes(s, pos, ZEROS) != ParseSizes(s, pos, ONES)
    ensures !HasEmptyElement(s, pos)
            ==> forall j: nat -> Size, k: nat -> Size :: ParseSizes(s, pos, j) == ParseSizes(s, pos, k)
    decreases |s| - pos
  {
    hide ParsePair;
    var r := ParsePair(s, pos, 'x');
    if CharAt(s, pos) == ',' || CharAt(s, pos) == '\0' {
      EmptyElement(s, pos);
      var a, b := ParseSizes(s, pos, ZEROS), ParseSizes(s, pos, ONES);
      assert a[0] == Size(0, 0) && b[0] == Size(1, 1);
    } else if r.BadValue? {
      forall j: nat -> Size ensures ParseSizes(s, pos, j) == [] { BadElement(s, pos, j); }
    } else if CharAt(s, r.end) == ',' {
      JunkPushedIff(s, r.end + 1);
      assert ParseSizes(s, pos, ZEROS)[1..] == ParseSizes(s, r.end + 1, ZEROS);
      assert ParseSizes(s, pos, ONES)[1..] == ParseSizes(s, r.end + 1, ONES);
    }
  }
}
