/** How the configuration parser reads one line of the file, in one read or in several. */
module PsConfigLines {
  import opened Wrappers
  import opened Bytes
  import opened CText
  import opened Stdio
  import opened PsConfig

  const READ_MAX: nat := LINE_SIZE_MAX - 1

  /** A line with its end. */
  predicate Line(l: string) {
    |l| > 0 && l[|l| - 1] == '\n' && forall i :: 0 <= i < |l| - 1 ==> l[i] != '\n'
  }

  /** The pieces that fgets makes of a line. */
  function Pieces(l: string): (ps: seq<string>)
    ensures forall i :: 0 <= i < |ps| ==> |ps[i]| < LINE_SIZE_MAX
    decreases |l|
  {
    if l == "" then [] else if |l| <= READ_MAX then [l] else [l[..READ_MAX]] + Pieces(l[READ_MAX..])
  }

  predicate IsComment(l: string) {
    var p := SkipBlanks(l, 0);
    CharAt(l, p) == '/' && CharAt(l, p + 1) == '/'
  }

  /** The first character that is not blank is '#'. */
  predicate OpensTag(l: string) { CharAt(l, SkipBlanks(l, 0)) == '#' }

  /** Between two tags only a piece that opens a tag matters; inside a tag any but a comment does. */
  predicate Harmless(section: Section, piece: string) {
    IsComment(piece) || (section.Undef? && !OpensTag(piece))
  }

  ghost predicate AllHarmless(section: Section, ps: seq<string>) {
    forall i :: 0 <= i < |ps| ==> Harmless(section, ps[i])
  }

  predicate Sized(st: State) { |st.list| == MAX_TAGS && st.tagCnt < MAX_TAGS }

  // ---------- one piece ----------

  lemma FilledChars(buf: string, l: string)
    requires |buf| == BUFFER_SIZE && |l| < LINE_SIZE_MAX
    ensures forall i :: 0 <= i < |l| ==> CharAt(Fill(buf, l), i) == l[i]
    ensures CharAt(Fill(buf, l), |l|) == '\0'
  {
  }

  lemma {:induction false} SkipBlanksFilled(buf: string, l: string, p: nat)
    requires |buf| == BUFFER_SIZE && |l| < LINE_SIZE_MAX && p <= |l|
    ensures SkipBlanks(Fill(buf, l), p) == SkipBlanks(l, p) <= |l|
    decreases |l| - p
  {
    hide Fill;
    FilledChars(buf, l);
    if p < |l| && l[p] == ' ' { SkipBlanksFilled(buf, l, p + 1); }
  }

  /** What the buffer is taken for depends on the piece alone. */
  lemma FilledKind(buf: string, l: string)
    requires |buf| == BUFFER_SIZE && |l| < LINE_SIZE_MAX
    ensures var p := SkipBlanks(Fill(buf, l), 0);
      && (IsComment(l) <==> CharAt(Fill(buf, l), p) == '/' && CharAt(Fill(buf, l), p + 1) == '/')
      && (OpensTag(l) <==> CharAt(Fill(buf, l), p) == '#')
  {
    hide Fill, SkipBlanks;
    SkipBlanksFilled(buf, l, 0);
    FilledChars(buf, l);
  }

  function Rank(s: Section): nat {
    match s
    case Undef => 0
    case Id => 1
    case Len => 2
    case Data => 3
  }

  /** The parser is further on: in a later tag, a later part of the tag or a later data line. */
  predicate Later(s: State, t: State) {
    || t.tagCnt > s.tagCnt
    || (t.tagCnt == s.tagCnt
        && (Rank(t.section) > Rank(s.section) || (t.section == s.section && t.lineCount > s.lineCount)))
  }

  /** A piece leaves the parser as it is exactly if it is harmless; any other ends the parse or takes
      the parser further on. */
  lemma StepUnchangedIff(st: State, buf: string, l: string, heap: nat -> Byte)
    requires Sized(st) && |buf| == BUFFER_SIZE && |l| < LINE_SIZE_MAX
    ensures Step(st, Fill(buf, l), heap) == Go(st) <==> Harmless(st.section, l)
    ensures var r := Step(st, Fill(buf, l), heap); r.Go? ==> r.st == st || Later(st, r.st)
  {
    hide Fill, IsComment, OpensTag, IdLine, LenLine, DataLine, SkipBlanks;
    FilledKind(buf, l);
    LinesMoveOn(st, Fill(buf, l), SkipBlanks(Fill(buf, l), 0), heap);
  }

  lemma LinesMoveOn(st: State, buf: string, p: nat, heap: nat -> Byte)
    requires Sized(st)
    ensures var r := IdLine(st, buf, p); st.section.Id? && r.Go? ==> Later(st, r.st)
    ensures var r := LenLine(st, buf, p, heap); st.section.Len? && r.Go? ==> Later(st, r.st)
    ensures var r := DataLine(st, buf, p); st.section.Data? && r.Go? ==> Later(st, r.st)
  {
    hide InputFormat, SectionNumber, FillData, BehindPreamble, Malloc, ToInt16;
  }

  // ---------- a whole line ----------

  datatype AfterLine = AfterLine(result: Result, buf: string)

  /** The parser after the pieces, and the line buffer. */
  function ReadPieces(st: State, buf: string, ps: seq<string>, heap: nat -> Byte): (r: AfterLine)
    requires Sized(st) && |buf| == BUFFER_SIZE
    requires forall i :: 0 <= i < |ps| ==> |ps[i]| < LINE_SIZE_MAX
    ensures |r.buf| == BUFFER_SIZE && (r.result.Go? ==> Sized(r.result.st))
    decreases |ps|
  {
    if ps == [] then AfterLine(Go(st), buf)
    else
      var filled := Fill(buf, ps[0]);
      var r := Step(st, filled, heap);
      if r.Go? then ReadPieces(r.st, filled, ps[1..], heap) else AfterLine(r, filled)
  }

  lemma {:induction false} PiecesMoveOn(st: State, buf: string, ps: seq<string>, heap: nat -> Byte)
    requires Sized(st) && |buf| == BUFFER_SIZE
    requires forall i :: 0 <= i < |ps| ==> |ps[i]| < LINE_SIZE_MAX
    ensures var r := ReadPieces(st, buf, ps, heap).result; r.Go? ==> r.st == st || Later(st, r.st)
    decreases |ps|
  {
    hide Fill, Step, Harmless;
    if ps != [] {
      StepUnchangedIff(st, buf, ps[0], heap);
      var r := Step(st, Fill(buf, ps[0]), heap);
      if r.Go? { PiecesMoveOn(r.st, Fill(buf, ps[0]), ps[1..], heap); }
    }
  }

  /** Reading the pieces leaves the parser as it is exactly if every one is harmless. */
  lemma {:induction false} PiecesUnchangedIff(st: State, buf: string, ps: seq<string>, heap: nat -> Byte)
    requires Sized(st) && |buf| == BUFFER_SIZE
    requires forall i :: 0 <= i < |ps| ==> |ps[i]| < LINE_SIZE_MAX
    ensures ReadPieces(st, buf, ps, heap).result == Go(st) <==> AllHarmless(st.section, ps)
    decreases |ps|
  {
    hide Fill, Step, Harmless;
    if ps != [] {
      var filled := Fill(buf, ps[0]);
      StepUnchangedIff(st, buf, ps[0], heap);
      var r := Step(st, filled, heap);
      assert AllHarmless(st.section, ps) <==> Harmless(st.section, ps[0]) && AllHarmless(st.section, ps[1..]) by {
        assert ps == [ps[0]] + ps[1..];
      }
      if r.Go? {
        PiecesMoveOn(r.st, filled, ps[1..], heap);
        if r.st == st { PiecesUnchangedIff(st, filled, ps[1..], heap); }
      }
    }
  }

  /** A run over a file reads its next line piece by piece. */
  lemma {:induction false} RunReadsLine(st: State, buf: string, text: string, pos: nat, l: string, rest: string,
                                        heap: nat -> Byte)
    requires Sized(st) && |buf| == BUFFER_SIZE && pos <= |text| && text[pos..] == l + rest && Line(l)
    ensures pos + |l| <= |text| && text[pos + |l|..] == rest
    ensures var r := ReadPieces(st, buf, Pieces(l), heap);
      Run(st, buf, text, pos, heap)
      == match r.result
         case Malformed => Failed
         case Overrun => Overran
         case Go(t) => Run(t, r.buf, text, pos + |l|, heap)
    decreases |l|
  {
    hide Fill, Step, Pieces, ReadPieces, Run, Line;
    var n := if |l| <= READ_MAX then |l| else READ_MAX;
    NextRead(text, pos, l, rest, n);
    var piece := l[..n];
    var filled := Fill(buf, piece);
    var r := Step(st, filled, heap);
    FirstOfPieces(st, buf, l, n, heap);
    NextRun(st, buf, text, pos, n, heap);
    if |l| > READ_MAX {
      RestIsLine(l);
      if r.Go? { RunReadsLine(r.st, filled, text, pos + n, l[n..], rest, heap); }
    }
  }

  lemma RestIsLine(l: string)
    requires Line(l) && |l| > READ_MAX
    ensures Line(l[READ_MAX..])
  {
  }

  lemma FirstOfPieces(st: State, buf: string, l: string, n: nat, heap: nat -> Byte)
    requires Sized(st) && |buf| == BUFFER_SIZE && l != "" && n == if |l| <= READ_MAX then |l| else READ_MAX
    ensures var filled := Fill(buf, l[..n]);
      var r := Step(st, filled, heap);
      ReadPieces(st, buf, Pieces(l), heap)
      == if r.Go? && n < |l| then ReadPieces(r.st, filled, Pieces(l[n..]), heap) else AfterLine(r, filled)
  {
    hide Fill, Step;
    assert Pieces(l)[0] == l[..n] && Pieces(l)[1..] == if n < |l| then Pieces(l[n..]) else [];
  }

  lemma NextRun(st: State, buf: string, text: string, pos: nat, n: nat, heap: nat -> Byte)
    requires Sized(st) && |buf| == BUFFER_SIZE && pos < |text| && pos + n <= |text| && n < LINE_SIZE_MAX
    requires LineEnd(text, pos, READ_MAX) == pos + n
    ensures var filled := Fill(buf, text[pos..pos + n]);
      Run(st, buf, text, pos, heap)
      == match Step(st, filled, heap)
         case Malformed => Failed
         case Overrun => Overran
         case Go(t) => Run(t, filled, text, pos + n, heap)
  {
    hide Fill, Step;
  }

  /** One read takes the next piece. */
  lemma NextRead(text: string, pos: nat, l: string, rest: string, n: nat)
    requires pos <= |text| && text[pos..] == l + rest && Line(l)
    requires n == if |l| <= READ_MAX then |l| else READ_MAX
    ensures n > 0 && pos + |l| <= |text| && text[pos + |l|..] == rest
    ensures LineEnd(text, pos, READ_MAX) == pos + n
    ensures text[pos..pos + n] == l[..n] && text[pos + n..] == l[n..] + rest
  {
    assert |text[pos..]| == |l| + |rest|;
    assert text[pos + |l|..] == text[pos..][|l|..];
    assert text[pos..pos + n] == text[pos..][..n];
    assert text[pos + n..] == text[pos..][n..];
    forall i | 0 <= i < |l| ensures text[pos + i] == l[i] { assert text[pos + i] == text[pos..][i]; }
    assert forall i :: pos <= i < pos + |l| ==> text[i] == l[i - pos];
    if |l| <= READ_MAX { LineEndAt(text, pos, READ_MAX, pos + n); } else { LineEndFull(text, pos, n); }
  }

  // ---------- comments ----------

  /** Reading a comment line leaves the parser as it is exactly if every piece after the first is
      harmless, that is: a comment itself, or between two tags a piece that does not open a tag. */
  lemma CommentUnchangedIff(st: State, buf: string, l: string, heap: nat -> Byte)
    requires Sized(st) && |buf| == BUFFER_SIZE && Line(l) && IsComment(l) && SkipBlanks(l, 0) + 2 <= READ_MAX
    ensures ReadPieces(st, buf, Pieces(l), heap).result == Go(st)
            <==> forall i :: 1 <= i < |Pieces(l)| ==> Harmless(st.section, Pieces(l)[i])
  {
    hide ReadPieces, IsComment, Pieces;
    FirstPiece(l);
    PiecesUnchangedIff(st, buf, Pieces(l), heap);
  }

  /** The same for a line of any kind, with a condition on the first piece as well. */
  lemma LineUnchangedIff(st: State, buf: string, l: string, heap: nat -> Byte)
    requires Sized(st) && |buf| == BUFFER_SIZE
    ensures ReadPieces(st, buf, Pieces(l), heap).result == Go(st) <==> AllHarmless(st.section, Pieces(l))
  {
    PiecesUnchangedIff(st, buf, Pieces(l), heap);
  }

  /** A comment whose slashes are within the first read starts with a piece that is a comment. */
  lemma FirstPiece(l: string)
    requires l != "" && IsComment(l) && SkipBlanks(l, 0) + 2 <= READ_MAX
    ensures Pieces(l) != [] && IsComment(Pieces(l)[0])
  {
    if |l| > READ_MAX {
      SkipBlanksPrefix(l, READ_MAX, 0);
    }
  }

  lemma {:induction false} SkipBlanksPrefix(l: string, n: nat, p: nat)
    requires p <= SkipBlanks(l, p) < n <= |l|
    ensures SkipBlanks(l[..n], p) == SkipBlanks(l, p)
    decreases n - p
  {
    if p < |l| && l[p] == ' ' {
      SkipBlanksPrefix(l, n, p + 1);
    }
  }

  // ---------- what the searches find ----------

  lemma {:induction false} SkipBlanksIs(buf: string, p: nat)
    ensures var q := SkipBlanks(buf, p);
      CharAt(buf, q) != ' ' && forall i :: p <= i < q ==> CharAt(buf, i) == ' '
    decreases |buf| - p
  {
    if CharAt(buf, p) == ' ' { SkipBlanksIs(buf, p + 1); }
  }

  lemma {:induction false} FindIs(buf: string, p: nat, c: char)
    requires c != '\0'
    ensures match Find(buf, p, c)
            case Some(q) => CharAt(buf, q) == c && forall i :: p <= i < q ==> CharAt(buf, i) != c && CharAt(buf, i) != '\0'
            case None => exists e :: e >= p && CharAt(buf, e) == '\0' && forall i :: p <= i < e ==> CharAt(buf, i) != c
    decreases |buf| - p
  {
    if CharAt(buf, p) != '\0' && CharAt(buf, p) != c { FindIs(buf, p + 1, c); }
  }

  /** Formats: no preamble, [X], [X:Y], one that is too long, and one that is not closed. */
  lemma Formats(buf: string, p: nat)
    ensures CharAt(buf, p) != '[' ==> InputFormat(buf, p) == Some(Format(true, true))
    ensures CharAt(buf, p) == '[' && Find(buf, p, ']') == None ==> InputFormat(buf, p) == None
    ensures CharAt(buf, p) == '[' && Find(buf, p, ']').Some? && Find(buf, p, ']').value > p + 4
            ==> InputFormat(buf, p) == None
    ensures CharAt(buf, p) == '[' && IsAlpha(CharAt(buf, p + 1)) && Find(buf, p, ']') == Some(p + 2)
            ==> var x := CharAt(buf, p + 1);
                InputFormat(buf, p) == Some(Format(x !in {'D', 'd', 'B', 'b'}, x !in {'S', 's'}))
    ensures CharAt(buf, p) == '[' && IsAlpha(CharAt(buf, p + 1)) && CharAt(buf, p + 2) == ':'
            && IsAlpha(CharAt(buf, p + 3)) && Find(buf, p, ']') == Some(p + 4)
            ==> var x, y := CharAt(buf, p + 1), CharAt(buf, p + 3);
                InputFormat(buf, p)
                == Some(Format(x !in {'D', 'd', 'B', 'b'}, x !in {'S', 's'} && y !in {'S', 's'}))
  {
    hide Find;
    var none := Preamble('\0', '\0');
    var x, y := CharAt(buf, p + 1), CharAt(buf, p + 3);
    if IsAlpha(x) {
      OneLetter(buf, p, x);
      if CharAt(buf, p + 2) == ':' && IsAlpha(y) { TwoLetters(buf, p, x, y); }
    }
  }

  lemma OneLetter(buf: string, p: nat, x: char)
    requires CharAt(buf, p + 1) == x && IsAlpha(x)
    ensures Letters(buf, p + 1, p + 2, false, Preamble('\0', '\0')) == Preamble(ToUpper(x), '\0')
  {
    assert Letters(buf, p + 2, p + 2, false, Preamble(ToUpper(x), '\0')) == Preamble(ToUpper(x), '\0');
  }

  lemma TwoLetters(buf: string, p: nat, x: char, y: char)
    requires CharAt(buf, p + 1) == x && CharAt(buf, p + 2) == ':' && CharAt(buf, p + 3) == y
    requires IsAlpha(x) && IsAlpha(y)
    ensures Letters(buf, p + 1, p + 4, false, Preamble('\0', '\0')) == Preamble(ToUpper(x), ToUpper(y))
  {
    var one := Preamble(ToUpper(x), '\0');
    var two := Preamble(ToUpper(x), ToUpper(y));
    assert Letters(buf, p + 4, p + 4, true, two) == two;
    assert Letters(buf, p + 3, p + 4, true, one) == two;
    assert Letters(buf, p + 2, p + 4, false, one) == two;
  }
}
