/** What the configuration parser guarantees: writes in bounds, and a round trip. */
module PsConfigTheorems {
  import opened Wrappers
  import opened Bytes
  import opened CText
  import opened Stdio
  import opened PsConfig
  import opened PsConfigLines

  // ---------- writes stay in bounds ----------

  /** The data bytes written and still to come make up the data of the current tag. */
  ghost predicate Shape(st: State) {
    && |st.list| == MAX_TAGS && st.tagCnt < MAX_TAGS
    && (st.section != Data ==> st.byteCount == 0)
    && (st.section == Data && st.remaining > 0
        ==> st.byteCount + st.remaining == |st.list[st.tagCnt].data|)
  }

  lemma {:induction false} FillDataRange(buf: string, p: nat, charCnt: nat, data: seq<Byte>, byteCount: nat, count: int)
    requires byteCount <= |data|
    ensures var r := FillData(buf, p, charCnt, data, byteCount, count);
            && (r.TooFar? <==> count > 0 && byteCount + count + count % 2 > |data|)
            && (r.Filled? ==> |r.data| == |data| && r.byteCount == byteCount + if count <= 0 then 0 else count + count % 2)
    decreases count
  {
    hide HexAt;
    if count > 0 && byteCount + 1 < |data| {
      FillDataRange(buf, p, charCnt + 6,
        data[byteCount := HexAt(buf, p + charCnt)][byteCount + 1 := HexAt(buf, p + charCnt + 3)],
        byteCount + 2, count - 2);
    }
  }

  /** A data line writes behind its tag's data exactly when it holds hexadecimal data and an odd
      number of fewer than 16 bytes is still to come. */
  lemma {:induction false} OverrunIff(st: State, buf: string, p: nat)
    requires Shape(st) && st.section == Data
    ensures var f := if st.lineCount == 0 then InputFormat(buf, p) else Some(st.format);
            DataLine(st, buf, p).Overrun?
            <==> f.Some? && f.value.hex && f.value.isArray
                 && 0 < st.remaining < ENTRY_PER_LINE && st.remaining % 2 == 1
  {
    hide FillData, InputFormat, BehindPreamble;
    var start := BehindPreamble(buf, p);
    var charCnt := if start.Some? then start.value - p else 0;
    if st.remaining > 0 {
      FillDataRange(buf, p, charCnt, st.list[st.tagCnt].data, st.byteCount, LineQuota(st.remaining));
    } else {
      NothingToFill(buf, p, charCnt, st.list[st.tagCnt].data, st.byteCount, st.remaining);
    }
  }

  lemma NothingToFill(buf: string, p: nat, charCnt: nat, data: seq<Byte>, byteCount: nat, count: int)
    requires count <= 0
    ensures FillData(buf, p, charCnt, data, byteCount, count) == Filled(data, charCnt, byteCount)
  {
  }

  lemma {:induction false} StepKeepsShape(st: State, buf: string, heap: nat -> Byte)
    requires Shape(st) && Step(st, buf, heap).Go?
    ensures Shape(Step(st, buf, heap).st)
  {
    hide FillData, InputFormat, BehindPreamble, SectionNumber, ToInt16, SkipBlanks;
    var p := SkipBlanks(buf, 0);
    if st.section == Data {
      var start := BehindPreamble(buf, p);
      var charCnt := if start.Some? then start.value - p else 0;
      if st.remaining > 0 {
        FillDataRange(buf, p, charCnt, st.list[st.tagCnt].data, st.byteCount, LineQuota(st.remaining));
      } else {
        NothingToFill(buf, p, charCnt, st.list[st.tagCnt].data, st.byteCount, st.remaining);
      }
    }
  }

  /** No line of the rest of the file declares an odd number of data bytes. */
  ghost predicate EvenLengths(st: State, buf: string, text: string, pos: nat, heap: nat -> Byte)
    requires |st.list| == MAX_TAGS && st.tagCnt < MAX_TAGS && |buf| == BUFFER_SIZE && pos <= |text|
    decreases |text| - pos
  {
    pos < |text| ==>
      var e := LineEnd(text, pos, LINE_SIZE_MAX - 1);
      var filled := Fill(buf, text[pos..e]);
      var r := Step(st, filled, heap);
      r.Go? ==> (st.section == Len && r.st.section == Data ==> r.st.remaining <= 0 || r.st.remaining % 2 == 0)
                && EvenLengths(r.st, filled, text, e, heap)
  }

  /** A file whose declared lengths are even is parsed without leaving any tag's data, whatever its
      lines contain. */
  lemma {:induction false} EvenFileSafe(st: State, buf: string, text: string, pos: nat, heap: nat -> Byte)
    requires Shape(st) && |buf| == BUFFER_SIZE && pos <= |text|
    requires st.section == Data && st.remaining > 0 ==> st.remaining % 2 == 0
    requires EvenLengths(st, buf, text, pos, heap)
    ensures !Run(st, buf, text, pos, heap).Overran?
    decreases |text| - pos
  {
    hide Fill, Step, DataLine;
    if pos < |text| {
      var e := LineEnd(text, pos, LINE_SIZE_MAX - 1);
      var filled := Fill(buf, text[pos..e]);
      var r := Step(st, filled, heap);
      StepSafe(st, filled, heap);
      if r.Go? {
        StepKeepsShape(st, filled, heap);
        EvenFileSafe(r.st, filled, text, e, heap);
      }
    }
  }

  /** The line is a hexadecimal data line and an odd number of fewer than 16 bytes is still to come. */
  predicate OddEnd(st: State, buf: string) {
    var p := SkipBlanks(buf, 0);
    var f := if st.lineCount == 0 then InputFormat(buf, p) else Some(st.format);
    && st.section.Data? && 0 < st.remaining < ENTRY_PER_LINE && st.remaining % 2 == 1
    && !(CharAt(buf, p) == '/' && CharAt(buf, p + 1) == '/') && CharAt(buf, p) != '#'
    && f.Some? && f.value.hex && f.value.isArray
  }

  /** Some line of the rest of the file, reached without an error, is such a line. */
  ghost predicate ReachesOddEnd(st: State, buf: string, text: string, pos: nat, heap: nat -> Byte)
    requires Sized(st) && |buf| == BUFFER_SIZE && pos <= |text|
    decreases |text| - pos
  {
    pos < |text| &&
      var e := LineEnd(text, pos, LINE_SIZE_MAX - 1);
      var filled := Fill(buf, text[pos..e]);
      var r := Step(st, filled, heap);
      OddEnd(st, filled) || (r.Go? && ReachesOddEnd(r.st, filled, text, e, heap))
  }

  /** A file is parsed beyond some tag's data exactly when it reaches the last data line of a tag
      with an odd length. */
  lemma {:induction false} FileOverrunIff(st: State, buf: string, text: string, pos: nat, heap: nat -> Byte)
    requires Shape(st) && |buf| == BUFFER_SIZE && pos <= |text|
    ensures Run(st, buf, text, pos, heap).Overran? <==> ReachesOddEnd(st, buf, text, pos, heap)
    decreases |text| - pos
  {
    hide Fill, Step, OddEnd;
    if pos < |text| {
      var e := LineEnd(text, pos, LINE_SIZE_MAX - 1);
      var filled := Fill(buf, text[pos..e]);
      var r := Step(st, filled, heap);
      StepOverrunIff(st, filled, heap);
      if r.Go? {
        StepKeepsShape(st, filled, heap);
        FileOverrunIff(r.st, filled, text, e, heap);
      }
    }
  }

  lemma StepOverrunIff(st: State, buf: string, heap: nat -> Byte)
    requires Shape(st)
    ensures Step(st, buf, heap).Overrun? <==> OddEnd(st, buf)
  {
    hide DataLine, InputFormat, SectionNumber, SkipBlanks, Malloc;
    if st.section == Data { OverrunIff(st, buf, SkipBlanks(buf, 0)); }
  }

  lemma {:induction false} StepSafe(st: State, buf: string, heap: nat -> Byte)
    requires Shape(st) && (st.section == Data && st.remaining > 0 ==> st.remaining % 2 == 0)
    ensures !Step(st, buf, heap).Overrun?
    ensures var r := Step(st, buf, heap);
            r.Go? && r.st.section == Data && r.st.remaining > 0 && st.section != Len ==> r.st.remaining % 2 == 0
  {
    hide FillData, InputFormat, BehindPreamble, SectionNumber, SkipBlanks, Malloc;
    if st.section == Data { OverrunIff(st, buf, SkipBlanks(buf, 0)); }
  }

  // ---------- printing ----------

  predicate Printable(t: Tag) {
    0 <= t.id < 0x1_0000 && 1 <= t.len <= 500 && |t.data| == t.len
  }

  predicate Even(t: Tag) { t.len % 2 == 0 }

  /** The data line that starts at byte m is full or ends a tag of even length. */
  predicate EvenLine(t: Tag, m: nat) { t.len - m >= ENTRY_PER_LINE || Even(t) }

  function HexByte(v: Byte): string { [DigitChar(v / 16), DigitChar(v % 16)] }

  function DataText(b: seq<Byte>): string {
    if b == [] then "\n" else if |b| == 1 then HexByte(b[0]) + "\n" else HexByte(b[0]) + " " + DataText(b[1..])
  }

  /** What a data line may start with: nothing, or the preamble of an array. */
  type DataPreamble = p: string | p == "" || p == "[A]"

  /** The data line for up to 16 bytes. */
  function LineOf(b: seq<Byte>, pre: DataPreamble): string { pre + DataText(b) }

  function ChunkSize(n: nat): nat { if n <= 16 then n else 16 }

  function DataLines(b: seq<Byte>, pre: DataPreamble): seq<string>
    decreases |b|
  {
    if b == [] then [] else [LineOf(b[..ChunkSize(|b|)], pre)] + DataLines(b[ChunkSize(|b|)..], pre)
  }

  function NumberLine(n: nat): string { "[S]" + PrintNat(n, 16) + "\n" }

  function TagLines(t: Tag, pre: DataPreamble): seq<string>
    requires Printable(t)
  {
    ["#\n", NumberLine(t.id), NumberLine(t.len)] + DataLines(t.data, pre)
  }

  function PrintTags(ts: seq<Tag>, pre: DataPreamble): seq<string>
    requires forall i :: 0 <= i < |ts| ==> Printable(ts[i])
  {
    if ts == [] then [] else TagLines(ts[0], pre) + PrintTags(ts[1..], pre)
  }

  /** The line is one read of the parser. */
  predicate Whole(l: string) { Line(l) && |l| < LINE_SIZE_MAX }

  function Strip(ls: seq<string>): seq<string> {
    if ls == [] then [] else if IsComment(ls[0]) then Strip(ls[1..]) else [ls[0]] + Strip(ls[1..])
  }

  function Join(ls: seq<string>): string {
    if ls == [] then "" else ls[0] + Join(ls[1..])
  }

  // ---------- moves ----------

  /** Whatever the line buffer held before, the line takes the parser from st to t. */
  ghost predicate Moves(st: State, l: string, t: State, heap: nat -> Byte) {
    && |st.list| == MAX_TAGS && st.tagCnt < MAX_TAGS && |l| < LINE_SIZE_MAX
    && forall buf: string :: |buf| == BUFFER_SIZE ==> Step(st, Fill(buf, l), heap) == Go(t)
  }

  ghost predicate Path(st: State, ls: seq<string>, t: State, heap: nat -> Byte)
    decreases |ls|
  {
    if ls == [] then st == t
    else exists mid :: Moves(st, ls[0], mid, heap) && Path(mid, ls[1..], t, heap)
  }

  lemma {:induction false} PathConcat(a: State, ls: seq<string>, b: State, ms: seq<string>, c: State, heap: nat -> Byte)
    requires Path(a, ls, b, heap) && Path(b, ms, c, heap)
    ensures Path(a, ls + ms, c, heap)
    decreases |ls|
  {
    hide Moves;
    if ls == [] {
      assert ls + ms == ms;
    } else {
      var mid :| Moves(a, ls[0], mid, heap) && Path(mid, ls[1..], b, heap);
      PathConcat(mid, ls[1..], b, ms, c, heap);
      assert (ls + ms)[1..] == ls[1..] + ms && (ls + ms)[0] == ls[0];
    }
  }

  lemma PathStep(a: State, l: string, b: State, ms: seq<string>, c: State, heap: nat -> Byte)
    requires Moves(a, l, b, heap) && Path(b, ms, c, heap)
    ensures Path(a, [l] + ms, c, heap)
  {
    hide Moves;
    assert ([l] + ms)[1..] == ms;
  }

  // ---------- the three kinds of lines ----------

  /** Between two tags. */
  function Between(list: seq<Tag>, k: nat, f: Format): State { State(Undef, 0, 0, 0, 0, f, list, k) }

  lemma HashMoves(list: seq<Tag>, k: nat, f: Format, heap: nat -> Byte)
    requires |list| == MAX_TAGS && k < MAX_TAGS
    ensures Moves(Between(list, k, f), "#\n", Between(list, k, f).(section := Id), heap)
  {
    hide Fill;
    forall buf: string | |buf| == BUFFER_SIZE
      ensures Step(Between(list, k, f), Fill(buf, "#\n"), heap) == Go(Between(list, k, f).(section := Id))
    {
      FilledChars(buf, "#\n");
    }
  }

  lemma NumberLineReads(buf: string, n: nat)
    requires |buf| == BUFFER_SIZE && n < 0x1_0000
    ensures |NumberLine(n)| < LINE_SIZE_MAX
    ensures var b := Fill(buf, NumberLine(n));
            && SkipBlanks(b, 0) == 0 && CharAt(b, 0) == '['
            && InputFormat(b, 0) == Some(Format(true, false))
            && SectionNumber(b, 0, Format(true, false)) == n
  {
    hide Strtol, PrintNat, Fill;
    var ds := PrintNat(n, 16);
    assert Power(16, 4) == 65536;
    PrintedLength(n, 16, 4);
    PrintedDigits(n, 16);
    var l := NumberLine(n);
    var b := Fill(buf, l);
    FilledChars(buf, l);
    assert l[0] == '[' && l[1] == 'S' && l[2] == ']';
    assert CharAt(b, 0) == '[' && CharAt(b, 1) == 'S' && CharAt(b, 2) == ']';
    assert Find(b, 1, ']') == Find(b, 2, ']') == Some(2);
    assert Find(b, 0, ']') == Some(2);
    SingleLetter(b);
    assert l[3..3 + |ds|] == ds && l[3 + |ds|] == '\n';
    forall i | 3 <= i < 3 + |ds| ensures b[i] == ds[i - 3] { assert b[i] == CharAt(b, i) == l[i]; }
    assert b[3..3 + |ds|] == ds;
    StrtolPrintedNat(b, 3, 3 + |ds|, n, 16);
  }

  lemma SingleLetter(b: string)
    requires CharAt(b, 1) == 'S'
    ensures Letters(b, 1, 2, false, Preamble('\0', '\0')) == Preamble('S', '\0')
  {
    assert Letters(b, 2, 2, false, Preamble('S', '\0')) == Preamble('S', '\0');
  }

  lemma IdMoves(list: seq<Tag>, k: nat, f: Format, id: nat, heap: nat -> Byte)
    requires |list| == MAX_TAGS && k < MAX_TAGS && id < 0x1_0000
    ensures Moves(Between(list, k, f).(section := Id), NumberLine(id),
                  Between(list[k := list[k].(id := id)], k, Format(true, false)).(section := Len), heap)
  {
    hide Fill, InputFormat, SectionNumber, NumberLine, SkipBlanks;
    forall buf: string | |buf| == BUFFER_SIZE
      ensures |NumberLine(id)| < LINE_SIZE_MAX
      ensures Step(Between(list, k, f).(section := Id), Fill(buf, NumberLine(id)), heap)
              == Go(Between(list[k := list[k].(id := id)], k, Format(true, false)).(section := Len))
    {
      NumberLineReads(buf, id);
    }
    NumberLineReads(seq(BUFFER_SIZE, _ => ' '), id);
  }

  /** m bytes of the data of tag k have been read. */
  function Reading(list: seq<Tag>, k: nat, t: Tag, m: nat, heap: nat -> Byte, pre: DataPreamble): State
    requires |list| == MAX_TAGS && k < MAX_TAGS && Printable(t) && m <= t.len
  {
    State(Data, m / 16, if m == 0 then 0 else |pre| + 48, m, t.len - m, Format(true, m != 0),
          list[k := t.(data := t.data[..m] + Malloc(t.len, heap)[m..])], k)
  }

  lemma LenMoves(list: seq<Tag>, k: nat, t: Tag, heap: nat -> Byte, pre: DataPreamble)
    requires |list| == MAX_TAGS && k < MAX_TAGS && Printable(t) && list[k].id == t.id
    ensures Moves(Between(list, k, Format(true, false)).(section := Len), NumberLine(t.len),
                  Reading(list, k, t, 0, heap, pre), heap)
  {
    hide Fill, InputFormat, SectionNumber, NumberLine, SkipBlanks, Malloc;
    var tag := list[k].(len := t.len, data := Malloc(t.len, heap));
    assert t.data[..0] + Malloc(t.len, heap)[0..] == Malloc(t.len, heap);
    assert tag == t.(data := Malloc(t.len, heap));
    forall buf: string | |buf| == BUFFER_SIZE
      ensures |NumberLine(t.len)| < LINE_SIZE_MAX
      ensures Step(Between(list, k, Format(true, false)).(section := Len), Fill(buf, NumberLine(t.len)), heap)
              == Go(Reading(list, k, t, 0, heap, pre))
    {
      NumberLineReads(buf, t.len);
    }
    NumberLineReads(seq(BUFFER_SIZE, _ => ' '), t.len);
  }

  // ---------- data lines ----------

  /** The text of n bytes: byte j stands in columns 3j and 3j + 1. */
  lemma {:induction false} DataTextColumns(b: seq<Byte>, j: nat)
    requires b != []
    ensures |DataText(b)| == 3 * |b| && DataText(b)[3 * |b| - 1] == '\n'
    ensures j < |b| ==> DataText(b)[3 * j] == HexByte(b[j])[0] && DataText(b)[3 * j + 1] == HexByte(b[j])[1]
    decreases |b|
  {
    if |b| > 1 {
      DataTextColumns(b[1..], if j == 0 then 0 else j - 1);
      var rest := DataText(b[1..]);
      assert DataText(b) == HexByte(b[0]) + " " + rest;
      if 0 < j < |b| {
        assert DataText(b)[3 * j] == rest[3 * (j - 1)] && DataText(b)[3 * j + 1] == rest[3 * (j - 1) + 1];
      }
    }
  }

  /** The text of a data line: byte j stands behind the preamble in columns 3j and 3j + 1. */
  lemma LineColumns(b: seq<Byte>, j: nat, pre: DataPreamble)
    requires 0 < |b| <= 16
    ensures |LineOf(b, pre)| == |pre| + 3 * |b| < LINE_SIZE_MAX
    ensures j < |b| ==> LineOf(b, pre)[|pre| + 3 * j] == HexByte(b[j])[0]
                        && LineOf(b, pre)[|pre| + 3 * j + 1] == HexByte(b[j])[1]
  {
    hide DataText;
    DataTextColumns(b, j);
  }

  /** How the parser takes the beginning of a data line. */
  lemma LineHead(buf: string, b: seq<Byte>, pre: DataPreamble)
    requires |buf| == BUFFER_SIZE && 0 < |b| <= 16
    ensures |LineOf(b, pre)| < LINE_SIZE_MAX
    ensures var f := Fill(buf, LineOf(b, pre));
      && SkipBlanks(f, 0) == 0 && CharAt(f, 0) != '/' && CharAt(f, 0) != '#'
      && InputFormat(f, 0) == Some(Format(true, true)) && BehindPreamble(f, 0) == Some(|pre|)
  {
    hide Fill, DataText;
    LineColumns(b, 0, pre);
    FirstColumnPlain(b);
    var f, l := Fill(buf, LineOf(b, pre)), LineOf(b, pre);
    FilledChars(buf, l);
    if pre == "[A]" {
      assert l[0] == '[' && l[1] == 'A' && l[2] == ']';
      assert CharAt(f, 0) == '[' && CharAt(f, 1) == 'A' && CharAt(f, 2) == ']';
      assert Find(f, 1, ']') == Find(f, 2, ']') == Some(2);
      assert Find(f, 0, ']') == Some(2);
      assert Letters(f, 2, 2, false, Preamble('A', '\0')) == Preamble('A', '\0');
    } else {
      assert CharAt(f, 0) == l[0] == DataText(b)[0];
    }
  }

  lemma HexByteReads(v: Byte)
    ensures Strtol(HexByte(v), 0, 16).0 % 256 == v
    ensures HexByte(v)[0] != '\0' && HexByte(v)[1] != '\0'
  {
    hide Strtol;
    StrtolPair(DigitChar(v / 16), DigitChar(v % 16));
    DigitIsPlain(DigitChar(v / 16), 16);
  }

  lemma HexAtColumn(buf: string, b: seq<Byte>, j: nat, pre: DataPreamble)
    requires |buf| == BUFFER_SIZE && 0 < |b| <= 16 && j < |b|
    ensures |LineOf(b, pre)| < LINE_SIZE_MAX && HexAt(Fill(buf, LineOf(b, pre)), |pre| + 3 * j) == b[j]
  {
    hide Strtol, Fill, HexByte, LineOf;
    LineColumns(b, j, pre);
    FilledChars(buf, LineOf(b, pre));
    HexByteReads(b[j]);
    TwoOf(b[j]);
    assert TwoChars(Fill(buf, LineOf(b, pre)), |pre| + 3 * j) == HexByte(b[j]);
  }

  lemma TwoOf(v: Byte)
    ensures |HexByte(v)| == 2
  {
  }

  lemma SpliceTwo(data: seq<Byte>, b: seq<Byte>, m: nat, j: nat)
    requires j + 2 <= |b| && m + |b| <= |data|
    ensures var data' := data[m + j := b[j]][m + j + 1 := b[j + 1]];
      data'[..m + (j + 2)] + b[j + 2..] + data'[m + |b|..] == data[..m + j] + b[j..] + data[m + |b|..]
  {
    var data' := data[m + j := b[j]][m + j + 1 := b[j + 1]];
    assert data'[..m + j + 2] == data[..m + j] + [b[j], b[j + 1]];
    assert b[j..] == [b[j], b[j + 1]] + b[j + 2..];
    assert data'[m + |b|..] == data[m + |b|..];
  }

  lemma FillTwo(buf: string, charCnt: nat, data: seq<Byte>, byteCount: nat, count: int)
    requires count > 0 && byteCount + 1 < |data|
    ensures FillData(buf, 0, charCnt, data, byteCount, count)
            == FillData(buf, 0, charCnt + 6,
                        data[byteCount := HexAt(buf, charCnt)][byteCount + 1 := HexAt(buf, charCnt + 3)],
                        byteCount + 2, count - 2)
  {
    hide HexAt;
  }

  /** Reading on from an even byte of the line copies the rest of the line into the data. */
  lemma {:induction false} FillDataReads(buf: string, b: seq<Byte>, j: nat, data: seq<Byte>, m: nat, pre: DataPreamble)
    requires |buf| == BUFFER_SIZE && 0 < |b| <= 16 && |b| % 2 == 0 && j % 2 == 0 && j <= |b|
    requires m + |b| <= |data|
    ensures |LineOf(b, pre)| < LINE_SIZE_MAX
    ensures FillData(Fill(buf, LineOf(b, pre)), 0, |pre| + 3 * j, data, m + j, |b| - j)
            == Filled(data[..m + j] + b[j..] + data[m + |b|..], |pre| + 3 * |b|, m + |b|)
    decreases |b| - j
  {
    hide HexAt, Fill, LineOf, FillData;
    LineColumns(b, 0, pre);
    if j < |b| {
      var f := Fill(buf, LineOf(b, pre));
      HexAtColumn(buf, b, j, pre);
      HexAtColumn(buf, b, j + 1, pre);
      var data' := data[m + j := b[j]][m + j + 1 := b[j + 1]];
      FillDataReads(buf, b, j + 2, data', m, pre);
      SpliceTwo(data, b, m, j);
      FillTwo(f, |pre| + 3 * j, data, m + j, |b| - j);
    } else {
      NothingToFill(Fill(buf, LineOf(b, pre)), 0, |pre| + 3 * j, data, m + j, 0);
      assert data[..m + j] + b[j..] + data[m + |b|..] == data;
    }
  }

  /** After the data line that starts at byte m. */
  function AfterData(list: seq<Tag>, k: nat, t: Tag, m: nat, heap: nat -> Byte, pre: DataPreamble): State
    requires |list| == MAX_TAGS && k + 1 < MAX_TAGS && Printable(t) && m < t.len
  {
    var m' := m + ChunkSize(t.len - m);
    if m' == t.len then Between(list[k := t], k + 1, Format(true, true)) else Reading(list, k, t, m', heap, pre)
  }

  lemma {:induction false} DataLineStep(list: seq<Tag>, k: nat, t: Tag, m: nat, heap: nat -> Byte, buf: string, pre: DataPreamble)
    requires |list| == MAX_TAGS && k + 1 < MAX_TAGS && Printable(t) && m < t.len && m % 16 == 0 && EvenLine(t, m)
    requires |buf| == BUFFER_SIZE
    ensures var l := LineOf(t.data[m..][..ChunkSize(t.len - m)], pre);
            |l| < LINE_SIZE_MAX
            && Step(Reading(list, k, t, m, heap, pre), Fill(buf, l), heap) == Go(AfterData(list, k, t, m, heap, pre))
  {
    hide FillData, Fill, LineOf, Malloc, HexByte, InputFormat, BehindPreamble, SkipBlanks;
    var b := t.data[m..][..ChunkSize(t.len - m)];
    var junk := Malloc(t.len, heap);
    var st := Reading(list, k, t, m, heap, pre);
    var data := t.data[..m] + junk[m..];
    LineColumns(b, 0, pre);
    var f := Fill(buf, LineOf(b, pre));
    FilledChars(buf, LineOf(b, pre));
    LineHead(buf, b, pre);
    FillDataReads(buf, b, 0, data, m, pre);
    DataSplice(t.data, junk, m, |b|);
    assert st.list[k := t.(data := t.data[..m + |b|] + junk[m + |b|..])]
           == list[k := t.(data := t.data[..m + |b|] + junk[m + |b|..])];
  }

  /** Copying the next n bytes extends what has been read by them. */
  lemma DataSplice(all: seq<Byte>, junk: seq<Byte>, m: nat, n: nat)
    requires |all| == |junk| && m + n <= |all|
    ensures var data := all[..m] + junk[m..];
      data[..m + 0] + all[m..][..n][0..] + data[m + n..] == all[..m + n] + junk[m + n..]
    ensures m + n == |all| ==> all[..m + n] + junk[m + n..] == all
  {
    var data, b := all[..m] + junk[m..], all[m..][..n];
    assert data[..m] == all[..m];
    assert data[m + n..] == junk[m + n..];
    assert b[0..] == b && all[..m + n] == all[..m] + b;
  }

  lemma FirstColumnPlain(b: seq<Byte>)
    requires b != []
    ensures |DataText(b)| > 0 && IsDigit(DataText(b)[0], 16)
  {
    DataTextColumns(b, 0);
  }

  lemma DataMoves(list: seq<Tag>, k: nat, t: Tag, m: nat, heap: nat -> Byte, pre: DataPreamble)
    requires |list| == MAX_TAGS && k + 1 < MAX_TAGS && Printable(t) && m < t.len && m % 16 == 0 && EvenLine(t, m)
    ensures Moves(Reading(list, k, t, m, heap, pre), LineOf(t.data[m..][..ChunkSize(t.len - m)], pre),
                  AfterData(list, k, t, m, heap, pre), heap)
  {
    hide LineOf, Step, Fill, Reading, AfterData;
    ReadingFits(list, k, t, m, heap, pre);
    forall buf: string | |buf| == BUFFER_SIZE
      ensures var l := LineOf(t.data[m..][..ChunkSize(t.len - m)], pre);
              |l| < LINE_SIZE_MAX && Step(Reading(list, k, t, m, heap, pre), Fill(buf, l), heap) == Go(AfterData(list, k, t, m, heap, pre))
    {
      DataLineStep(list, k, t, m, heap, buf, pre);
    }
    DataLineStep(list, k, t, m, heap, seq(BUFFER_SIZE, _ => ' '), pre);
  }

  lemma ReadingFits(list: seq<Tag>, k: nat, t: Tag, m: nat, heap: nat -> Byte, pre: DataPreamble)
    requires |list| == MAX_TAGS && k < MAX_TAGS && Printable(t) && m <= t.len
    ensures |Reading(list, k, t, m, heap, pre).list| == MAX_TAGS && Reading(list, k, t, m, heap, pre).tagCnt == k
  {
  }

  lemma {:induction false} DataPath(list: seq<Tag>, k: nat, t: Tag, m: nat, heap: nat -> Byte, pre: DataPreamble)
    requires |list| == MAX_TAGS && k + 1 < MAX_TAGS && Printable(t) && m < t.len && m % 16 == 0 && Even(t)
    ensures Path(Reading(list, k, t, m, heap, pre), DataLines(t.data[m..], pre), Between(list[k := t], k + 1, Format(true, true)), heap)
    decreases t.len - m
  {
    hide LineOf, Moves, Malloc;
    var b := t.data[m..];
    var mid := AfterData(list, k, t, m, heap, pre);
    var m' := m + ChunkSize(t.len - m);
    DataMoves(list, k, t, m, heap, pre);
    assert b[ChunkSize(|b|)..] == t.data[m'..];
    if m' < t.len {
      DataPath(list, k, t, m', heap, pre);
    } else {
      assert t.data[m'..] == [];
    }
    PathStep(Reading(list, k, t, m, heap, pre), LineOf(b[..ChunkSize(|b|)], pre), mid, DataLines(t.data[m'..], pre),
             Between(list[k := t], k + 1, Format(true, true)), heap);
  }

  lemma TagPath(list: seq<Tag>, k: nat, f: Format, t: Tag, heap: nat -> Byte, pre: DataPreamble)
    requires |list| == MAX_TAGS && k + 1 < MAX_TAGS && Printable(t) && Even(t)
    ensures Path(Between(list, k, f), TagLines(t, pre), Between(list[k := t], k + 1, Format(true, true)), heap)
  {
    hide Moves, Path, DataLines, NumberLine;
    var list' := list[k := list[k].(id := t.id)];
    var a := Between(list, k, f);
    var b := a.(section := Id);
    var c := Between(list', k, Format(true, false)).(section := Len);
    var d := Reading(list', k, t, 0, heap, pre);
    var e := Between(list'[k := t], k + 1, Format(true, true));
    HashMoves(list, k, f, heap);
    IdMoves(list, k, f, t.id, heap);
    LenMoves(list', k, t, heap, pre);
    DataPath(list', k, t, 0, heap, pre);
    assert t.data[0..] == t.data && list'[k := t] == list[k := t];
    PathStep(c, NumberLine(t.len), d, DataLines(t.data, pre), e, heap);
    PathStep(b, NumberLine(t.id), c, [NumberLine(t.len)] + DataLines(t.data, pre), e, heap);
    PathStep(a, "#\n", b, [NumberLine(t.id)] + ([NumberLine(t.len)] + DataLines(t.data, pre)), e, heap);
    assert TagLines(t, pre) == ["#\n"] + ([NumberLine(t.id)] + ([NumberLine(t.len)] + DataLines(t.data, pre)));
  }

  /** The list with the tags written from index k on. */
  function Store(list: seq<Tag>, k: nat, ts: seq<Tag>): (r: seq<Tag>)
    requires k + |ts| <= |list|
    ensures |r| == |list|
    decreases |ts|
  {
    if ts == [] then list else Store(list[k := ts[0]], k + 1, ts[1..])
  }

  lemma {:induction false} StoredTags(list: seq<Tag>, k: nat, ts: seq<Tag>)
    requires k + |ts| <= |list|
    ensures Store(list, k, ts) == list[..k] + ts + list[k + |ts|..]
    decreases |ts|
  {
    if ts != [] {
      StoredTags(list[k := ts[0]], k + 1, ts[1..]);
      assert list[k := ts[0]][..k + 1] == list[..k] + [ts[0]];
      assert list[k := ts[0]][k + 1 + |ts[1..]|..] == list[k + |ts|..];
    }
  }

  lemma {:induction false} TagsPath(list: seq<Tag>, k: nat, f: Format, ts: seq<Tag>, heap: nat -> Byte, pre: DataPreamble)
    requires |list| == MAX_TAGS && k + |ts| < MAX_TAGS
    requires forall i :: 0 <= i < |ts| ==> Printable(ts[i]) && Even(ts[i])
    ensures Path(Between(list, k, f), PrintTags(ts, pre),
                 Between(Store(list, k, ts), k + |ts|, if ts == [] then f else Format(true, true)), heap)
    decreases |ts|
  {
    hide Moves, TagLines;
    if ts != [] {
      var list' := list[k := ts[0]];
      TagPath(list, k, f, ts[0], heap, pre);
      TagsPath(list', k + 1, Format(true, true), ts[1..], heap, pre);
      PathConcat(Between(list, k, f), TagLines(ts[0], pre), Between(list', k + 1, Format(true, true)),
                 PrintTags(ts[1..], pre), Between(Store(list', k + 1, ts[1..]), k + |ts|, Format(true, true)), heap);
    }
  }

  // ---------- from paths to the file ----------

  lemma CommentStays(st: State, buf: string, l: string, heap: nat -> Byte)
    requires |st.list| == MAX_TAGS && st.tagCnt < MAX_TAGS && |buf| == BUFFER_SIZE && |l| < LINE_SIZE_MAX
    requires IsComment(l)
    ensures Step(st, Fill(buf, l), heap) == Go(st)
  {
    hide Fill, IdLine, LenLine, DataLine;
    SkipBlanksFilled(buf, l, 0);
    FilledChars(buf, l);
  }

  /** The printed lines to come start with a tag, or there are none. */
  predicate AtTagStart(printed: seq<string>) { printed == [] || printed[0] == "#\n" }

  /** No comment line changes the parser: inside a tag all its pieces are comments, and between two
      tags none of them opens a tag unless it is a comment. */
  ghost predicate Calm(ls: seq<string>) {
    ls == []
    || (Calm(ls[1..])
        && (IsComment(ls[0]) ==>
              Line(ls[0]) && AllHarmless(if AtTagStart(Strip(ls[1..])) then Undef else Id, Pieces(ls[0]))))
  }

  /** A path to the state between two tags that starts with a tag starts between two tags. */
  lemma StartsBetween(st: State, ls: seq<string>, t: State, heap: nat -> Byte)
    requires Path(st, ls, t, heap) && t.section.Undef? && AtTagStart(ls)
    ensures st.section.Undef?
  {
    hide Step, Fill;
    if ls != [] {
      var mid :| Moves(st, ls[0], mid, heap) && Path(mid, ls[1..], t, heap);
      var buf := seq(BUFFER_SIZE, _ => ' ');
      MovesAt(st, buf, ls[0], mid, heap);
      HashStep(st, buf, heap);
    }
  }

  /** Reading a comment between the printed lines. */
  lemma CommentRead(st: State, buf: string, ls: seq<string>, t: State, heap: nat -> Byte)
    requires Sized(st) && |buf| == BUFFER_SIZE && t.section.Undef?
    requires ls != [] && IsComment(ls[0]) && Calm(ls) && Path(st, Strip(ls[1..]), t, heap)
    ensures ReadPieces(st, buf, Pieces(ls[0]), heap).result == Go(st)
  {
    hide Path, ReadPieces, Pieces, Strip, IsComment;
    if AtTagStart(Strip(ls[1..])) { StartsBetween(st, Strip(ls[1..]), t, heap); }
    assert AllHarmless(st.section, Pieces(ls[0]));
    PiecesUnchangedIff(st, buf, Pieces(ls[0]), heap);
  }

  lemma {:induction false} RunFollowsPath(st: State, buf: string, ls: seq<string>, t: State,
                                          text: string, pos: nat, heap: nat -> Byte)
    requires Sized(st) && |buf| == BUFFER_SIZE && pos <= |text| && t.section.Undef?
    requires text[pos..] == Join(ls) && Path(st, Strip(ls), t, heap)
    requires Calm(ls) && forall i :: 0 <= i < |ls| ==> IsComment(ls[i]) || Whole(ls[i])
    ensures Run(st, buf, text, pos, heap) == Parsed(t.tagCnt, t.list)
    decreases |ls|
  {
    hide Step, Fill, Moves, IsComment, ReadPieces, Pieces, Run, Calm, Join, Strip, Line, Whole;
    if ls == [] {
      NoLines();
      assert text[pos..] == "" && pos == |text|;
      RunAtEnd(st, buf, text, heap);
    } else {
      var l := ls[0];
      FirstLine(ls);
      RunReadsLine(st, buf, text, pos, l, Join(ls[1..]), heap);
      var r := ReadPieces(st, buf, Pieces(l), heap);
      if IsComment(l) {
        CommentRead(st, buf, ls, t, heap);
        RunFollowsPath(st, r.buf, ls[1..], t, text, pos + |l|, heap);
      } else {
        assert Strip(ls)[0] == l && Strip(ls)[1..] == Strip(ls[1..]);
        var mid :| Moves(st, l, mid, heap) && Path(mid, Strip(ls[1..]), t, heap);
        MovesAt(st, buf, l, mid, heap);
        WholeRead(st, buf, l, heap);
        RunFollowsPath(mid, r.buf, ls[1..], t, text, pos + |l|, heap);
      }
    }
  }

  /** The first of the lines, and what that leaves. */
  lemma FirstLine(ls: seq<string>)
    requires ls != [] && Calm(ls) && (IsComment(ls[0]) || Whole(ls[0]))
    ensures Line(ls[0]) && Calm(ls[1..]) && Join(ls) == ls[0] + Join(ls[1..])
    ensures Strip(ls) == if IsComment(ls[0]) then Strip(ls[1..]) else [ls[0]] + Strip(ls[1..])
  {
    hide IsComment, Line, AllHarmless, Pieces;
  }

  lemma NoLines()
    ensures Strip([]) == [] && Join([]) == ""
  {
  }

  lemma WholeRead(st: State, buf: string, l: string, heap: nat -> Byte)
    requires Sized(st) && |buf| == BUFFER_SIZE && Whole(l)
    ensures ReadPieces(st, buf, Pieces(l), heap) == AfterLine(Step(st, Fill(buf, l), heap), Fill(buf, l))
  {
    hide Step, Fill;
    var r := Step(st, Fill(buf, l), heap);
    assert Pieces(l) == [l] && [l][1..] == [];
    assert r.Go? ==> ReadPieces(r.st, Fill(buf, l), [], heap) == AfterLine(r, Fill(buf, l));
  }

  lemma MovesAt(st: State, buf: string, l: string, t: State, heap: nat -> Byte)
    requires Moves(st, l, t, heap) && |buf| == BUFFER_SIZE
    ensures |t.list| == MAX_TAGS && t.tagCnt < MAX_TAGS && Step(st, Fill(buf, l), heap) == Go(t)
  {
    hide Step, Fill;
    assert Step(st, Fill(buf, l), heap) == Go(t);
  }

  // ---------- printed lines are whole ----------

  lemma NumberLineWhole(n: nat)
    requires n < 0x1_0000
    ensures Whole(NumberLine(n))
  {
    hide PrintNat;
    var ds := PrintNat(n, 16);
    assert Power(16, 4) == 65536;
    PrintedLength(n, 16, 4);
    PrintedDigits(n, 16);
    var l := NumberLine(n);
    forall i | 0 <= i < |l| - 1 ensures l[i] != '\n' {
      if i >= 3 {
        assert l[i] == ds[i - 3];
        DigitIsPlain(ds[i - 3], 16);
      }
    }
  }

  lemma {:induction false} DataTextWhole(b: seq<Byte>)
    requires b != []
    ensures |DataText(b)| == 3 * |b| && DataText(b)[|DataText(b)| - 1] == '\n'
    ensures forall i :: 0 <= i < |DataText(b)| - 1 ==> DataText(b)[i] != '\n'
    decreases |b|
  {
    DigitIsPlain(DigitChar(b[0] / 16), 16);
    DigitIsPlain(DigitChar(b[0] % 16), 16);
    if |b| > 1 {
      DataTextWhole(b[1..]);
      var rest := DataText(b[1..]);
      assert DataText(b) == HexByte(b[0]) + " " + rest;
      forall i | 3 <= i < |DataText(b)| ensures DataText(b)[i] == rest[i - 3] {}
    }
  }

  lemma {:induction false} DataLinesWhole(b: seq<Byte>, pre: DataPreamble)
    ensures forall l :: l in DataLines(b, pre) ==> Whole(l)
    decreases |b|
  {
    hide DataText, LineOf, Whole;
    if b != [] {
      LineWhole(b[..ChunkSize(|b|)], pre);
      DataLinesWhole(b[ChunkSize(|b|)..], pre);
    }
  }

  lemma LineWhole(b: seq<Byte>, pre: DataPreamble)
    requires 0 < |b| <= 16
    ensures Whole(LineOf(b, pre))
  {
    hide DataText;
    DataTextWhole(b);
  }

  lemma {:induction false} PrintedWhole(ts: seq<Tag>, pre: DataPreamble)
    requires forall i :: 0 <= i < |ts| ==> Printable(ts[i])
    ensures forall l :: l in PrintTags(ts, pre) ==> Whole(l)
    decreases |ts|
  {
    hide NumberLine, DataLines, Whole;
    if ts != [] {
      assert Whole("#\n") by { HashWhole(); }
      NumberLineWhole(ts[0].id);
      NumberLineWhole(ts[0].len);
      DataLinesWhole(ts[0].data, pre);
      PrintedWhole(ts[1..], pre);
    }
  }

  lemma HashWhole()
    ensures Whole("#\n")
  {
  }

  lemma {:induction false} StripKeeps(ls: seq<string>, i: nat)
    requires i < |ls|
    ensures IsComment(ls[i]) || ls[i] in Strip(ls)
  {
    hide IsComment;
    if i > 0 { StripKeeps(ls[1..], i - 1); }
  }

  /** Round trip: the printed tags, with comment lines of any length between the printed lines that
      do not change the parser, are parsed to the same tags, for up to 49 of them; the rest of the
      tag list is untouched. */
  lemma {:induction false} PsRoundTrip(ts: seq<Tag>, ls: seq<string>, list: seq<Tag>, f: Format, stale: string, heap: nat -> Byte, pre: DataPreamble)
    requires |ts| <= 49 && |list| == 50 && |stale| == BUFFER_SIZE
    requires forall i :: 0 <= i < |ts| ==> Printable(ts[i]) && Even(ts[i])
    requires Strip(ls) == PrintTags(ts, pre) && Calm(ls)
    ensures Run(Start(list, f), stale, Join(ls), 0, heap) == Parsed(|ts|, ts + list[|ts|..])
  {
    hide Run, Path, Whole, IsComment, PrintTags, Calm;
    PrintedWhole(ts, pre);
    forall i | 0 <= i < |ls| ensures IsComment(ls[i]) || Whole(ls[i]) { StripKeeps(ls, i); }
    TagsPath(list, 0, f, ts, heap, pre);
    StoredTags(list, 0, ts);
    assert list[..0] + ts + list[0 + |ts|..] == ts + list[|ts|..];
    assert Join(ls)[0..] == Join(ls);
    RunFollowsPath(Start(list, f), stale, ls, Between(Store(list, 0, ts), |ts|, if ts == [] then f else Format(true, true)),
                   Join(ls), 0, heap);
  }

  /** Comment lines that are read at once never change the parser. */
  lemma {:induction false} ShortCommentsCalm(ls: seq<string>)
    requires forall i :: 0 <= i < |ls| && IsComment(ls[i]) ==> Line(ls[i]) && |ls[i]| < 1000
    ensures Calm(ls)
  {
    hide IsComment, Strip;
    if ls != [] {
      ShortCommentsCalm(ls[1..]);
      assert IsComment(ls[0]) ==> Pieces(ls[0]) == [ls[0]];
    }
  }

  // ---------- other number lines ----------

  /** A line [S]n as length: up to 500 it is the length, from 501 to 0x7FFF it is refused, and from 0x8000 on
      the tag has a negative length and no data. */
  lemma LengthLine(st: State, buf: string, n: nat, heap: nat -> Byte)
    requires Sized(st) && st.section.Len? && |buf| == BUFFER_SIZE && n < 0x1_0000
    ensures |NumberLine(n)| < LINE_SIZE_MAX
    ensures var r := Step(st, Fill(buf, NumberLine(n)), heap);
      if 500 < n < 0x8000 then r.Malformed?
      else
        && r.Go? && r.st.section.Data? && r.st.lineCount == 0 && r.st.tagCnt == st.tagCnt
        && r.st.remaining == (if n <= 500 then n else n - 0x1_0000)
        && r.st.list[st.tagCnt].id == st.list[st.tagCnt].id
        && r.st.list[st.tagCnt].len == r.st.remaining
        && |r.st.list[st.tagCnt].data| == (if n <= 500 then n else 0)
        && forall i :: 0 <= i < MAX_TAGS && i != st.tagCnt ==> r.st.list[i] == st.list[i]
  {
    hide Fill, InputFormat, SectionNumber, NumberLine, SkipBlanks;
    NumberLineReads(buf, n);
  }

  /** A line with an id or a length in any other format counts as 0xFFFF. */
  lemma OtherNumber(buf: string, p: nat, f: Format)
    requires !f.hex || f.isArray
    ensures SectionNumber(buf, p, f) == 0xFFFF
  {
  }

  /** A data line in any other format is counted and skipped. */
  lemma OtherData(st: State, buf: string, p: nat)
    requires Sized(st) && st.section.Data? && st.remaining != 0
    requires var f := if st.lineCount == 0 then InputFormat(buf, p) else Some(st.format);
      f.Some? && (!f.value.hex || !f.value.isArray)
    ensures var r := DataLine(st, buf, p);
      r.Go? && r.st.lineCount == st.lineCount + 1 && r.st.remaining == st.remaining && r.st.list == st.list
      && r.st.section.Data? && r.st.byteCount == st.byteCount && r.st.tagCnt == st.tagCnt
  {
    hide InputFormat, BehindPreamble;
  }

  /** The tag list has 50 slots, and completing the last one makes the file malformed; completing any
      other leads to the next. */
  lemma LastSlot(st: State, buf: string, p: nat)
    requires Sized(st) && st.section.Data?
    ensures var r := DataLine(st, buf, p);
      r.Go? ==>
        if r.st.remaining != 0 then r.st.tagCnt == st.tagCnt && r.st.section.Data?
        else st.tagCnt < 49 && r.st.tagCnt == st.tagCnt + 1 && r.st.section.Undef?
  {
    hide InputFormat, BehindPreamble, FillData;
  }

  // ---------- tags with an odd length ----------

  /** Whatever the line buffer held before, reading the line writes behind the tag's data. */
  ghost predicate Overruns(st: State, l: string, heap: nat -> Byte) {
    && Sized(st) && |l| < LINE_SIZE_MAX
    && forall buf: string :: |buf| == BUFFER_SIZE ==> Step(st, Fill(buf, l), heap) == Overrun
  }

  /** One of the lines does, after those before it have moved the parser. */
  ghost predicate PathOverruns(st: State, ls: seq<string>, heap: nat -> Byte)
    decreases |ls|
  {
    ls != []
    && (Overruns(st, ls[0], heap) || exists mid :: Moves(st, ls[0], mid, heap) && PathOverruns(mid, ls[1..], heap))
  }

  lemma {:induction false} OverrunBehind(a: State, ls: seq<string>, b: State, ms: seq<string>, heap: nat -> Byte)
    requires Path(a, ls, b, heap) && PathOverruns(b, ms, heap)
    ensures PathOverruns(a, ls + ms, heap)
    decreases |ls|
  {
    hide Moves, Overruns;
    if ls == [] {
      assert ls + ms == ms;
    } else {
      var mid :| Moves(a, ls[0], mid, heap) && Path(mid, ls[1..], b, heap);
      OverrunBehind(mid, ls[1..], b, ms, heap);
      assert (ls + ms)[1..] == ls[1..] + ms && (ls + ms)[0] == ls[0];
    }
  }

  lemma {:induction false} OverrunBefore(a: State, ls: seq<string>, ms: seq<string>, heap: nat -> Byte)
    requires PathOverruns(a, ls, heap)
    ensures PathOverruns(a, ls + ms, heap)
    decreases |ls|
  {
    hide Moves, Overruns;
    assert (ls + ms)[1..] == ls[1..] + ms && (ls + ms)[0] == ls[0];
    if !Overruns(a, ls[0], heap) {
      var mid :| Moves(a, ls[0], mid, heap) && PathOverruns(mid, ls[1..], heap);
      OverrunBefore(mid, ls[1..], ms, heap);
    }
  }

  lemma OverrunAfter(a: State, l: string, b: State, ms: seq<string>, heap: nat -> Byte)
    requires Moves(a, l, b, heap) && PathOverruns(b, ms, heap)
    ensures PathOverruns(a, [l] + ms, heap)
  {
    hide Moves, Overruns;
    assert ([l] + ms)[1..] == ms;
  }

  /** The last data line of a tag with an odd length. */
  lemma OddLine(list: seq<Tag>, k: nat, t: Tag, m: nat, heap: nat -> Byte, pre: DataPreamble)
    requires |list| == MAX_TAGS && k < MAX_TAGS && Printable(t) && m < t.len && m % 16 == 0
    requires t.len - m < ENTRY_PER_LINE && !Even(t)
    ensures Overruns(Reading(list, k, t, m, heap, pre), LineOf(t.data[m..], pre), heap)
  {
    hide Fill, LineOf, Step, Malloc, InputFormat, BehindPreamble, SkipBlanks;
    var st, b := Reading(list, k, t, m, heap, pre), t.data[m..];
    LineColumns(b, 0, pre);
    forall buf: string | |buf| == BUFFER_SIZE ensures Step(st, Fill(buf, LineOf(b, pre)), heap) == Overrun {
      FilledChars(buf, LineOf(b, pre));
      var f := Fill(buf, LineOf(b, pre));
      LineHead(buf, b, pre);
      StepOverrunIff(st, f, heap);
    }
  }

  lemma {:induction false} OddDataOverruns(list: seq<Tag>, k: nat, t: Tag, m: nat, heap: nat -> Byte, pre: DataPreamble)
    requires |list| == MAX_TAGS && k + 1 < MAX_TAGS && Printable(t) && m < t.len && m % 16 == 0 && !Even(t)
    ensures PathOverruns(Reading(list, k, t, m, heap, pre), DataLines(t.data[m..], pre), heap)
    decreases t.len - m
  {
    hide LineOf, Moves, Overruns, Reading;
    var b := t.data[m..];
    if t.len - m < ENTRY_PER_LINE {
      OddLine(list, k, t, m, heap, pre);
      assert b[..ChunkSize(|b|)] == b;
    } else {
      var m' := m + 16;
      DataMoves(list, k, t, m, heap, pre);
      assert b[ChunkSize(|b|)..] == t.data[m'..];
      OddDataOverruns(list, k, t, m', heap, pre);
      OverrunAfter(Reading(list, k, t, m, heap, pre), LineOf(b[..16], pre), Reading(list, k, t, m', heap, pre),
                   DataLines(t.data[m'..], pre), heap);
    }
  }

  lemma OddTagOverruns(list: seq<Tag>, k: nat, f: Format, t: Tag, heap: nat -> Byte, pre: DataPreamble)
    requires |list| == MAX_TAGS && k + 1 < MAX_TAGS && Printable(t) && !Even(t)
    ensures PathOverruns(Between(list, k, f), TagLines(t, pre), heap)
  {
    hide Moves, Overruns, PathOverruns, DataLines, NumberLine;
    var list' := list[k := list[k].(id := t.id)];
    var a := Between(list, k, f);
    var b := a.(section := Id);
    var c := Between(list', k, Format(true, false)).(section := Len);
    HashMoves(list, k, f, heap);
    IdMoves(list, k, f, t.id, heap);
    LenMoves(list', k, t, heap, pre);
    OddDataOverruns(list', k, t, 0, heap, pre);
    assert t.data[0..] == t.data;
    OverrunAfter(c, NumberLine(t.len), Reading(list', k, t, 0, heap, pre), DataLines(t.data, pre), heap);
    OverrunAfter(b, NumberLine(t.id), c, [NumberLine(t.len)] + DataLines(t.data, pre), heap);
    OverrunAfter(a, "#\n", b, [NumberLine(t.id)] + ([NumberLine(t.len)] + DataLines(t.data, pre)), heap);
    assert TagLines(t, pre) == ["#\n"] + ([NumberLine(t.id)] + ([NumberLine(t.len)] + DataLines(t.data, pre)));
  }

  lemma {:induction false} OddTagsOverrun(list: seq<Tag>, k: nat, f: Format, ts: seq<Tag>, i: nat, heap: nat -> Byte, pre: DataPreamble)
    requires |list| == MAX_TAGS && k + |ts| < MAX_TAGS && i < |ts| && !Even(ts[i])
    requires forall j :: 0 <= j < |ts| ==> Printable(ts[j])
    ensures PathOverruns(Between(list, k, f), PrintTags(ts, pre), heap)
    decreases |ts|
  {
    hide Moves, Overruns, PathOverruns, Path, TagLines;
    if Even(ts[0]) {
      TagPath(list, k, f, ts[0], heap, pre);
      OddTagsOverrun(list[k := ts[0]], k + 1, Format(true, true), ts[1..], i - 1, heap, pre);
      OverrunBehind(Between(list, k, f), TagLines(ts[0], pre), Between(list[k := ts[0]], k + 1, Format(true, true)),
                    PrintTags(ts[1..], pre), heap);
    } else {
      OddTagOverruns(list, k, f, ts[0], heap, pre);
      OverrunBefore(Between(list, k, f), TagLines(ts[0], pre), PrintTags(ts[1..], pre), heap);
    }
  }

  /** A line that opens a tag does not overrun, so one that comes next starts between two tags. */
  lemma OverrunStartsBetween(st: State, ls: seq<string>, heap: nat -> Byte)
    requires PathOverruns(st, ls, heap) && AtTagStart(ls)
    ensures st.section.Undef?
  {
    hide Step, Fill;
    var buf := seq(BUFFER_SIZE, _ => ' ');
    assert Sized(st);
    HashStep(st, buf, heap);
    if !Overruns(st, ls[0], heap) {
      var mid :| Moves(st, ls[0], mid, heap) && PathOverruns(mid, ls[1..], heap);
      MovesAt(st, buf, ls[0], mid, heap);
    }
  }

  lemma {:induction false} RunOverruns(st: State, buf: string, ls: seq<string>, text: string, pos: nat,
                                       heap: nat -> Byte)
    requires Sized(st) && |buf| == BUFFER_SIZE && pos <= |text| && text[pos..] == Join(ls)
    requires PathOverruns(st, Strip(ls), heap)
    requires Calm(ls) && forall i :: 0 <= i < |ls| ==> IsComment(ls[i]) || Whole(ls[i])
    ensures Run(st, buf, text, pos, heap) == Overran
    decreases |ls|
  {
    hide Step, Fill, Moves, Overruns, IsComment, ReadPieces, Pieces, Run, Calm, Join, Strip, Line, Whole;
    NoLines();
    var l := ls[0];
    FirstLine(ls);
    RunReadsLine(st, buf, text, pos, l, Join(ls[1..]), heap);
    var r := ReadPieces(st, buf, Pieces(l), heap);
    if IsComment(l) {
      CalmComment(st, buf, ls, heap);
      RunOverruns(st, r.buf, ls[1..], text, pos + |l|, heap);
    } else {
      assert Strip(ls)[0] == l && Strip(ls)[1..] == Strip(ls[1..]);
      WholeRead(st, buf, l, heap);
      if Overruns(st, l, heap) {
        OverrunsAt(st, buf, l, heap);
      } else {
        var mid :| Moves(st, l, mid, heap) && PathOverruns(mid, Strip(ls[1..]), heap);
        MovesAt(st, buf, l, mid, heap);
        RunOverruns(mid, r.buf, ls[1..], text, pos + |l|, heap);
      }
    }
  }

  lemma CalmComment(st: State, buf: string, ls: seq<string>, heap: nat -> Byte)
    requires Sized(st) && |buf| == BUFFER_SIZE
    requires ls != [] && IsComment(ls[0]) && Calm(ls) && PathOverruns(st, Strip(ls[1..]), heap)
    ensures ReadPieces(st, buf, Pieces(ls[0]), heap).result == Go(st)
  {
    hide PathOverruns, ReadPieces, Pieces, Strip, IsComment;
    if AtTagStart(Strip(ls[1..])) { OverrunStartsBetween(st, Strip(ls[1..]), heap); }
    assert AllHarmless(st.section, Pieces(ls[0]));
    PiecesUnchangedIff(st, buf, Pieces(ls[0]), heap);
  }

  lemma OverrunsAt(st: State, buf: string, l: string, heap: nat -> Byte)
    requires Overruns(st, l, heap) && |buf| == BUFFER_SIZE
    ensures Step(st, Fill(buf, l), heap) == Overrun
  {
  }

  /** For printed tags of any lengths, with comment lines that do not change the parser between the
      lines: the parse writes behind some tag's data exactly if some tag has an odd length. */
  lemma {:induction false} OddLengthOverrunsIff(ts: seq<Tag>, ls: seq<string>, list: seq<Tag>, f: Format, stale: string, heap: nat -> Byte, pre: DataPreamble)
    requires |ts| <= 49 && |list| == 50 && |stale| == BUFFER_SIZE
    requires forall i :: 0 <= i < |ts| ==> Printable(ts[i])
    requires Strip(ls) == PrintTags(ts, pre) && Calm(ls)
    ensures Run(Start(list, f), stale, Join(ls), 0, heap).Overran? <==> exists i :: 0 <= i < |ts| && !Even(ts[i])
  {
    hide Run, Path, PathOverruns, Whole, IsComment, PrintTags, Calm;
    if i :| 0 <= i < |ts| && !Even(ts[i]) {
      PrintedWhole(ts, pre);
      forall i | 0 <= i < |ls| ensures IsComment(ls[i]) || Whole(ls[i]) { StripKeeps(ls, i); }
      OddTagsOverrun(list, 0, f, ts, i, heap, pre);
      assert Join(ls)[0..] == Join(ls);
      RunOverruns(Start(list, f), stale, ls, Join(ls), 0, heap);
    } else {
      PsRoundTrip(ts, ls, list, f, stale, heap, pre);
    }
  }

  /** For example this file. */
  lemma OddFileOverruns(list: seq<Tag>, f: Format, stale: string, heap: nat -> Byte)
    requires |list| == MAX_TAGS && |stale| == BUFFER_SIZE
    ensures Run(Start(list, f), stale, "#\n[S]1\n[S]3\n01 02 03\n", 0, heap) == Overran
  {
    hide Run, Start, PrintTags, TagLines, Calm, Join, Strip;
    var t := Tag(1, 3, [1, 2, 3]);
    var ls := ["#\n", "[S]1\n", "[S]3\n", "01 02 03\n"];
    OddFileLines();
    assert !Even([t][0]);
    OddLengthOverrunsIff([t], ls, list, f, stale, heap, "");
  }

  lemma OddFileLines()
    ensures var ls := ["#\n", "[S]1\n", "[S]3\n", "01 02 03\n"];
      && Strip(ls) == PrintTags([Tag(1, 3, [1, 2, 3])], "") && Calm(ls)
      && Join(ls) == "#\n[S]1\n[S]3\n01 02 03\n"
  {
    hide DataText, NumberLine, IsComment, PrintTags, Join, Strip, Calm;
    var ls := ["#\n", "[S]1\n", "[S]3\n", "01 02 03\n"];
    OddFilePrinted();
    forall i | 0 <= i < 4 ensures !IsComment(ls[i]) { NoComment(ls[i]); }
    NothingStripped(ls);
    ShortCommentsCalm(ls);
    JoinFour(ls[0], ls[1], ls[2], ls[3]);
    assert ls[0] + (ls[1] + (ls[2] + ls[3])) == "#\n[S]1\n[S]3\n01 02 03\n";
  }

  lemma OddFilePrinted()
    ensures PrintTags([Tag(1, 3, [1, 2, 3])], "") == ["#\n", "[S]1\n", "[S]3\n", "01 02 03\n"]
  {
    hide DataText, NumberLine;
    var t := Tag(1, 3, [1, 2, 3]);
    ThreeBytes();
    SmallNumbers();
    assert LineOf(t.data, "") == DataText(t.data);
    assert t.data[..3] == t.data && t.data[3..] == [] && DataLines(t.data, "") == [LineOf(t.data, "")];
    assert [t][1..] == [] && PrintTags([t], "") == TagLines(t, "");
  }

  lemma {:induction false} NothingStripped(ls: seq<string>)
    requires forall i :: 0 <= i < |ls| ==> !IsComment(ls[i])
    ensures Strip(ls) == ls
  {
    hide IsComment;
    if ls != [] { NothingStripped(ls[1..]); }
  }

  lemma JoinFour(a: string, b: string, c: string, d: string)
    ensures Join([a, b, c, d]) == a + (b + (c + d))
  {
    JoinTwo(c, d);
    assert [a, b, c, d][1..] == [b, c, d] && [b, c, d][1..] == [c, d];
  }

  lemma NoComment(l: string)
    requires l != "" && l[0] != ' ' && l[0] != '/'
    ensures !IsComment(l)
  {
  }

  lemma ThreeBytes()
    ensures DataText([1, 2, 3]) == "01 02 03\n"
  {
    var b: seq<Byte> := [1, 2, 3];
    assert b[1..] == [2, 3] && b[1..][1..] == [3];
    assert DataText([3]) == "03\n";
    assert DataText([2, 3]) == "02 03\n";
  }

  lemma SmallNumbers()
    ensures NumberLine(1) == "[S]1\n" && NumberLine(3) == "[S]3\n"
  {
  }

  // ---------- comments that are too long ----------

  /** A comment of 1001 characters is read as two lines, and the second need not be a comment: here
      it opens a tag, and the tag that follows makes the file malformed. */
  lemma {:induction false} LongCommentBreaks(list: seq<Tag>, f: Format, stale: string, heap: nat -> Byte)
    requires |list| == MAX_TAGS && |stale| == BUFFER_SIZE
    ensures var c := "//" + seq(997, _ => 'x') + "#\n";
            IsComment(c) && Run(Start(list, f), stale, Join([c, "#\n"]), 0, heap) == Failed
            && Run(Start(list, f), stale, "#\n", 0, heap).Parsed?
  {
    hide Fill, Step, Run, Join;
    var a := "//" + seq(997, _ => 'x');
    var text := a + "#\n" + "#\n";
    JoinTwo(a + "#\n", "#\n");
    var st := Start(list, f);
    ReadComment(st, stale, a, "#\n" + "#\n", heap);
    assert a + ("#\n" + "#\n") == text;
    assert (a + "#\n")[0] == '/' && (a + "#\n")[1] == '/';
    RunHash(st, Fill(stale, a), text, 999, heap);
    RunHash(st.(section := Id), Fill(Fill(stale, a), "#\n"), text, 1001, heap);
    RunHash(st, stale, "#\n", 0, heap);
    RunAtEnd(st.(section := Id), Fill(stale, "#\n"), "#\n", heap);
  }

  /** Reading the first 999 characters of a comment that fills the line buffer. */
  lemma {:induction false} ReadComment(st: State, buf: string, a: string, rest: string, heap: nat -> Byte)
    requires |st.list| == MAX_TAGS && st.tagCnt < MAX_TAGS && |buf| == BUFFER_SIZE
    requires |a| == 999 && a[0] == '/' && a[1] == '/' && forall i :: 0 <= i < 999 ==> a[i] != '\n'
    ensures Run(st, buf, a + rest, 0, heap)
            == if rest == "" then Parsed(st.tagCnt, st.list) else Run(st, Fill(buf, a), a + rest, 999, heap)
  {
    hide Fill, Step;
    var text := a + rest;
    assert forall i :: 0 <= i < 999 ==> text[i] == a[i];
    LineEndFull(text, 0, 999);
    assert text[0..999] == a;
    CommentStays(st, buf, a, heap);
  }

  lemma RunAtEnd(st: State, buf: string, text: string, heap: nat -> Byte)
    requires |st.list| == MAX_TAGS && st.tagCnt < MAX_TAGS && |buf| == BUFFER_SIZE
    ensures Run(st, buf, text, |text|, heap) == Parsed(st.tagCnt, st.list)
  {
  }

  /** Reading a line that opens a tag. */
  lemma RunHash(st: State, buf: string, text: string, pos: nat, heap: nat -> Byte)
    requires |st.list| == MAX_TAGS && st.tagCnt < MAX_TAGS && |buf| == BUFFER_SIZE
    requires pos + 2 <= |text| && text[pos..pos + 2] == "#\n"
    ensures Run(st, buf, text, pos, heap)
            == if st.section != Undef then Failed
               else Run(st.(section := Id), Fill(buf, "#\n"), text, pos + 2, heap)
  {
    hide Fill, Step;
    assert text[pos] == "#\n"[0] && text[pos + 1] == "#\n"[1];
    LineEndAt(text, pos, LINE_SIZE_MAX - 1, pos + 2);
    HashStep(st, buf, heap);
  }

  lemma JoinTwo(a: string, b: string)
    ensures Join([a, b]) == a + b
  {
    assert [a, b][1..] == [b] && [b][1..] == [];
    assert Join([b]) == b + Join([]) == b;
  }

  lemma HashStep(st: State, buf: string, heap: nat -> Byte)
    requires |st.list| == MAX_TAGS && st.tagCnt < MAX_TAGS && |buf| == BUFFER_SIZE
    ensures Step(st, Fill(buf, "#\n"), heap) == if st.section != Undef then Malformed else Go(st.(section := Id))
  {
    hide Fill;
    FilledChars(buf, "#\n");
  }
}
