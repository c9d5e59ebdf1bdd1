/** The line-oriented configuration file of the AR3K controller: tags with an id, a length and data. */
module PsConfig {
  import opened Bytes
  import opened Wrappers
  import opened CText
  import opened Stdio

  const MAX_TAGS: nat := 50
  const PS_MAX_LEN := 500
  const LINE_SIZE_MAX: nat := 1000
  const BUFFER_SIZE: nat := 1001
  const ENTRY_PER_LINE := 16
  const MAX_PREAMBLE_LEN := 4
  const UNDEFINED := 0xFFFF

  /** len is the declared length, which can be negative; data is what was allocated for it. */
  datatype Tag = Tag(id: int, len: int, data: seq<Byte>)

  datatype Section = Undef | Id | Len | Data

  datatype Format = Format(hex: bool, isArray: bool)

  /** The parser between two lines.  remaining counts the data bytes of the tag still to come. */
  datatype State = State(
    section: Section, lineCount: nat, charCnt: nat, byteCount: nat,
    remaining: int, format: Format, list: seq<Tag>, tagCnt: nat)

  /** Overrun: a byte would be written behind the data of its tag. */
  datatype Result = Malformed | Overrun | Go(st: State)

  // ---------- the line buffer ----------

  /** The line buffer after fgets: the line, its terminator and what was there before. */
  function Fill(buf: string, line: string): (r: string)
    requires |buf| == BUFFER_SIZE && |line| < LINE_SIZE_MAX
    ensures |r| == BUFFER_SIZE
  {
    line + ['\0'] + buf[|line| + 1..]
  }

  function SkipBlanks(buf: string, p: nat): (q: nat)
    ensures q >= p
    decreases |buf| - p
  {
    if CharAt(buf, p) == ' ' then SkipBlanks(buf, p + 1) else p
  }

  /** The first c of the C string at p. */
  function Find(buf: string, p: nat, c: char): (r: Option<nat>)
    requires c != '\0'
    ensures r.Some? ==> r.value >= p && r.value < |buf|
    decreases |buf| - p
  {
    if CharAt(buf, p) == '\0' then None
    else if CharAt(buf, p) == c then Some(p)
    else Find(buf, p + 1, c)
  }

  predicate IsAlpha(c: char) { 'a' <= c <= 'z' || 'A' <= c <= 'Z' }

  function ToUpper(c: char): char { if 'a' <= c <= 'z' then (c as int - 32) as char else c }

  datatype Preamble = Preamble(main: char, sub: char)

  /** The letters of a preamble [X:Y], main before the colon and sub behind it. */
  function Letters(buf: string, i: nat, end: nat, delim: bool, t: Preamble): Preamble
    decreases end - i
  {
    if i >= end then t
    else
      var c := CharAt(buf, i);
      if c == ':' then Letters(buf, i + 1, end, true, t)
      else if IsAlpha(c) then
        Letters(buf, i + 1, end, delim, if delim then t.(sub := ToUpper(c)) else t.(main := ToUpper(c)))
      else Letters(buf, i + 1, end, delim, t)
  }

  function InputFormat(buf: string, p: nat): Option<Format> {
    if CharAt(buf, p) != '[' then Some(Format(true, true))
    else
      var end := Find(buf, p, ']');
      if end == None || end.value - p > MAX_PREAMBLE_LEN then None
      else
        var t := Letters(buf, p + 1, end.value, false, Preamble('\0', '\0'));
        Some(Format(!(t.main == 'D' || t.main == 'B'), !(t.main == 'S' || t.sub == 'S')))
  }

  /** The index behind a preamble, if there is a complete one. */
  function BehindPreamble(buf: string, p: nat): (r: Option<nat>)
    ensures r.Some? ==> r.value >= p
  {
    if CharAt(buf, p) != '[' then Some(p)
    else
      var end := Find(buf, p, ']');
      if end == None then None else Some(end.value + 1)
  }

  /** The unsigned number of a line; only hexadecimal scalars are read. */
  function SectionNumber(buf: string, p: nat, f: Format): nat {
    var q := BehindPreamble(buf, p);
    if q.Some? && f.hex && !f.isArray then Strtol(buf, q.value, 16).0 % 0x1_0000_0000 else UNDEFINED
  }

  function ToInt16(x: int): int { var u := x % 0x1_0000; if u < 0x8000 then u else u - 0x1_0000 }

  // ---------- data lines ----------

  /** strlcpy into a buffer of three. */
  function TwoChars(buf: string, i: nat): string {
    if CharAt(buf, i) == '\0' then ""
    else if CharAt(buf, i + 1) == '\0' then [CharAt(buf, i)]
    else [CharAt(buf, i), CharAt(buf, i + 1)]
  }

  function HexAt(buf: string, i: nat): Byte { Strtol(TwoChars(buf, i), 0, 16).0 % 256 }

  datatype Filled = TooFar | Filled(data: seq<Byte>, charCnt: nat, byteCount: nat)

  /** Reads bytes two at a time until at least `count` are read, from column charCnt of the line
      at p into the data from byteCount on. */
  function FillData(buf: string, p: nat, charCnt: nat, data: seq<Byte>, byteCount: nat, count: int): Filled
    decreases count
  {
    if count <= 0 then Filled(data, charCnt, byteCount)
    else if byteCount + 1 >= |data| then TooFar
    else
      FillData(buf, p, charCnt + 6,
               data[byteCount := HexAt(buf, p + charCnt)][byteCount + 1 := HexAt(buf, p + charCnt + 3)],
               byteCount + 2, count - 2)
  }

  function LineQuota(remaining: int): int {
    if remaining > ENTRY_PER_LINE then ENTRY_PER_LINE else remaining
  }

  // ---------- one line ----------

  /** What malloc returns for a length: arbitrary bytes, or nothing for a negative length. */
  function Malloc(len: int, heap: nat -> Byte): (data: seq<Byte>)
    ensures |data| == if len < 0 then 0 else len
  {
    seq(if len < 0 then 0 else len, i requires i >= 0 => heap(i))
  }

  function Step(st: State, buf: string, heap: nat -> Byte): (r: Result)
    requires |st.list| == MAX_TAGS && st.tagCnt < MAX_TAGS
    ensures r.Go? ==> |r.st.list| == MAX_TAGS && r.st.tagCnt < MAX_TAGS
  {
    var p := SkipBlanks(buf, 0);
    if CharAt(buf, p) == '/' && CharAt(buf, p + 1) == '/' then Go(st)
    else if CharAt(buf, p) == '#' then
      if st.section != Undef then Malformed else Go(st.(section := Id))
    else
      match st.section
      case Undef => Go(st)
      case Id => IdLine(st, buf, p)
      case Len => LenLine(st, buf, p, heap)
      case Data => DataLine(st, buf, p)
  }

  function IdLine(st: State, buf: string, p: nat): (r: Result)
    requires |st.list| == MAX_TAGS && st.tagCnt < MAX_TAGS
    ensures r.Go? ==> |r.st.list| == MAX_TAGS && r.st.tagCnt < MAX_TAGS
  {
    var f := InputFormat(buf, p);
    if f == None then Malformed
    else
      var tag := st.list[st.tagCnt].(id := SectionNumber(buf, p, f.value));
      Go(st.(format := f.value, list := st.list[st.tagCnt := tag], section := Len))
  }

  function LenLine(st: State, buf: string, p: nat, heap: nat -> Byte): (r: Result)
    requires |st.list| == MAX_TAGS && st.tagCnt < MAX_TAGS
    ensures r.Go? ==> |r.st.list| == MAX_TAGS && r.st.tagCnt < MAX_TAGS
  {
    var f := InputFormat(buf, p);
    if f == None then Malformed
    else
      var n := ToInt16(SectionNumber(buf, p, f.value));
      if n > PS_MAX_LEN then Malformed
      else
        var tag := st.list[st.tagCnt].(len := n, data := Malloc(n, heap));
        Go(st.(format := f.value, list := st.list[st.tagCnt := tag], section := Data, lineCount := 0,
               remaining := n))
  }

  function DataLine(st: State, buf: string, p: nat): (r: Result)
    requires |st.list| == MAX_TAGS && st.tagCnt < MAX_TAGS
    ensures r.Go? ==> |r.st.list| == MAX_TAGS && r.st.tagCnt < MAX_TAGS
  {
    var f := if st.lineCount == 0 then InputFormat(buf, p) else Some(st.format);
    if f == None then Malformed
    else
      var start := BehindPreamble(buf, p);
      var charCnt := if start.Some? then start.value - p else 0;
      var t := st.(format := f.value, charCnt := charCnt, lineCount := st.lineCount + 1);
      if f.value.hex && f.value.isArray then
        var tag := st.list[st.tagCnt];
        var filled := FillData(buf, p, charCnt, tag.data, st.byteCount, LineQuota(st.remaining));
        if filled.TooFar? then Overrun
        else
          Finish(t.(charCnt := filled.charCnt, byteCount := filled.byteCount,
                    list := st.list[st.tagCnt := tag.(data := filled.data)],
                    remaining := if st.remaining > ENTRY_PER_LINE then st.remaining - ENTRY_PER_LINE else 0))
      else Finish(t)
  }

  /** After a data line: a tag without remaining bytes is complete. */
  function Finish(t: State): (r: Result)
    requires |t.list| == MAX_TAGS && t.tagCnt < MAX_TAGS
    ensures r.Go? ==> |r.st.list| == MAX_TAGS && r.st.tagCnt < MAX_TAGS
  {
    if t.remaining != 0 then Go(t)
    else if t.tagCnt + 1 == MAX_TAGS then Malformed
    else Go(t.(section := Undef, lineCount := 0, charCnt := 0, byteCount := 0, tagCnt := t.tagCnt + 1))
  }

  // ---------- the whole file ----------

  datatype Outcome = Failed | Overran | Parsed(count: nat, list: seq<Tag>)

  function Run(st: State, buf: string, text: string, pos: nat, heap: nat -> Byte): Outcome
    requires |st.list| == MAX_TAGS && st.tagCnt < MAX_TAGS && |buf| == BUFFER_SIZE && pos <= |text|
    decreases |text| - pos
  {
    if pos == |text| then Parsed(st.tagCnt, st.list)
    else
      var e := LineEnd(text, pos, LINE_SIZE_MAX - 1);
      var filled := Fill(buf, text[pos..e]);
      match Step(st, filled, heap)
      case Malformed => Failed
      case Overrun => Overran
      case Go(t) => Run(t, filled, text, e, heap)
  }

  /** The locals as the parser sets them up; the format is uninitialised. */
  function Start(list: seq<Tag>, format: Format): State {
    State(Undef, 0, 0, 0, 0, format, list, 0)
  }

  datatype Code = Error | OutOfBounds | Tags(count: nat)

  /** Fills the global tag list from the file.  `stale`, `format` and `heap` stand for the contents
      of the uninitialised buffer, local and allocations. */
  method AthParsePs(stream: File, psList: array<Tag>, stale: string, format: Format, heap: nat -> Byte)
    returns (r: Code)
    requires stream.Valid() && psList.Length == MAX_TAGS && |stale| == BUFFER_SIZE
    modifies stream, psList
    ensures stream.Valid()
    ensures match Run(Start(old(psList[..]), format), stale, stream.text, old(stream.pos), heap)
            case Failed => r == Error
            case Overran => r == OutOfBounds
            case Parsed(n, list) => r == Tags(n) && psList[..] == list
  {
    hide FillData, InputFormat, SectionNumber, Fill, SkipBlanks, BehindPreamble, Malloc, ToInt16, LineEnd;
    var buf := stale;
    var section, lineCount, charCnt, byteCount, remaining := Undef, 0, 0, 0, 0;
    var form, tagCnt := format, 0;
    ghost var st := Start(psList[..], format);
    ghost var all := Run(st, buf, stream.text, stream.pos, heap);
    while true
      invariant stream.Valid() && |buf| == BUFFER_SIZE && 0 <= tagCnt < MAX_TAGS
      invariant st == State(section, lineCount, charCnt, byteCount, remaining, form, psList[..], tagCnt)
      invariant all == Run(st, buf, stream.text, stream.pos, heap)
      decreases |stream.text| - stream.pos
    {
      var line := stream.Fgets(LINE_SIZE_MAX);
      if line == None { return Tags(tagCnt); }
      buf := Fill(buf, line.value);
      ghost var next := Step(st, buf, heap);
      var p := SkipBlanks(buf, 0);
      if CharAt(buf, p) == '/' && CharAt(buf, p + 1) == '/' {
      } else if CharAt(buf, p) == '#' {
        if section != Undef { return Error; }
        section := Id;
      } else if section == Id || section == Len {
        var f := InputFormat(buf, p);
        if f == None { return Error; }
        form := f.value;
        var number := SectionNumber(buf, p, form);
        if section == Id {
          psList[tagCnt] := psList[tagCnt].(id := number);
          section := Len;
        } else {
          remaining := ToInt16(number);
          if remaining > PS_MAX_LEN { return Error; }
          psList[tagCnt] := psList[tagCnt].(len := remaining, data := Malloc(remaining, heap));
          section, lineCount := Data, 0;
        }
      } else if section == Data {
        if lineCount == 0 {
          var f := InputFormat(buf, p);
          if f == None { return Error; }
          form := f.value;
        }
        var start := BehindPreamble(buf, p);
        charCnt := if start.Some? then start.value - p else 0;
        if form.hex && form.isArray {
          var ok;
          ok, charCnt, byteCount := UpdateTagData(psList, tagCnt, buf, p, charCnt, byteCount, LineQuota(remaining));
          if !ok { return OutOfBounds; }
          remaining := if remaining > ENTRY_PER_LINE then remaining - ENTRY_PER_LINE else 0;
        }
        lineCount := lineCount + 1;
        if remaining == 0 {
          section, lineCount, charCnt, byteCount := Undef, 0, 0, 0;
          tagCnt := tagCnt + 1;
        }
        if tagCnt == MAX_TAGS { return Error; }
      }
      st := State(section, lineCount, charCnt, byteCount, remaining, form, psList[..], tagCnt);
      assert next == Go(st);
    }
  }

  /** Reads the bytes of one line in place; false if a byte would fall behind the tag's data. */
  method UpdateTagData(psList: array<Tag>, k: nat, buf: string, p: nat, charCnt: nat, byteCount: nat, count: int)
    returns (ok: bool, charCnt': nat, byteCount': nat)
    requires k < psList.Length
    modifies psList
    ensures var was := old(psList[..]);
            match FillData(buf, p, charCnt, was[k].data, byteCount, count)
            case TooFar => !ok
            case Filled(data, c, b) =>
              ok && charCnt' == c && byteCount' == b && psList[..] == was[k := was[k].(data := data)]
  {
    hide HexAt;
    ghost var was := psList[..];
    ghost var goal := FillData(buf, p, charCnt, was[k].data, byteCount, count);
    charCnt', byteCount' := charCnt, byteCount;
    var readCount := count;
    while readCount > 0
      invariant goal == FillData(buf, p, charCnt', psList[k].data, byteCount', readCount)
      invariant psList[..] == was[k := was[k].(data := psList[k].data)]
    {
      if byteCount' + 1 >= |psList[k].data| { return false, charCnt', byteCount'; }
      psList[k] := psList[k].(data := psList[k].data[byteCount' := HexAt(buf, p + charCnt')]);
      charCnt', byteCount' := charCnt' + 3, byteCount' + 1;
      psList[k] := psList[k].(data := psList[k].data[byteCount' := HexAt(buf, p + charCnt')]);
      charCnt', byteCount' := charCnt' + 3, byteCount' + 1;
      readCount := readCount - 2;
    }
    return true, charCnt', byteCount';
  }
}
