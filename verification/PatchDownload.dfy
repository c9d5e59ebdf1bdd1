/** Sending a firmware patch to the AR3K controller in numbered pieces. */
module PatchDownload {
  import opened Bytes
  import opened Wrappers
  import opened CText
  import opened Stdio

  const MAX_PATCH_CMD: nat := 244
  const HCI_MAX_CMD_SIZE := 260
  const HCI_PS_CMD_HDR_LEN := 7
  const PS_HDR_LEN := 4
  const PS_WRITE_PATCH: Byte := 8
  const PS_ENABLE_PATCH: Byte := 11
  const PATCH_LOC_KEY := "DA:"

  // ---------- PS commands ----------

  /** A vendor command: opcode 0xFC0B (group 0x3F, command 0x0B), parameter length, then the PS
      header of operation, 16-bit index and payload length, then the payload (command packets:
      Bluetooth Core Specification, Vol 4 Part E section 5.4.1). */
  function PsCommand(op: Byte, index: int, payload: seq<Byte>): seq<Byte> {
    [0x0B, 0xFC, (|payload| + PS_HDR_LEN) % 256, op, index % 256, index / 256 % 256, |payload| % 256]
    + payload
  }

  datatype PsMessage = PsMessage(op: Byte, index: nat, payload: seq<Byte>)

  /** What a controller makes of a command: both length fields must match what was sent. */
  function DecodePs(cmd: seq<Byte>): Option<PsMessage> {
    if |cmd| < 7 || cmd[0] != 0x0B || cmd[1] != 0xFC || cmd[2] != |cmd| - 3 || cmd[6] != |cmd| - 7 then None
    else Some(PsMessage(cmd[3], cmd[4] as int + 256 * cmd[5] as int, cmd[7..]))
  }

  /** A command is understood, with its index and payload, iff both fit their fields. */
  lemma CommandUnderstood(op: Byte, index: nat, payload: seq<Byte>)
    ensures DecodePs(PsCommand(op, index, payload)) == Some(PsMessage(op, index, payload))
            <==> |payload| <= 251 && index < 0x1_0000
  {
    var cmd := PsCommand(op, index, payload);
    assert cmd[7..] == payload;
  }

  /** The controller: it keeps what it was sent, and `answer` says how it replies to the n-th
      command. */
  class Controller {
    const answer: nat -> bool
    const locationOk: bool
    var log: seq<seq<Byte>>

    constructor (answer: nat -> bool, locationOk: bool)
      ensures log == [] && this.answer == answer && this.locationOk == locationOk
    {
      this.answer, this.locationOk, log := answer, locationOk, [];
    }

    method WriteCmd(cmd: seq<Byte>) returns (ok: bool)
      modifies this
      ensures log == old(log) + [cmd] && ok == answer(|old(log)|)
    {
      ok := answer(|log|);
      log := log + [cmd];
    }

    /** Only the answer to a patch location is modelled. */
    method SetPatchRam() returns (ok: bool)
      ensures ok == locationOk
    {
      ok := locationOk;
    }
  }

  /** Fills the seven header bytes of a command buffer. */
  method LoadHciPsHdr(cmd: array<Byte>, op: Byte, len: nat, index: int)
    requires cmd.Length >= HCI_PS_CMD_HDR_LEN
    modifies cmd
    ensures cmd[..7] == PsCommand(op, index, seq(len, _ => 0))[..7]
    ensures cmd[7..] == old(cmd[7..])
  {
    cmd[0], cmd[1] := 0x0B, 0xFC;
    cmd[2] := (len + PS_HDR_LEN) % 256;
    cmd[3] := op;
    cmd[4] := index % 256;
    cmd[5] := index / 256 % 256;
    cmd[6] := len % 256;
  }

  // ---------- what the file says ----------

  datatype Header = Refused | Announced(count: int, pos: nat)

  function StrLen(s: string): nat { if s == "" || s[0] == '\0' then 0 else 1 + StrLen(s[1..]) }

  /** Skips short lines and patch locations up to the line with the byte count.  At the end of the
      file the number is read from the line buffer as it was left. */
  function ReadHeader(text: string, pos: nat, buffer: string, locationOk: bool): (h: Header)
    requires pos <= |text|
    ensures h.Announced? ==> h.pos <= |text|
    decreases |text| - pos
  {
    if pos == |text| then Announced(Strtol(buffer, 0, 16).0, pos)
    else
      var e := LineEnd(text, pos, MAX_PATCH_CMD - 1);
      var line := text[pos..e];
      if StrLen(line) <= 1 then ReadHeader(text, e, line, locationOk)
      else if PATCH_LOC_KEY <= line then
        if locationOk then ReadHeader(text, e, line, locationOk) else Refused
      else if IsDigit(line[0], 16) then Announced(Strtol(line, 0, 16).0, e)
      else Refused
  }

  datatype Piece = Piece(data: seq<Byte>, pos: nat)

  /** n bytes from pos on, each read as up to two characters; fewer if the file ends before. */
  function ReadBytes(text: string, pos: nat, n: nat): (r: Piece)
    requires pos <= |text|
    ensures |r.data| <= n && r.pos <= |text|
    decreases n
  {
    if n == 0 || pos == |text| then Piece([], pos)
    else
      var e := LineEnd(text, pos, 2);
      var rest := ReadBytes(text, e, n - 1);
      Piece([Strtol(text[pos..e], 0, 16).0 % 256] + rest.data, rest.pos)
  }

  /** The commands for a patch, in pieces of at most MAX_PATCH_CMD bytes. */
  function PatchCommands(data: seq<Byte>, index: nat): seq<seq<Byte>>
    decreases |data|
  {
    if |data| == 0 then []
    else if |data| <= MAX_PATCH_CMD then [PsCommand(PS_WRITE_PATCH, index, data)]
    else [PsCommand(PS_WRITE_PATCH, index, data[..MAX_PATCH_CMD])]
         + PatchCommands(data[MAX_PATCH_CMD..], index + 1)
  }

  const ENABLE_COMMAND: seq<Byte> := PsCommand(PS_ENABLE_PATCH, 0, [])

  // ---------- the download ----------

  /** `stale` is what the uninitialised line buffer holds.  Returns the number of pieces, or -1. */
  method PsPatchDownload(fd: Controller, stream: File, stale: string) returns (r: int)
    requires stream.Valid()
    modifies fd, stream
    ensures stream.Valid()
    ensures var h := ReadHeader(stream.text, old(stream.pos), stale, fd.locationOk);
            match h
            case Refused => r == -1 && fd.log == old(fd.log)
            case Announced(count, pos) =>
              var n := Positive(count);
              Outcome(ReadBytes(stream.text, pos, n).data, n, old(fd.log), fd.log, fd.answer, r)
    ensures r >= 0 ==>
      var h := ReadHeader(stream.text, old(stream.pos), stale, fd.locationOk);
      h.Announced? && |old(fd.log)| + r + 1 == |fd.log|
      && Downloaded(ReadBytes(stream.text, h.pos, Positive(h.count)).data, fd.log[|old(fd.log)|..])
      && forall i :: |old(fd.log)| <= i < |fd.log| ==> fd.answer(i)
    ensures (forall i :: fd.answer(i)) ==>
      var h := ReadHeader(stream.text, old(stream.pos), stale, fd.locationOk);
      r >= 0 <==> h.Announced? && |ReadBytes(stream.text, h.pos, Positive(h.count)).data| == Positive(h.count)
  {
    hide Strtol, ReadBytes, PatchCommands;
    var buffer := stale;
    ghost var p: nat, b: string := stream.pos, stale;
    ghost var h := ReadHeader(stream.text, p, b, fd.locationOk);
    var line := stream.Fgets(MAX_PATCH_CMD);
    while line != None
      invariant stream.Valid() && fd.log == old(fd.log) && p <= |stream.text|
      invariant h == ReadHeader(stream.text, p, b, fd.locationOk)
      invariant line == None ==> p == |stream.text| && buffer == b && stream.pos == p
      invariant line != None
                ==> p < |stream.text| && stream.pos == LineEnd(stream.text, p, MAX_PATCH_CMD - 1)
                    && line.value == stream.text[p..stream.pos]
      decreases line != None, |stream.text| - stream.pos
    {
      buffer := line.value;
      if StrLen(buffer) <= 1 {
      } else if PATCH_LOC_KEY <= buffer {
        var ok := fd.SetPatchRam();
        if !ok { return -1; }
      } else if IsDigit(buffer[0], 16) {
        break;
      } else {
        return -1;
      }
      p, b := stream.pos, buffer;
      line := stream.Fgets(MAX_PATCH_CMD);
    }
    var byteCnt := Strtol(buffer, 0, 16).0;
    assert h == Announced(byteCnt, stream.pos);
    ghost var pos := stream.pos;
    r := SendPatch(fd, stream, byteCnt);
    if r >= 0 {
      ghost var n := Positive(byteCnt);
      SuccessDownloads(ReadBytes(stream.text, pos, n).data, n, old(fd.log), fd.log, fd.answer, r);
    }
    OutcomeAnswers(ReadBytes(stream.text, pos, Positive(byteCnt)).data, Positive(byteCnt), old(fd.log), fd.log, fd.answer, r);
  }

  function Positive(x: int): nat { if x < 0 then 0 else x }

  function WholePieces(data: seq<Byte>): seq<Byte> { data[..|data| - |data| % MAX_PATCH_CMD] }

  /** The commands to be sent for n bytes of which the file holds `data`: all pieces and the enable
      command if it holds all, and the whole pieces alone if it ends before. */
  function Commands(data: seq<Byte>, n: nat): seq<seq<Byte>> {
    if |data| == n then PatchCommands(data, 0) + [ENABLE_COMMAND] else PatchCommands(WholePieces(data), 0)
  }

  /** The commands are sent in order up to the first refused one; the download succeeds exactly if the
      file holds all bytes and no command is refused, with the number of pieces as result. */
  ghost predicate Outcome(data: seq<Byte>, n: nat, was: seq<seq<Byte>>, log: seq<seq<Byte>>,
                          answer: nat -> bool, r: int) {
    var cmds := Commands(data, n);
    if Accepted(answer, |was|, |cmds|) then log == was + cmds && r == if |data| == n then |cmds| - 1 else -1
    else r == -1 && exists k :: 0 <= k < |cmds| && StoppedAt(cmds, was, log, answer, k)
  }

  ghost predicate Accepted(answer: nat -> bool, from: nat, n: nat) {
    forall i :: from <= i < from + n ==> answer(i)
  }

  /** Command k is the first that is refused, and the last that is sent. */
  ghost predicate StoppedAt(cmds: seq<seq<Byte>>, was: seq<seq<Byte>>, log: seq<seq<Byte>>,
                            answer: nat -> bool, k: nat)
    requires k < |cmds|
  {
    Accepted(answer, |was|, k) && !answer(|was| + k) && log == was + cmds[..k + 1]
  }

  method SendPatch(fd: Controller, stream: File, count: int) returns (r: int)
    requires stream.Valid()
    modifies fd, stream
    ensures stream.Valid()
    ensures var n := Positive(count);
            Outcome(ReadBytes(stream.text, old(stream.pos), n).data, n, old(fd.log), fd.log, fd.answer, r)
  {
    hide Strtol, ReadBytes, PatchCommands, PsCommand, Outcome, Accepted;
    var byteCnt, patchCount := count, 0;
    ghost var n := Positive(count);
    ghost var all := ReadBytes(stream.text, stream.pos, n).data;
    ghost var sent: seq<Byte> := [];
    NoCommands();
    NoneRefused(fd.answer, |fd.log|);
    assert [] + all == all;
    while byteCnt > 0
      invariant stream.Valid() && |sent| + Positive(byteCnt) == n
      invariant all == sent + ReadBytes(stream.text, stream.pos, Positive(byteCnt)).data
      invariant fd.log == old(fd.log) + PatchCommands(sent, 0) && patchCount == |PatchCommands(sent, 0)|
      invariant byteCnt > 0 ==> |sent| % MAX_PATCH_CMD == 0
      invariant Accepted(fd.answer, |old(fd.log)|, patchCount)
    {
      var len := if byteCnt > MAX_PATCH_CMD then MAX_PATCH_CMD else byteCnt;
      SplitRead(stream.text, stream.pos, len, byteCnt);
      ghost var piece := ReadBytes(stream.text, stream.pos, len).data;
      var data := ReadPiece(stream, len);
      if data == None {
        EndsEarly(sent, piece, n, old(fd.log), fd.log, fd.answer);
        return -1;
      }
      ghost var rest := ReadBytes(stream.text, stream.pos, byteCnt - len).data;
      assert sent + (piece + rest) == sent + piece + rest;
      AppendPiece(sent, piece, 0);
      sent := sent + piece;
      var ok := SendPiece(fd, patchCount, data.value);
      if !ok {
        PieceRefused(sent, rest, n, old(fd.log), fd.log, fd.answer);
        return -1;
      }
      NextAccepted(fd.answer, |old(fd.log)|, patchCount);
      patchCount := patchCount + 1;
      byteCnt := byteCnt - MAX_PATCH_CMD;
    }
    assert all == sent;
    var ok := fd.WriteCmd(ENABLE_COMMAND);
    AllSent(sent, old(fd.log), fd.log, fd.answer);
    return if ok then patchCount else -1;
  }

  lemma NoneRefused(answer: nat -> bool, from: nat)
    ensures Accepted(answer, from, 0)
  {
  }

  lemma NextAccepted(answer: nat -> bool, from: nat, n: nat)
    requires Accepted(answer, from, n) && answer(from + n)
    ensures Accepted(answer, from, n + 1)
  {
  }

  /** The file ends inside a piece: only the whole pieces have been sent. */
  lemma EndsEarly(sent: seq<Byte>, piece: seq<Byte>, n: nat, was: seq<seq<Byte>>, log: seq<seq<Byte>>,
                  answer: nat -> bool)
    requires |sent| % MAX_PATCH_CMD == 0 && |piece| < MAX_PATCH_CMD && |sent + piece| < n
    requires Accepted(answer, |was|, |PatchCommands(sent, 0)|) && log == was + PatchCommands(sent, 0)
    ensures Outcome(sent + piece, n, was, log, answer, -1)
  {
    hide PatchCommands, PsCommand;
    assert WholePieces(sent + piece) == sent;
  }

  /** Everything was accepted up to the enable command, which was sent last. */
  lemma AllSent(sent: seq<Byte>, was: seq<seq<Byte>>, log: seq<seq<Byte>>, answer: nat -> bool)
    requires var n := |PatchCommands(sent, 0)|;
      Accepted(answer, |was|, n) && log == was + PatchCommands(sent, 0) + [ENABLE_COMMAND]
    ensures var n := |PatchCommands(sent, 0)|;
      Outcome(sent, |sent|, was, log, answer, if answer(|was| + n) then n else -1)
  {
    hide PatchCommands, PsCommand;
    var n := |PatchCommands(sent, 0)|;
    var cmds := Commands(sent, |sent|);
    assert log == was + cmds && cmds[..n + 1] == cmds;
    assert !answer(|was| + n) ==> StoppedAt(cmds, was, log, answer, n);
  }

  /** The commands for whole pieces are the first commands for all the data. */
  lemma {:induction false} CommandsPrefix(sent: seq<Byte>, rest: seq<Byte>, index: nat)
    requires rest == [] || |sent| % MAX_PATCH_CMD == 0
    ensures PatchCommands(sent, index) <= PatchCommands(sent + rest, index)
    decreases |sent|
  {
    hide PsCommand;
    if rest == [] {
      assert sent + rest == sent;
    } else if sent != [] {
      var all := sent + rest;
      assert all[..MAX_PATCH_CMD] == sent[..MAX_PATCH_CMD];
      assert all[MAX_PATCH_CMD..] == sent[MAX_PATCH_CMD..] + rest;
      CommandsPrefix(sent[MAX_PATCH_CMD..], rest, index + 1);
      if |sent| == MAX_PATCH_CMD { assert sent[..MAX_PATCH_CMD] == sent && sent[MAX_PATCH_CMD..] == []; }
    }
  }

  lemma SameRemainder(a: nat, b: nat)
    requires a % MAX_PATCH_CMD == 0
    ensures (a + b) % MAX_PATCH_CMD == b % MAX_PATCH_CMD
  {
    assert a == MAX_PATCH_CMD * (a / MAX_PATCH_CMD);
  }

  /** What has been sent so far is the beginning of the commands. */
  lemma SentSoFar(sent: seq<Byte>, rest: seq<Byte>, n: nat)
    requires |sent| % MAX_PATCH_CMD == 0 || (rest == [] && |sent| == n)
    ensures PatchCommands(sent, 0) <= Commands(sent + rest, n)
  {
    hide PatchCommands, PsCommand;
    if |sent + rest| == n {
      CommandsPrefix(sent, rest, 0);
    } else {
      var whole := rest[..|rest| - |rest| % MAX_PATCH_CMD];
      SameRemainder(|sent|, |rest|);
      assert WholePieces(sent + rest) == sent + whole;
      CommandsPrefix(sent, whole, 0);
    }
  }

  /** The last piece sent so far is refused. */
  lemma PieceRefused(sent: seq<Byte>, rest: seq<Byte>, n: nat, was: seq<seq<Byte>>, log: seq<seq<Byte>>,
                     answer: nat -> bool)
    requires |sent| % MAX_PATCH_CMD == 0 || (rest == [] && |sent| == n)
    requires var m := |PatchCommands(sent, 0)|;
      m > 0 && Accepted(answer, |was|, m - 1) && !answer(|was| + m - 1) && log == was + PatchCommands(sent, 0)
    ensures Outcome(sent + rest, n, was, log, answer, -1)
  {
    hide PatchCommands, PsCommand, Commands;
    SentSoFar(sent, rest, n);
    var k, cmds := |PatchCommands(sent, 0)| - 1, Commands(sent + rest, n);
    assert cmds[..k + 1] == PatchCommands(sent, 0);
    assert StoppedAt(cmds, was, log, answer, k);
  }

  /** Builds the command in a local buffer and sends it. */
  method SendPiece(fd: Controller, index: nat, data: seq<Byte>) returns (ok: bool)
    requires 0 < |data| <= MAX_PATCH_CMD
    modifies fd
    ensures fd.log == old(fd.log) + [PsCommand(PS_WRITE_PATCH, index, data)]
    ensures fd.log == old(fd.log) + [[0x0B, 0xFC, |data| + 4, 8, index % 256, index / 256 % 256, |data|] + data]
    ensures ok == fd.answer(|old(fd.log)|)
  {
    hide PsCommand;
    var cmd := new Byte[HCI_MAX_CMD_SIZE](_ => 0);
    LoadHciPsHdr(cmd, PS_WRITE_PATCH, |data|, index);
    HeaderAndPayload(PS_WRITE_PATCH, index, data);
    PieceBytes(index, data);
    ghost var hdr := cmd[..7];
    forall i | 0 <= i < |data| { cmd[HCI_PS_CMD_HDR_LEN + i] := data[i]; }
    assert cmd[..7] == hdr;
    assert cmd[7..7 + |data|] == data;
    assert cmd[..7 + |data|] == cmd[..7] + cmd[7..7 + |data|];
    ok := fd.WriteCmd(cmd[..|data| + HCI_PS_CMD_HDR_LEN]);
  }

  /** A command is a header, which depends on the length of the payload only, and the payload. */
  lemma HeaderAndPayload(op: Byte, index: int, payload: seq<Byte>)
    ensures |PsCommand(op, index, seq(|payload|, _ => 0))| >= 7
    ensures PsCommand(op, index, payload) == PsCommand(op, index, seq(|payload|, _ => 0))[..7] + payload
  {
  }

  lemma PieceBytes(index: nat, data: seq<Byte>)
    requires |data| <= 244
    ensures PsCommand(PS_WRITE_PATCH, index, data)
            == [0x0B, 0xFC, |data| + 4, 8, index % 256, index / 256 % 256, |data|] + data
  {
  }

  lemma NoCommands()
    ensures PatchCommands([], 0) == []
  {
  }

  /** One piece, or None if the file ends inside it. */
  method ReadPiece(stream: File, len: nat) returns (data: Option<seq<Byte>>)
    requires stream.Valid()
    modifies stream
    ensures stream.Valid()
    ensures var b := ReadBytes(stream.text, old(stream.pos), len);
            data == (if |b.data| == len then Some(b.data) else None)
            && (|b.data| == len ==> stream.pos == b.pos)
  {
    hide Strtol, ReadBytes;
    var buf := [];
    ghost var all := ReadBytes(stream.text, stream.pos, len);
    assert [] + all.data == all.data;
    for i := 0 to len
      invariant stream.Valid() && |buf| == i
      invariant var rest := ReadBytes(stream.text, stream.pos, len - i);
        all == Piece(buf + rest.data, rest.pos)
    {
      ReadOne(stream.text, stream.pos, len - i);
      var byte := stream.Fgets(3);
      if byte == None { return None; }
      var v: Byte := Strtol(byte.value, 0, 16).0 % 256;
      ghost var rest := ReadBytes(stream.text, stream.pos, len - i - 1).data;
      assert buf + ([v] + rest) == buf + [v] + rest;
      buf := buf + [v];
    }
    NothingLeft(stream.text, stream.pos);
    assert buf + [] == buf;
    return Some(buf);
  }

  lemma NothingLeft(text: string, pos: nat)
    requires pos <= |text|
    ensures ReadBytes(text, pos, 0) == Piece([], pos)
  {
  }

  lemma ReadOne(text: string, pos: nat, n: nat)
    requires pos <= |text| && n > 0
    ensures var e := LineEnd(text, pos, 2);
            var rest := ReadBytes(text, e, n - 1);
            ReadBytes(text, pos, n)
            == if pos == |text| then Piece([], pos)
               else Piece([Strtol(text[pos..e], 0, 16).0 % 256] + rest.data, rest.pos)
  {
    hide Strtol;
  }

  /** Reading in two parts: the second is reached only if the file holds the first. */
  lemma {:induction false} SplitRead(text: string, pos: nat, m: nat, n: nat)
    requires pos <= |text| && m <= n
    ensures var a := ReadBytes(text, pos, m);
            var rest := ReadBytes(text, a.pos, n - m);
            ReadBytes(text, pos, n) == if |a.data| < m then a else Piece(a.data + rest.data, rest.pos)
    decreases m
  {
    hide Strtol, ReadBytes;
    if m == 0 {
      NothingLeft(text, pos);
      var all := ReadBytes(text, pos, n);
      assert [] + all.data == all.data;
    } else {
      ReadOne(text, pos, m);
      ReadOne(text, pos, n);
      if pos < |text| {
        var e := LineEnd(text, pos, 2);
        SplitRead(text, e, m - 1, n - 1);
        var x, a := Strtol(text[pos..e], 0, 16).0 % 256, ReadBytes(text, e, m - 1);
        var rest := ReadBytes(text, a.pos, n - m);
        assert [x] + (a.data + rest.data) == [x] + a.data + rest.data;
      }
    }
  }

  /** One more piece after full ones is one more command. */
  lemma {:induction false} AppendPiece(sent: seq<Byte>, piece: seq<Byte>, index: nat)
    requires |sent| % MAX_PATCH_CMD == 0 && 0 < |piece| <= MAX_PATCH_CMD
    ensures PatchCommands(sent + piece, index)
            == PatchCommands(sent, index)
               + [PsCommand(PS_WRITE_PATCH, index + |PatchCommands(sent, index)|, piece)]
    ensures |PatchCommands(sent, index)| == |sent| / MAX_PATCH_CMD
    decreases |sent|
  {
    if sent == [] {
      assert sent + piece == piece;
    } else {
      var all := sent + piece;
      assert |sent| >= MAX_PATCH_CMD;
      assert all[..MAX_PATCH_CMD] == sent[..MAX_PATCH_CMD];
      assert all[MAX_PATCH_CMD..] == sent[MAX_PATCH_CMD..] + piece;
      AppendPiece(sent[MAX_PATCH_CMD..], piece, index + 1);
      if |sent| == MAX_PATCH_CMD { assert sent[..MAX_PATCH_CMD] == sent && sent[MAX_PATCH_CMD..] == []; }
    }
  }

  // ---------- reassembly ----------

  /** The payloads of the patch-write commands, in order. */
  function Payloads(cmds: seq<seq<Byte>>): seq<Byte> {
    if cmds == [] then []
    else
      var m := DecodePs(cmds[0]);
      (if m.Some? && m.value.op == PS_WRITE_PATCH then m.value.payload else []) + Payloads(cmds[1..])
  }

  /** What two index bytes hold of a number. */
  function Low16(x: nat): nat { x % 0x1_0000 }

  /** The commands carry exactly the patch, whatever its size, and their indices modulo 2^16. */
  lemma {:induction false} CommandsReassemble(data: seq<Byte>, index: nat)
    ensures Payloads(PatchCommands(data, index)) == data
    ensures |PatchCommands(data, index)| == (|data| + MAX_PATCH_CMD - 1) / MAX_PATCH_CMD
    ensures forall i :: 0 <= i < |PatchCommands(data, index)| ==>
              var c := PatchCommands(data, index)[i];
              && |c| <= MAX_PATCH_CMD + HCI_PS_CMD_HDR_LEN <= HCI_MAX_CMD_SIZE
              && DecodePs(c).Some? && DecodePs(c).value.op == PS_WRITE_PATCH
              && DecodePs(c).value.index == Low16(index + i)
    decreases |data|
  {
    hide PsCommand, DecodePs, Low16;
    var cmds := PatchCommands(data, index);
    if |data| > MAX_PATCH_CMD {
      var head, rest := data[..MAX_PATCH_CMD], data[MAX_PATCH_CMD..];
      PieceUnderstood(head, index);
      CommandsReassemble(rest, index + 1);
      assert data == head + rest;
      assert cmds[1..] == PatchCommands(rest, index + 1);
      forall i | 0 < i < |cmds| ensures cmds[i] == PatchCommands(rest, index + 1)[i - 1] {}
    } else if |data| > 0 {
      PieceUnderstood(data, index);
      assert cmds[1..] == [];
      assert data + [] == data;
    }
  }

  /** The index that command i is understood with. */
  function IndexOf(data: seq<Byte>, index: nat, i: nat): nat
    requires i < |PatchCommands(data, index)|
  {
    var m := DecodePs(PatchCommands(data, index)[i]);
    if m.Some? then m.value.index else 0
  }

  /** All pieces are understood with their own number exactly if the numbers fit 16 bits. */
  lemma IndicesFitIff(data: seq<Byte>, index: nat)
    ensures (forall i :: 0 <= i < |PatchCommands(data, index)| ==> IndexOf(data, index, i) == index + i)
            <==> data == [] || index + |PatchCommands(data, index)| <= 0x1_0000
  {
    hide PsCommand, DecodePs, PatchCommands;
    CommandsReassemble(data, index);
    var n := |PatchCommands(data, index)|;
    forall i | 0 <= i < n ensures IndexOf(data, index, i) == Low16(index + i) {}
    if n > 0 { assert IndexOf(data, index, n - 1) == index + n - 1 <==> index + n <= 0x1_0000; }
  }

  lemma PieceUnderstood(piece: seq<Byte>, index: nat)
    requires |piece| <= MAX_PATCH_CMD
    ensures var c := PsCommand(PS_WRITE_PATCH, index, piece);
            |c| == |piece| + HCI_PS_CMD_HDR_LEN
            && DecodePs(c) == Some(PsMessage(PS_WRITE_PATCH, Low16(index), piece))
  {
    TwoBytes(index);
    assert PsCommand(PS_WRITE_PATCH, index, piece)[7..] == piece;
  }

  lemma TwoBytes(x: nat)
    ensures x % 256 + 256 * (x / 256 % 256) == Low16(x)
  {
    var q, y := x / 0x1_0000, x % 0x1_0000;
    var a, b := y / 256, y % 256;
    assert x == 0x1_0000 * q + y && y == 256 * a + b && a < 256;
    SplitByte(x, 256 * q + a, b);
    SplitByte(256 * q + a, q, a);
  }

  lemma SplitByte(x: nat, q: nat, b: nat)
    requires x == 256 * q + b && b < 256
    ensures x / 256 == q && x % 256 == b
  {
  }

  /** What the controller makes of a successful download: patch writes (operation 8), numbered modulo
      2^16, that carry the data, and at last the order to enable the patch (operation 11). */
  ghost predicate Downloaded(data: seq<Byte>, cmds: seq<seq<Byte>>) {
    var n := |cmds| - 1;
    && n >= 0 && cmds[n] == [0x0B, 0xFC, 4, 11, 0, 0, 0] && DecodePs(cmds[n]) == Some(PsMessage(11, 0, []))
    && (forall i :: 0 <= i < n ==>
          DecodePs(cmds[i]).Some? && DecodePs(cmds[i]).value.op == 8
          && DecodePs(cmds[i]).value.index == i % 0x1_0000)
    && Payloads(cmds[..n]) == data
  }

  lemma EnableBytes()
    ensures ENABLE_COMMAND == [0x0B, 0xFC, 4, 11, 0, 0, 0]
    ensures DecodePs(ENABLE_COMMAND) == Some(PsMessage(11, 0, []))
  {
    assert ENABLE_COMMAND == [0x0B, 0xFC, 4, 11, 0, 0, 0];
  }

  /** A success needs all bytes and acceptance of every command sent, and no more than that. */
  lemma OutcomeAnswers(data: seq<Byte>, n: nat, was: seq<seq<Byte>>, log: seq<seq<Byte>>,
                       answer: nat -> bool, r: int)
    requires Outcome(data, n, was, log, answer, r)
    ensures r >= 0 ==> forall i :: |was| <= i < |log| ==> answer(i)
    ensures (forall i :: answer(i)) ==> (r >= 0 <==> |data| == n)
  {
    hide PatchCommands, PsCommand;
  }

  lemma SuccessDownloads(data: seq<Byte>, n: nat, was: seq<seq<Byte>>, log: seq<seq<Byte>>,
                         answer: nat -> bool, r: int)
    requires Outcome(data, n, was, log, answer, r) && r >= 0
    ensures |was| + r + 1 == |log| && Downloaded(data, log[|was|..])
  {
    hide PatchCommands, DecodePs, Payloads, PsCommand;
    var cmds := PatchCommands(data, 0);
    var all := cmds + [ENABLE_COMMAND];
    assert log == was + all && log[|was|..] == all && all[..|all| - 1] == cmds;
    EnableBytes();
    CommandsReassemble(data, 0);
    forall i | 0 <= i < |cmds| ensures all[i] == cmds[i] {}
  }

  // ---------- a well-formed file ----------

  ghost predicate HexDigits(h: string) { forall i :: 0 <= i < |h| ==> IsDigit(h[i], 16) }

  function DecodeHex(h: string): seq<Byte> {
    if |h| < 2 then [] else [(16 * DigitValue(h[0]) + DigitValue(h[1])) % 256] + DecodeHex(h[2..])
  }

  lemma {:induction false} HexBytesRead(text: string, pos: nat, n: nat, h: string)
    requires |h| == 2 * n && HexDigits(h) && pos + 2 * n <= |text| && text[pos..pos + 2 * n] == h
    ensures ReadBytes(text, pos, n) == Piece(DecodeHex(h), pos + 2 * n)
    decreases n
  {
    hide Strtol, ReadBytes, LineEnd, IsDigit;
    if n == 0 {
      NothingLeft(text, pos);
    } else {
      assert text[pos] == h[0] && text[pos + 1] == h[1];
      ReadOne(text, pos, n);
      PairRead(text, pos);
      assert text[pos + 2..pos + 2 + 2 * (n - 1)] == h[2..];
      HexBytesRead(text, pos + 2, n - 1, h[2..]);
    }
  }

  /** One read takes a pair of digits. */
  lemma PairRead(text: string, pos: nat)
    requires pos + 2 <= |text| && IsDigit(text[pos], 16) && IsDigit(text[pos + 1], 16)
    ensures LineEnd(text, pos, 2) == pos + 2
    ensures Strtol(text[pos..pos + 2], 0, 16).0 == 16 * DigitValue(text[pos]) + DigitValue(text[pos + 1])
  {
    hide Strtol;
    NoSign(text[pos]);
    NoSign(text[pos + 1]);
    LineEndFull(text, pos, 2);
    assert text[pos..pos + 2] == [text[pos], text[pos + 1]];
    StrtolPair(text[pos], text[pos + 1]);
  }

  /** A line end inside the bytes is taken with the digit in front of it. */
  lemma BrokenPair()
    ensures ReadBytes("4\n2f", 0, 2).data == [4, 0x2F]
  {
    hide Strtol;
    var s := "4\n2f";
    assert PrintNat(4, 16) == "4";
    LineEndAt(s, 0, 2, 2);
    assert s[0..2] == "4\n" && "4\n"[0..1] == "4";
    StrtolPrintedNat("4\n", 0, 1, 4, 16);
    PairRead(s, 2);
    NothingLeft(s, 4);
    ReadOne(s, 0, 2);
    ReadOne(s, 2, 1);
  }

  /** The text from pos on starts with s. */
  predicate StartsWith(text: string, pos: nat, s: string)
    requires pos <= |text|
  {
    pos + |s| <= |text| && text[pos..pos + |s|] == s
  }

  lemma {:induction false} HeaderRead(text: string, pos: nat, blanks: nat, n: nat, buffer: string, ok: bool)
    requires pos <= |text| && Int32(n)
    requires StartsWith(text, pos, seq(blanks, _ => '\n') + PrintNat(n, 16) + "\n")
    ensures ReadHeader(text, pos, buffer, ok) == Announced(n, pos + blanks + |PrintNat(n, 16)| + 1)
    decreases blanks
  {
    hide PrintNat, ReadHeader;
    var p := PrintNat(n, 16);
    var lead := seq(blanks, _ => '\n') + p + "\n";
    if blanks > 0 {
      assert lead[0] == '\n' && text[pos] == text[pos..pos + |lead|][0];
      BlankLine(text, pos, buffer, ok);
      var rest := seq(blanks - 1, _ => '\n') + p + "\n";
      assert lead[1..] == rest;
      assert text[pos + 1..pos + |lead|] == text[pos..pos + |lead|][1..];
      HeaderRead(text, pos + 1, blanks - 1, n, "\n", ok);
    } else {
      assert lead == p + "\n";
      NumberLineRead(text, pos, n, buffer, ok);
    }
  }

  lemma BlankLine(text: string, pos: nat, buffer: string, ok: bool)
    requires pos < |text| && text[pos] == '\n'
    ensures ReadHeader(text, pos, buffer, ok) == ReadHeader(text, pos + 1, "\n", ok)
  {
    hide Strtol;
    assert LineEnd(text, pos, MAX_PATCH_CMD - 1) == pos + 1;
    assert text[pos..pos + 1] == "\n" && StrLen("\n"[1..]) == 0;
  }

  lemma NumberLineRead(text: string, pos: nat, n: nat, buffer: string, ok: bool)
    requires pos <= |text| && Int32(n) && StartsWith(text, pos, PrintNat(n, 16) + "\n")
    ensures ReadHeader(text, pos, buffer, ok) == Announced(n, pos + |PrintNat(n, 16)| + 1)
  {
    hide Strtol, PrintNat, StrLen, LineEnd;
    var p := PrintNat(n, 16);
    var line := p + "\n";
    var e := pos + |line|;
    NumberLineFacts(n);
    assert text[pos..e] == line;
    forall i | pos <= i < e ensures text[i] == line[i - pos] { assert text[i] == text[pos..e][i - pos]; }
    LineEndAt(text, pos, MAX_PATCH_CMD - 1, e);
    assert line[0..|p|] == p;
    StrtolPrintedNat(line, 0, |p|, n, 16);
  }

  /** The four kinds of lines in front of the bytes: an empty one, a patch location, one that starts with
      a hexadecimal digit, and any other. */
  lemma HeaderLine(text: string, pos: nat, l: string, buffer: string, ok: bool)
    requires pos <= |text| && 0 < |l| <= 243 && StartsWith(text, pos, l)
    requires l[|l| - 1] == '\n' && forall i :: 0 <= i < |l| - 1 ==> l[i] != '\n' && l[i] != '\0'
    ensures var h := ReadHeader(text, pos, buffer, ok);
      if l == "\n" then h == ReadHeader(text, pos + 1, l, ok)
      else if |l| >= 3 && l[0] == 'D' && l[1] == 'A' && l[2] == ':' then
        h == if ok then ReadHeader(text, pos + |l|, l, ok) else Refused
      else if '0' <= l[0] <= '9' || 'a' <= l[0] <= 'f' || 'A' <= l[0] <= 'F' then
        h == Announced(Strtol(l, 0, 16).0, pos + |l|)
      else h == Refused
  {
    hide Strtol, LineEnd, StrLen;
    var e := pos + |l|;
    assert text[pos..e] == l;
    forall i | pos <= i < e ensures text[i] == l[i - pos] { assert text[i] == text[pos..e][i - pos]; }
    LineEndAt(text, pos, MAX_PATCH_CMD - 1, e);
    if |l| >= 2 { LongerThanOne(l); } else { assert l == "\n" && StrLen(l) <= 1 by { OneOrNone(l); } }
    assert PATCH_LOC_KEY == ['D', 'A', ':'];
    assert PATCH_LOC_KEY <= l <==> |l| >= 3 && l[0] == 'D' && l[1] == 'A' && l[2] == ':';
  }

  lemma OneOrNone(s: string)
    requires |s| == 1
    ensures StrLen(s) <= 1
  {
    assert s[1..] == "";
  }

  /** A printed count is a short line that starts with a digit and no patch location. */
  lemma NumberLineFacts(n: nat)
    requires Int32(n)
    ensures var line := PrintNat(n, 16) + "\n";
      && |line| <= 9 && StrLen(line) > 1 && !(PATCH_LOC_KEY <= line) && IsDigit(line[0], 16)
      && forall i :: 0 <= i < |line| - 1 ==> line[i] != '\n'
  {
    hide PrintNat, StrLen;
    var p := PrintNat(n, 16);
    var line := p + "\n";
    PrintedDigits(n, 16);
    assert Power(16, 4) == 65536;
    assert Power(16, 8) == 65536 * 65536;
    PrintedLength(n, 16, 8);
    forall i | 0 <= i < |p| ensures line[i] != '\n' && line[i] != ':' && line[i] != '\0' && IsDigit(line[i], 16) {
      assert line[i] == p[i];
      NoSign(p[i]);
    }
    LongerThanOne(line);
    assert PATCH_LOC_KEY[2] == ':' && |PATCH_LOC_KEY| == 3;
    assert |line| > 2 ==> line[2] != ':';
  }

  lemma NoSign(c: char)
    requires IsDigit(c, 16)
    ensures c != '\n' && c != ':' && c != '\0'
  {
  }

  lemma LongerThanOne(s: string)
    requires |s| >= 2 && s[0] != '\0' && s[1] != '\0'
    ensures StrLen(s) > 1
  {
    assert StrLen(s) == 1 + StrLen(s[1..]) && StrLen(s[1..]) == 1 + StrLen(s[1..][1..]);
  }

  /** A file that announces n > 0 bytes and gives them as 2n hex digits reaches the controller as
      consecutive pieces that reassemble to exactly those bytes; the enable command comes last
      (contract of PsPatchDownload). */
  lemma PatchReassembles(text: string, blanks: nat, n: nat, h: string, tail: string, stale: string, ok: bool)
    requires 0 < n && Int32(n) && |h| == 2 * n && HexDigits(h)
    requires text == seq(blanks, _ => '\n') + PrintNat(n, 16) + "\n" + h + tail
    ensures var hd := ReadHeader(text, 0, stale, ok);
            && hd.Announced? && hd.count == n && hd.pos <= |text|
            && var b := ReadBytes(text, hd.pos, n);
               && |b.data| == n && b.data == DecodeHex(h)
               && |PatchCommands(b.data, 0)| == (n + MAX_PATCH_CMD - 1) / MAX_PATCH_CMD
               && Payloads(PatchCommands(b.data, 0)) == DecodeHex(h)
               && forall i :: 0 <= i < |PatchCommands(b.data, 0)| ==> IndexOf(b.data, 0, i) == Low16(i)
  {
    hide PrintNat, ReadHeader, ReadBytes, DecodeHex, PatchCommands, Payloads, DecodePs;
    var lead := seq(blanks, _ => '\n') + PrintNat(n, 16) + "\n";
    assert text[0..] == text && text == lead + (h + tail);
    assert text[0..0 + |lead|] == lead;
    HeaderRead(text, 0, blanks, n, stale, ok);
    assert text[|lead|..|lead| + 2 * n] == h;
    HexBytesRead(text, |lead|, n, h);
    DecodedLength(h);
    CommandsReassemble(DecodeHex(h), 0);
  }

  lemma {:induction false} DecodedLength(h: string)
    ensures |DecodeHex(h)| == |h| / 2
  {
    if |h| >= 2 { DecodedLength(h[2..]); }
  }
}
