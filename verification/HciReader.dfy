/**
 Reading one HCI event from a UART.  The port delivers its bytes in chunks of any size; a read
 returns at most the requested number of bytes and never crosses a chunk.
 */
module HciReader {
  import opened Bytes
  import opened Wrappers

  const EVENT_PKT: Byte := 0x04

  // ---------- the port ----------

  function Flatten(chunks: seq<seq<Byte>>): seq<Byte> {
    if chunks == [] then [] else chunks[0] + Flatten(chunks[1..])
  }

  function Min(a: int, b: int): int { if a < b then a else b }

  function Max(a: int, b: int): int { if a < b then b else a }

  class Port {
    var chunks: seq<seq<Byte>>
    ghost var high: nat          // one more than the highest buffer index that a read has written

    ghost predicate Valid()
      reads this`chunks
    {
      forall i :: 0 <= i < |chunks| ==> chunks[i] != []
    }

    ghost function Pending(): seq<Byte>
      reads this`chunks
    {
      Flatten(chunks)
    }

    constructor (chunks: seq<seq<Byte>>)
      requires forall i :: 0 <= i < |chunks| ==> chunks[i] != []
      ensures Valid() && this.chunks == chunks && high == 0
    {
      this.chunks, high := chunks, 0;
    }

    /** Up to n bytes into buf at offset; -1 when nothing will come any more. */
    method Read(buf: array<Byte>, offset: nat, n: nat) returns (r: int)
      requires Valid() && n > 0 && offset + n <= buf.Length
      modifies this, buf
      ensures Valid()
      ensures r == -1 || 0 < r <= n
      ensures high == if r > 0 then Max(old(high), offset + r) else old(high)
      ensures r == -1 <==> old(Pending()) == []
      ensures r == -1 ==> Pending() == [] && buf[..] == old(buf[..])
      ensures r > 0 ==> r <= |old(Pending())| && Pending() == old(Pending())[r..]
      ensures r > 0 ==> buf[offset..offset + r] == old(Pending())[..r]
      ensures forall i :: 0 <= i < buf.Length && (i < offset || offset + r <= i) ==> buf[i] == old(buf[i])
    {
      if chunks == [] { return -1; }
      var head := chunks[0];
      r := if |head| <= n then |head| else n;
      forall i | 0 <= i < r { buf[offset + i] := head[i]; }
      high := Max(high, offset + r);
      ghost var all := Flatten(chunks);
      ghost var rest := Flatten(chunks[1..]);
      assert all == head + rest && all[..r] == head[..r];
      if r == |head| {
        chunks := chunks[1..];
        assert all[r..] == rest;
      } else {
        chunks := [head[r..]] + chunks[1..];
        assert chunks[1..] == old(chunks)[1..];
        assert all[r..] == head[r..] + rest;
      }
    }
  }

  // ---------- what reading an event means ----------

  datatype Event = Event(bytes: seq<Byte>, rest: seq<Byte>)

  /** The bytes from the first packet indicator on. */
  function SkipToEvent(b: seq<Byte>): (r: seq<Byte>)
    ensures |r| <= |b| && (r != [] ==> r[0] == EVENT_PKT)
  {
    if b == [] || b[0] == EVENT_PKT then b else SkipToEvent(b[1..])
  }

  /** The event a reader with room for size bytes obtains from a byte stream. */
  function ReadEvent(b: seq<Byte>, size: int): Option<Event> {
    if size <= 0 then None
    else
      var s := SkipToEvent(b);
      if |s| < 3 then None
      else
        var n := 3 + if size < 3 then 0 else Min(s[2], size - 3);
        if |s| < n then None else Some(Event(s[..n], s[n..]))
  }

  /** The stream after the call, which has been drained if there was no complete event. */
  function AfterRead(b: seq<Byte>, size: int): seq<Byte> {
    if size <= 0 then b
    else if ReadEvent(b, size).Some? then ReadEvent(b, size).value.rest else []
  }

  /** How many bytes of the buffer are written: one while looking for the indicator, then the bytes
      of the event header and of the parameters that are read, as far as they arrive. */
  function Extent(b: seq<Byte>, size: int): nat {
    if size <= 0 || b == [] then 0
    else
      var s := SkipToEvent(b);
      if s == [] then 1
      else if |s| < 3 || size < 3 then Min(|s|, 3)
      else Min(|s|, 3 + Min(s[2], size - 3))
  }

  /** A byte at or behind size is written exactly when size is 1 or 2 and the stream holds more than
      size bytes from the indicator on. */
  lemma SizeRespectedIff(b: seq<Byte>, size: int)
    requires size > 0
    ensures Extent(b, size) > size <==> size < 3 && |SkipToEvent(b)| > size
  {
  }

  /** Reads one event.  Three bytes are written even if size is smaller, so the buffer must have
      room for them.  Bytes beyond what was read keep their value. */
  method ReadHciEvent(port: Port, buf: array<Byte>, size: int) returns (count: int)
    requires port.Valid() && size <= buf.Length && 3 <= buf.Length
    modifies port, buf
    ensures port.Valid()
    ensures port.Pending() == AfterRead(old(port.Pending()), size)
    ensures var e := ReadEvent(old(port.Pending()), size);
            match e
            case None => count == -1
            case Some(v) => count == |v.bytes| && buf[..count] == v.bytes
    ensures port.high == Extent(old(port.Pending()), size)
    ensures size > 0 ==> (port.high > size <==> size < 3 && |SkipToEvent(old(port.Pending()))| > size)
    ensures forall i :: port.high <= i < buf.Length ==> buf[i] == old(buf[i])
  {
    port.high := 0;
    if size <= 0 { return -1; }
    hide SkipToEvent;
    SizeRespectedIff(port.Pending(), size);
    ghost var b := port.Pending();
    var found := FindIndicator(port, buf);
    ghost var s := SkipToEvent(b);
    if !found { return -1; }
    count := 1;
    count := ReadUpTo(port, buf, count, 3, s);
    if count == -1 { return; }
    assert buf[2] == buf[..3][2] == s[2];
    var remain: int := if buf[2] < size - 3 then buf[2] else size - 3;
    if remain > 0 {
      count := ReadUpTo(port, buf, count, 3 + remain, s);
    }
  }

  /** Reads single bytes until the packet indicator is in buf[0]. */
  method FindIndicator(port: Port, buf: array<Byte>) returns (found: bool)
    requires port.Valid() && 1 <= buf.Length && port.high == 0
    modifies port, buf
    ensures port.high == if old(port.Pending()) == [] then 0 else 1
    ensures port.Valid() && forall i :: port.high <= i < buf.Length ==> buf[i] == old(buf[i])
    ensures found <==> SkipToEvent(old(port.Pending())) != []
    ensures found ==> buf[0] == EVENT_PKT
                      && SkipToEvent(old(port.Pending())) == [EVENT_PKT] + port.Pending()
    ensures !found ==> port.Pending() == []
  {
    ghost var b := port.Pending();
    while true
      invariant port.Valid() && SkipToEvent(port.Pending()) == SkipToEvent(b)
      invariant port.high == (if port.Pending() == b then 0 else 1) && (b == [] ==> port.Pending() == [])
      invariant |port.Pending()| <= |b| && (port.Pending() != b ==> |port.Pending()| < |b|)
      invariant forall i :: port.high <= i < buf.Length ==> buf[i] == old(buf[i])
      decreases |port.Pending()|
    {
      ghost var p := port.Pending();
      var r := port.Read(buf, 0, 1);
      if r <= 0 { return false; }
      assert buf[0] == buf[0..1][0] == p[0];
      if buf[0] == EVENT_PKT {
        assert p == [p[0]] + p[1..];
        return true;
      }
    }
  }

  /** Reads on until the first `goal` bytes of the stream s are in the buffer. */
  method ReadUpTo(port: Port, buf: array<Byte>, start: nat, goal: nat, ghost s: seq<Byte>) returns (count: int)
    requires port.Valid() && start <= goal <= buf.Length && start <= |s|
    requires buf[..start] == s[..start] && port.Pending() == s[start..] && port.high == start
    modifies port, buf
    ensures port.high == Min(|s|, goal)
    ensures port.Valid() && forall i :: Min(|s|, goal) <= i < buf.Length ==> buf[i] == old(buf[i])
    ensures |s| >= goal ==> count == goal && buf[..goal] == s[..goal] && port.Pending() == s[goal..]
    ensures |s| < goal ==> count == -1 && port.Pending() == []
  {
    count := start;
    while count < goal
      invariant port.Valid() && start <= count <= goal && count <= |s|
      invariant buf[..count] == s[..count] && port.Pending() == s[count..] && port.high == count
      invariant forall i :: count <= i < buf.Length ==> buf[i] == old(buf[i])
    {
      ghost var c, got := count, buf[..count];
      var r := port.Read(buf, count, goal - count);
      if r <= 0 { return -1; }
      assert buf[..c] == got;
      assert buf[..c + r] == buf[..c] + buf[c..c + r];
      assert s[..c + r] == s[..c] + s[c..][..r];
      count := count + r;
    }
  }

  // ---------- fragmentation and framing ----------

  /** Two ports that hold the same bytes, however they are cut into chunks, yield the same event:
      the result is a function of the bytes alone. */
  lemma {:induction false} CutAnywhere(chunks: seq<seq<Byte>>, i: nat, k: nat)
    requires i < |chunks| && 0 < k < |chunks[i]|
    ensures Flatten(chunks[..i] + [chunks[i][..k], chunks[i][k..]] + chunks[i + 1..]) == Flatten(chunks)
    decreases i
  {
    var cut := chunks[..i] + [chunks[i][..k], chunks[i][k..]] + chunks[i + 1..];
    if i == 0 {
      assert cut[0] == chunks[0][..k] && cut[1..][0] == chunks[0][k..];
      assert cut[1..][1..] == chunks[1..];
      assert chunks[0] == chunks[0][..k] + chunks[0][k..];
    } else {
      assert cut[0] == chunks[0];
      assert cut[1..] == chunks[1..][..i - 1] + [chunks[i][..k], chunks[i][k..]] + chunks[1..][i..];
      CutAnywhere(chunks[1..], i - 1, k);
    }
  }

  datatype Packet = Packet(code: Byte, params: seq<Byte>)

  predicate Encodable(p: Packet) { |p.params| < 256 }

  /** Indicator, event code, parameter length, parameters (Bluetooth Core Specification, Vol 4
      Part A section 2 and Part E section 5.4.4). */
  function Encode(p: Packet): seq<Byte>
    requires Encodable(p)
  {
    [4, p.code, |p.params|] + p.params
  }

  /** What a reader with room for three bytes or more makes of a stream, byte by byte: it skips what
      comes before the first 04, takes three bytes and as many more as the third says and as fit, and
      leaves the rest; without all of these there is no event and the stream is used up. */
  lemma EventRead(noise: seq<Byte>, code: Byte, n: Byte, tail: seq<Byte>, size: int)
    requires size >= 3 && forall i :: 0 <= i < |noise| ==> noise[i] != 4
    ensures var b := noise + ([4, code, n] + tail);
      var m := if n < size - 3 then n else size - 3;
      if |tail| >= m then ReadEvent(b, size) == Some(Event([4, code, n] + tail[..m], tail[m..]))
                          && AfterRead(b, size) == tail[m..]
      else ReadEvent(b, size) == None && AfterRead(b, size) == []
  {
    var e := [4, code, n] + tail;
    NoiseSkipped(noise, e, size);
    assert SkipToEvent(e) == e && e[2] == n;
    var m := if n < size - 3 then n else size - 3;
    if |tail| >= m {
      assert e[..3 + m] == [4, code, n] + tail[..m] && e[3 + m..] == tail[m..];
    }
  }

  /** Streams without an event header. */
  lemma {:induction false} NoEventRead(noise: seq<Byte>, start: seq<Byte>, size: int)
    requires (forall i :: 0 <= i < |noise| ==> noise[i] != 4) && size > 0
    requires start == [] || (|start| <= 2 && start[0] == 4)
    ensures ReadEvent(noise + start, size) == None && AfterRead(noise + start, size) == []
    decreases |noise|
  {
    if noise == [] {
      assert noise + start == start;
    } else {
      assert (noise + start)[1..] == noise[1..] + start;
      NoEventRead(noise[1..], start, size);
    }
  }

  /** A packet and the bytes in front of it, none of which is an indicator. */
  datatype Framed = Framed(noise: seq<Byte>, packet: Packet)

  ghost predicate WellFramed(f: Framed) {
    Encodable(f.packet) && forall i :: 0 <= i < |f.noise| ==> f.noise[i] != 4
  }

  ghost function EncodeAll(fs: seq<Framed>): seq<Byte>
    requires forall i :: 0 <= i < |fs| ==> WellFramed(fs[i])
  {
    if fs == [] then []
    else
      assert WellFramed(fs[0]);
      fs[0].noise + (Encode(fs[0].packet) + EncodeAll(fs[1..]))
  }

  /** A packet at the front of the stream is recovered whole, leaving exactly what follows it, iff
      its parameters fit the reader's buffer. */
  lemma PacketRecovered(p: Packet, rest: seq<Byte>, size: int)
    requires Encodable(p) && size >= 3
    ensures ReadEvent(Encode(p) + rest, size) == Some(Event(Encode(p), rest)) <==> |p.params| <= size - 3
  {
    var b := Encode(p) + rest;
    var n := 3 + Min(|p.params|, size - 3);
    assert SkipToEvent(b) == b && b[2] == |p.params|;
    assert ReadEvent(b, size) == Some(Event(b[..n], b[n..]));
    if |p.params| <= size - 3 {
      assert b[..n] == Encode(p) && b[n..] == rest;
    } else {
      assert |b[..n]| < |Encode(p)|;
    }
  }

  /** The events that repeated calls return. */
  function ReadAll(b: seq<Byte>, size: int): seq<seq<Byte>>
    decreases |b|
  {
    var e := ReadEvent(b, size);
    if e == None || |e.value.rest| >= |b| then [] else [e.value.bytes] + ReadAll(e.value.rest, size)
  }

  /** Bytes other than the indicator in front of an event do not matter. */
  lemma {:induction false} NoiseSkipped(noise: seq<Byte>, b: seq<Byte>, size: int)
    requires forall i :: 0 <= i < |noise| ==> noise[i] != EVENT_PKT
    ensures ReadEvent(noise + b, size) == ReadEvent(b, size)
  {
    if noise == [] {
      assert noise + b == b;
    } else {
      assert (noise + b)[1..] == noise[1..] + b;
      NoiseSkipped(noise[1..], b, size);
    }
  }

  /** A reader with room for the longest event recovers any stream of packets in order. */
  lemma {:induction false} PacketsRecovered(fs: seq<Framed>, size: int)
    requires size >= 258 && forall i :: 0 <= i < |fs| ==> WellFramed(fs[i])
    ensures var events := ReadAll(EncodeAll(fs), size);
            && |events| == |fs|
            && forall i :: 0 <= i < |fs| ==> WellFramed(fs[i]) && events[i] == Encode(fs[i].packet)
    decreases |fs|
  {
    if fs != [] {
      assert WellFramed(fs[0]);
      var rest := EncodeAll(fs[1..]);
      NoiseSkipped(fs[0].noise, Encode(fs[0].packet) + rest, size);
      PacketRecovered(fs[0].packet, rest, size);
      PacketsRecovered(fs[1..], size);
    }
  }
}
