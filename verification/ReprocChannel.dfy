/** The reprocess channel: which reprocess stream belongs to which source stream. */
module ReprocChannel {
  import opened Wrappers

  const MAX_STREAMS := 4
  const NO_ERROR := 0
  const NO_MEMORY := -12
  const BAD_VALUE := -22

  datatype StreamType = Preview | Postview | Snapshot | Video | Metadata | OfflineProc | OtherType

  datatype Dimension = Dimension(width: int, height: int)

  datatype Rotation = Rotate0 | Rotate90 | Rotate180 | Rotate270

  /** The post-processing features asked for; None: no rotation, no flip. */
  datatype Features = Features(cac: bool, rotation: Option<Rotation>, flip: Option<int>)

  /** What a reprocess stream is told about its input. */
  datatype Input = Input(serverId: nat, kind: StreamType, features: Features)

  datatype Stream = Stream(handle: nat, serverId: nat, kind: StreamType, dim: Dimension, input: Option<Input>)

  predicate IsOriginalTypeOf(s: Stream, kind: StreamType) {
    s.kind.OfflineProc? && s.input.Some? && s.input.value.kind == kind
  }

  /** The parameters consulted; `flipMode` is the answer for snapshot streams. */
  datatype Params = Params(hdr: bool, hdrThumbnail: bool, zsl: bool, flipMode: int)

  /** Streams that take no part in reprocessing. */
  predicate Skipped(s: Stream, p: Params) {
    || s.kind.Metadata?
    || (p.hdr && !p.hdrThumbnail
        && (s.kind.Preview? || s.kind.Postview? || IsOriginalTypeOf(s, Preview) || IsOriginalTypeOf(s, Postview)))
  }

  /** Metadata is always skipped; with HDR and no thumbnail of it, so are previews and postviews and what
      was made from them; nothing else is. */
  lemma SkippedIff(s: Stream, p: Params)
    ensures !p.hdr || p.hdrThumbnail ==> (Skipped(s, p) <==> s.kind == Metadata)
    ensures p.hdr && !p.hdrThumbnail ==>
      (Skipped(s, p) <==>
         s.kind in {Metadata, Preview, Postview}
         || (s.kind == OfflineProc && s.input.Some? && s.input.value.kind in {Preview, Postview}))
  {
  }

  /** What happens when a reprocess stream for one source is made. */
  datatype Outcome = NoInfoBuffer | InitFails(rc: int) | Created(handle: nat, serverId: nat)

  function FeaturesFor(s: Stream, config: Features, p: Params): Features {
    var f := if s.kind.Snapshot? || IsOriginalTypeOf(s, Snapshot) then config else config.(cac := false);
    if p.zsl && s.kind.Snapshot? && p.flipMode > 0 then f.(flip := Some(p.flipMode)) else f
  }

  function DimensionFor(s: Stream, config: Features): Dimension {
    if config.rotation == Some(Rotate90) || config.rotation == Some(Rotate270)
    then Dimension(s.dim.height, s.dim.width) else s.dim
  }

  /** The reprocess stream made from a source stream. */
  function Built(s: Stream, config: Features, p: Params, o: Outcome): Stream
    requires o.Created?
  {
    Stream(o.handle, o.serverId, OfflineProc, DimensionFor(s, config),
           Some(Input(s.serverId, s.kind, FeaturesFor(s, config, p))))
  }

  datatype Entry = Entry(source: nat, stream: Stream)

  /** The mapping that the first n sources give rise to, when every stream can be made. */
  function Mapping(src: seq<Stream>, outs: seq<Outcome>, config: Features, p: Params, n: nat): seq<Entry>
    requires n <= |src| == |outs| && AllCreated(src, outs, p, n)
  {
    if n == 0 then []
    else
      var m := Mapping(src, outs, config, p, n - 1);
      if Skipped(src[n - 1], p) then m
      else m + [Entry(src[n - 1].handle, Built(src[n - 1], config, p, outs[n - 1]))]
  }

  predicate AllCreated(src: seq<Stream>, outs: seq<Outcome>, p: Params, n: nat)
    requires n <= |src| == |outs|
  {
    forall i :: 0 <= i < n && !Skipped(src[i], p) ==> outs[i].Created?
  }

  /** The stream for source k is the first that cannot be made. */
  predicate FailsAt(src: seq<Stream>, outs: seq<Outcome>, p: Params, k: nat)
    requires k < |src| == |outs|
  {
    AllCreated(src, outs, p, k) && !Skipped(src[k], p) && !outs[k].Created?
  }

  /** How many of the first n sources take part. */
  function Unskipped(src: seq<Stream>, p: Params, n: nat): (k: nat)
    requires n <= |src|
    ensures k <= n
  {
    if n == 0 then 0 else Unskipped(src, p, n - 1) + if Skipped(src[n - 1], p) then 0 else 1
  }

  lemma {:induction false} TooMany(src: seq<Stream>, p: Params, m: nat, n: nat)
    requires m <= n <= |src|
    ensures Unskipped(src, p, m) <= Unskipped(src, p, n)
    decreases n
  {
    hide Skipped;
    if m < n { TooMany(src, p, m, n - 1); }
  }

  lemma NoneYet(src: seq<Stream>, outs: seq<Outcome>, config: Features, p: Params)
    requires |src| == |outs|
    ensures AllCreated(src, outs, p, 0) && Unskipped(src, p, 0) == 0 && Mapping(src, outs, config, p, 0) == []
  {
  }

  lemma OneMore(src: seq<Stream>, outs: seq<Outcome>, config: Features, p: Params, i: nat)
    requires i < |src| == |outs| && AllCreated(src, outs, p, i)
    ensures AllCreated(src, outs, p, i + 1) <==> !FailsAt(src, outs, p, i)
    ensures FailsAt(src, outs, p, i) ==> !AllCreated(src, outs, p, |outs|)
    ensures FailsAt(src, outs, p, i) <==> !Skipped(src[i], p) && !outs[i].Created?
    ensures Unskipped(src, p, i + 1) == Unskipped(src, p, i) + if Skipped(src[i], p) then 0 else 1
    ensures AllCreated(src, outs, p, i + 1) ==>
      Mapping(src, outs, config, p, i + 1)
      == Mapping(src, outs, config, p, i)
         + if Skipped(src[i], p) then [] else [Entry(src[i].handle, Built(src[i], config, p, outs[i]))]
  {
    hide Skipped, Built;
  }

  /** On a channel that has `used` streams, the table is full when the source handle for source k
      is to be stored. */
  predicate FullAt(src: seq<Stream>, outs: seq<Outcome>, p: Params, used: nat, k: nat)
    requires k < |src| == |outs|
  {
    && AllCreated(src, outs, p, k) && !Skipped(src[k], p) && !outs[k].NoInfoBuffer?
    && used + Unskipped(src, p, k) == MAX_STREAMS
  }

  lemma TableFull(src: seq<Stream>, outs: seq<Outcome>, p: Params, used: nat, k: nat)
    requires k < |src| == |outs| && AllCreated(src, outs, p, k) && !Skipped(src[k], p)
    requires !outs[k].NoInfoBuffer? && used + Unskipped(src, p, k) == MAX_STREAMS
    ensures FullAt(src, outs, p, used, k)
  {
  }

  /** If all sources are handled, or the first failure comes before the table is full, its end is
      never reached. */
  lemma NeverFull(src: seq<Stream>, outs: seq<Outcome>, p: Params, used: nat, i: nat)
    requires i <= |src| == |outs| && used + Unskipped(src, p, i) <= MAX_STREAMS
    requires i < |src| ==>
      FailsAt(src, outs, p, i) && (outs[i].NoInfoBuffer? || used + Unskipped(src, p, i) < MAX_STREAMS)
    ensures forall k :: 0 <= k < |outs| ==> !FullAt(src, outs, p, used, k)
  {
    hide Skipped;
    forall k | 0 <= k < |outs| ensures !FullAt(src, outs, p, used, k) {
      if k < i { TooMany(src, p, k + 1, i); }
    }
  }

  /** A channel whose streams and the unskipped sources exceed the table gets to its end, if every
      stream can be made. */
  lemma {:induction false} ExcessFillsTable(src: seq<Stream>, outs: seq<Outcome>, p: Params, used: nat, n: nat)
    requires n <= |src| == |outs| && AllCreated(src, outs, p, n)
    requires used <= MAX_STREAMS < used + Unskipped(src, p, n)
    ensures exists k :: 0 <= k < n && FullAt(src, outs, p, used, k)
  {
    hide Skipped;
    if used + Unskipped(src, p, n - 1) > MAX_STREAMS {
      ExcessFillsTable(src, outs, p, used, n - 1);
    } else {
      assert FullAt(src, outs, p, used, n - 1);
    }
  }

  /** So adding the streams of one source channel twice does, if it has three or more to add. */
  lemma SecondCallFillsTable(src: seq<Stream>, outs: seq<Outcome>, p: Params)
    requires |src| == |outs| <= MAX_STREAMS && AllCreated(src, outs, p, |src|) && Unskipped(src, p, |src|) >= 3
    ensures exists k :: 0 <= k < |src| && FullAt(src, outs, p, Unskipped(src, p, |src|), k)
  {
    ExcessFillsTable(src, outs, p, Unskipped(src, p, |src|), |src|);
  }

  /** OutOfTable: a source handle would be stored behind the end of the table. */
  datatype Adding = Done(rc: int) | OutOfTable

  /** Entry i is the first for a source handle. */
  ghost predicate FirstEntry(m: seq<Entry>, source: nat, i: int) {
    0 <= i < |m| && m[i].source == source && forall j :: 0 <= j < i ==> m[j].source != source
  }

  lemma {:induction false} LookupIsFirst(m: seq<Entry>, source: nat)
    ensures match Lookup(m, source)
            case Some(s) => exists i :: FirstEntry(m, source, i) && m[i].stream == s
            case None => forall i :: 0 <= i < |m| ==> m[i].source != source
  {
    if m != [] {
      if m[0].source == source {
        assert FirstEntry(m, source, 0);
      } else {
        LookupIsFirst(m[1..], source);
        if i :| FirstEntry(m[1..], source, i) && Lookup(m, source) == Some(m[1..][i].stream) {
          assert FirstEntry(m, source, i + 1);
        }
      }
    }
  }

  /** First entry for a source handle. */
  function Lookup(m: seq<Entry>, source: nat): Option<Stream> {
    if m == [] then None
    else if m[0].source == source then Some(m[0].stream) else Lookup(m[1..], source)
  }

  lemma {:induction false} LookupAppend(m: seq<Entry>, e: Entry, source: nat)
    ensures Lookup(m + [e], source)
            == if Lookup(m, source).Some? then Lookup(m, source)
               else if e.source == source then Some(e.stream) else None
  {
    if m == [] {
      assert m + [e] == [e] && [e][1..] == [];
    } else {
      assert (m + [e])[1..] == m[1..] + [e];
      LookupAppend(m[1..], e, source);
    }
  }

  predicate Distinct(src: seq<Stream>) {
    forall i, j :: 0 <= i < j < |src| ==> src[i].handle != src[j].handle
  }

  /** Looking up a source handle finds the stream built from that source, nothing for a skipped
      source, and nothing for a handle that is not a source. */
  lemma {:induction false} LookupFindsBuilt(src: seq<Stream>, outs: seq<Outcome>, config: Features,
                                            p: Params, n: nat, source: nat)
    requires n <= |src| == |outs| && AllCreated(src, outs, p, n) && Distinct(src)
    ensures var r := Lookup(Mapping(src, outs, config, p, n), source);
      && (forall i :: 0 <= i < n && src[i].handle == source ==>
            r == if Skipped(src[i], p) then None else Some(Built(src[i], config, p, outs[i])))
      && ((forall i :: 0 <= i < n ==> src[i].handle != source) ==> r == None)
  {
    hide Skipped, Built;
    if n > 0 {
      LookupFindsBuilt(src, outs, config, p, n - 1, source);
      if !Skipped(src[n - 1], p) {
        LookupAppend(Mapping(src, outs, config, p, n - 1),
                     Entry(src[n - 1].handle, Built(src[n - 1], config, p, outs[n - 1])), source);
      }
    }
  }

  // ---------- handing buffers to streams ----------

  /** One buffer of a bundle, named by the stream it came from. */
  datatype Buffer = Buffer(streamId: nat, index: nat, frame: nat, subsampled: bool)

  /** The bundled metadata buffer, sent along with every submission. */
  datatype Meta = Meta(serverId: nat, index: nat)

  datatype Submission = Submission(stream: Stream, index: nat, frame: nat, upsample: bool, meta: Option<Meta>)

  /** The submission for one buffer, if its source is mapped. */
  function SubmissionFor(m: seq<Entry>, b: Buffer, meta: Option<Meta>): Option<Submission> {
    var s := Lookup(m, b.streamId);
    if s.Some? && !s.value.kind.Metadata? then Some(Submission(s.value, b.index, b.frame, b.subsampled, meta))
    else None
  }

  /** The first n buffers' submissions, in order, when none fails. */
  function Submissions(m: seq<Entry>, bufs: seq<Buffer>, meta: Option<Meta>, n: nat): seq<Submission>
    requires n <= |bufs|
  {
    if n == 0 then []
    else
      var rest := Submissions(m, bufs, meta, n - 1);
      var s := SubmissionFor(m, bufs[n - 1], meta);
      if s.Some? then rest + [s.value] else rest
  }

  /** How many of the first n buffers are submitted. */
  function Position(m: seq<Entry>, bufs: seq<Buffer>, meta: Option<Meta>, n: nat): nat
    requires n <= |bufs|
  {
    |Submissions(m, bufs, meta, n)|
  }

  /** Every mapped buffer is submitted exactly once and in order: the mapped buffers stand in a
      one-to-one, order-preserving correspondence with the submissions. */
  lemma {:induction false} SubmittedOnceInOrder(m: seq<Entry>, bufs: seq<Buffer>, meta: Option<Meta>, n: nat)
    requires n <= |bufs|
    ensures var all := Submissions(m, bufs, meta, n);
      && (forall i :: 0 <= i < n && SubmissionFor(m, bufs[i], meta).Some? ==>
            Position(m, bufs, meta, i) < |all|
            && all[Position(m, bufs, meta, i)] == SubmissionFor(m, bufs[i], meta).value)
      && (forall i, j :: 0 <= i < j < n && SubmissionFor(m, bufs[i], meta).Some? ==>
            Position(m, bufs, meta, i) < Position(m, bufs, meta, j))
      && (forall k :: 0 <= k < |all| ==> HasSource(m, bufs, meta, n, k))
  {
    hide SubmissionFor;
    if n > 0 {
      SubmittedOnceInOrder(m, bufs, meta, n - 1);
      var rest := Submissions(m, bufs, meta, n - 1);
      forall k | 0 <= k < |Submissions(m, bufs, meta, n)| ensures HasSource(m, bufs, meta, n, k) {
        if k < |rest| {
          assert HasSource(m, bufs, meta, n - 1, k);
        } else {
          assert IsSource(m, bufs, meta, n - 1, k);
        }
      }
    }
  }

  /** The k-th submission is that of buffer i. */
  predicate IsSource(m: seq<Entry>, bufs: seq<Buffer>, meta: Option<Meta>, i: nat, k: nat)
    requires i < |bufs|
  {
    SubmissionFor(m, bufs[i], meta).Some? && Position(m, bufs, meta, i) == k
  }

  ghost predicate HasSource(m: seq<Entry>, bufs: seq<Buffer>, meta: Option<Meta>, n: nat, k: nat)
    requires n <= |bufs|
  {
    exists i :: 0 <= i < n && IsSource(m, bufs, meta, i, k)
  }

  /** First buffer from position i on whose submission is refused, or the number of buffers. */
  function FirstRefused(m: seq<Entry>, bufs: seq<Buffer>, meta: Option<Meta>, rcs: seq<int>, i: nat): (k: nat)
    requires i <= |bufs| == |rcs|
    ensures i <= k <= |bufs|
    decreases |bufs| - i
  {
    if i == |bufs| || (SubmissionFor(m, bufs[i], meta).Some? && rcs[i] != NO_ERROR) then i
    else FirstRefused(m, bufs, meta, rcs, i + 1)
  }

  /** It is the first mapped buffer that is answered with an error. */
  lemma {:induction false} FirstRefusedIs(m: seq<Entry>, bufs: seq<Buffer>, meta: Option<Meta>, rcs: seq<int>, i: nat)
    requires i <= |bufs| == |rcs|
    ensures var k := FirstRefused(m, bufs, meta, rcs, i);
      && (k < |bufs| ==> SubmissionFor(m, bufs[k], meta).Some? && rcs[k] != 0)
      && forall j :: i <= j < k ==> SubmissionFor(m, bufs[j], meta).None? || rcs[j] == 0
    decreases |bufs| - i
  {
    hide SubmissionFor;
    if i < |bufs| { FirstRefusedIs(m, bufs, meta, rcs, i + 1); }
  }

  /** With distinct source handles, a bundle is resubmitted exactly as follows: a buffer of an
      unskipped source goes to the stream built from that source, any other buffer goes nowhere. */
  lemma BundleResubmitted(src: seq<Stream>, outs: seq<Outcome>, config: Features, p: Params,
                          bufs: seq<Buffer>, meta: Option<Meta>, i: nat, j: nat)
    requires |src| == |outs| && AllCreated(src, outs, p, |src|) && Distinct(src)
    requires i < |bufs| && j < |src| && src[j].handle == bufs[i].streamId
    ensures var m := Mapping(src, outs, config, p, |src|);
      var all := Submissions(m, bufs, meta, |bufs|);
      if Skipped(src[j], p) then SubmissionFor(m, bufs[i], meta) == None
      else
        var k := Position(m, bufs, meta, i);
        k < |all| && all[k] == Submission(Built(src[j], config, p, outs[j]), bufs[i].index,
                                          bufs[i].frame, bufs[i].subsampled, meta)
  {
    hide Skipped, Submissions;
    LookupFindsBuilt(src, outs, config, p, |src|, bufs[i].streamId);
    SubmittedOnceInOrder(Mapping(src, outs, config, p, |src|), bufs, meta, |bufs|);
  }

  // ---------- a second call on the same channel ----------

  function Forgotten(m: seq<Entry>): seq<Entry> {
    seq(|m|, i requires 0 <= i < |m| => m[i].(source := 0))
  }

  /** Adding streams again erases the sources recorded before: only the new sources are found. */
  lemma {:induction false} EarlierSourcesForgotten(m: seq<Entry>, added: seq<Entry>, source: nat)
    requires source != 0
    ensures Lookup(Forgotten(m) + added, source) == Lookup(added, source)
  {
    if m == [] {
      assert Forgotten(m) + added == added;
    } else {
      assert (Forgotten(m) + added)[1..] == Forgotten(m[1..]) + added;
      EarlierSourcesForgotten(m[1..], added, source);
    }
  }

  // ---------- the channel objects ----------

  /** First stream with a handle. */
  function ByHandle(streams: seq<Stream>, handle: nat): Option<Stream> {
    if streams == [] then None
    else if streams[0].handle == handle then Some(streams[0]) else ByHandle(streams[1..], handle)
  }

  /** Stream i is the first with the handle. */
  ghost predicate FirstStream(streams: seq<Stream>, handle: nat, i: int) {
    0 <= i < |streams| && streams[i].handle == handle && forall j :: 0 <= j < i ==> streams[j].handle != handle
  }

  lemma {:induction false} ByHandleIsFirst(streams: seq<Stream>, handle: nat)
    ensures match ByHandle(streams, handle)
            case Some(s) => exists i :: FirstStream(streams, handle, i) && streams[i] == s
            case None => forall i :: 0 <= i < |streams| ==> streams[i].handle != handle
  {
    if streams != [] {
      if streams[0].handle == handle {
        assert FirstStream(streams, handle, 0);
      } else {
        ByHandleIsFirst(streams[1..], handle);
        if i :| FirstStream(streams[1..], handle, i) && ByHandle(streams, handle) == Some(streams[1..][i]) {
          assert FirstStream(streams, handle, i + 1);
        }
      }
    }
  }

  /** Buffer i came from a metadata stream of the channel. */
  ghost predicate FromMetadata(streams: seq<Stream>, bufs: seq<Buffer>, i: int) {
    0 <= i < |bufs| && exists k :: FirstStream(streams, bufs[i].streamId, k) && streams[k].kind == Metadata
  }

  /** Buffer i is the first that came from a metadata stream, which is stream k; m names the two. */
  ghost predicate FoundAt(streams: seq<Stream>, bufs: seq<Buffer>, m: Meta, i: int, k: int) {
    && FromMetadata(streams, bufs, i)
    && (forall j :: 0 <= j < i ==> !FromMetadata(streams, bufs, j))
    && FirstStream(streams, bufs[i].streamId, k)
    && m == Meta(streams[k].serverId, bufs[i].index)
  }

  /** The bundle's metadata is that of the first buffer that came from a metadata stream: the server id
      of that stream and the index of that buffer. */
  lemma {:induction false} FindMetaIsFirst(streams: seq<Stream>, bufs: seq<Buffer>)
    ensures forall m :: FindMeta(streams, bufs) == Some(m) ==> exists i, k :: FoundAt(streams, bufs, m, i, k)
    ensures FindMeta(streams, bufs) == None ==> forall i :: 0 <= i < |bufs| ==> !FromMetadata(streams, bufs, i)
    decreases |bufs|
  {
    hide ByHandle;
    if bufs != [] {
      ByHandleIsFirst(streams, bufs[0].streamId);
      var s := ByHandle(streams, bufs[0].streamId);
      if s.Some? && s.value.kind.Metadata? {
        var k :| FirstStream(streams, bufs[0].streamId, k) && streams[k] == s.value;
        assert FromMetadata(streams, bufs, 0);
        var m := Meta(streams[k].serverId, bufs[0].index);
        assert FindMeta(streams, bufs) == Some(m);
        assert FoundAt(streams, bufs, m, 0, k);
      } else {
        assert !FromMetadata(streams, bufs, 0);
        FindMetaIsFirst(streams, bufs[1..]);
        assert FindMeta(streams, bufs) == FindMeta(streams, bufs[1..]);
        LaterBuffers(streams, bufs);
      }
    }
  }

  /** Nothing is lost by leaving out a first buffer that did not come from a metadata stream. */
  lemma LaterBuffers(streams: seq<Stream>, bufs: seq<Buffer>)
    requires bufs != [] && !FromMetadata(streams, bufs, 0)
    ensures forall m, i, k :: FoundAt(streams, bufs[1..], m, i, k) ==> FoundAt(streams, bufs, m, i + 1, k)
    ensures (forall i :: 0 <= i < |bufs[1..]| ==> !FromMetadata(streams, bufs[1..], i))
            ==> forall i :: 0 <= i < |bufs| ==> !FromMetadata(streams, bufs, i)
  {
    forall j | 0 < j < |bufs|
      ensures FromMetadata(streams, bufs, j) == FromMetadata(streams, bufs[1..], j - 1) {}
  }

  /** The first buffer of a bundle that came from a metadata stream. */
  function FindMeta(streams: seq<Stream>, bufs: seq<Buffer>): Option<Meta> {
    if bufs == [] then None
    else
      var s := ByHandle(streams, bufs[0].streamId);
      if s.Some? && s.value.kind.Metadata? then Some(Meta(s.value.serverId, bufs[0].index))
      else FindMeta(streams, bufs[1..])
  }

  /** A buffer given back to its stream, and the stream's answer. */
  datatype Return = Return(stream: Stream, index: nat, rc: int)

  /** Where the buffer goes back to, if it is there and its stream is in this channel. */
  function ReturnFor(streams: seq<Stream>, b: Option<Buffer>, rc: int): Option<Return> {
    if b.None? || ByHandle(streams, b.value.streamId).None? then None
    else Some(Return(ByHandle(streams, b.value.streamId).value, b.value.index, rc))
  }

  /** The returns of the first n buffers, in order. */
  function Returns(streams: seq<Stream>, bufs: seq<Option<Buffer>>, rcs: seq<int>, n: nat): seq<Return>
    requires n <= |bufs| == |rcs|
  {
    if n == 0 then []
    else
      var rest := Returns(streams, bufs, rcs, n - 1);
      var r := ReturnFor(streams, bufs[n - 1], rcs[n - 1]);
      if r.Some? then rest + [r.value] else rest
  }

  /** Every buffer whose stream is in the channel is given back exactly once, whatever the streams
      answered before. */
  lemma {:induction false} ReturnedOnce(streams: seq<Stream>, bufs: seq<Option<Buffer>>, rcs: seq<int>,
                                        n: nat, i: nat)
    requires i < n <= |bufs| == |rcs|
    ensures var r := ReturnFor(streams, bufs[i], rcs[i]);
      var k := |Returns(streams, bufs, rcs, i)|;
      && (r.None? <==> bufs[i].None? || forall j :: 0 <= j < |streams| ==> streams[j].handle != bufs[i].value.streamId)
      && (r.Some? ==> r.value.index == bufs[i].value.index && r.value.rc == rcs[i]
                      && exists j :: FirstStream(streams, bufs[i].value.streamId, j) && r.value.stream == streams[j])
      && |Returns(streams, bufs, rcs, i + 1)| == k + (if r.Some? then 1 else 0)
      && (r.Some? ==> k < |Returns(streams, bufs, rcs, n)| && Returns(streams, bufs, rcs, n)[k] == r.value)
  {
    if bufs[i].Some? { ByHandleIsFirst(streams, bufs[i].value.streamId); }
    hide ReturnFor;
    if i < n - 1 { ReturnedOnce(streams, bufs, rcs, n - 1, i); }
  }

  function Unwrapped(q: seq<Option<Stream>>): (s: seq<Stream>)
    requires forall i :: 0 <= i < |q| ==> q[i].Some?
    ensures |s| == |q| && forall i :: 0 <= i < |q| ==> s[i] == q[i].value
  {
    seq(|q|, i requires 0 <= i < |q| && q[i].Some? => q[i].value)
  }

  function Zipped(sources: seq<nat>, streams: seq<Stream>): (m: seq<Entry>)
    requires |sources| == |streams|
    ensures |m| == |streams|
    ensures forall i :: 0 <= i < |m| ==> m[i] == Entry(sources[i], streams[i])
  {
    seq(|streams|, i requires 0 <= i < |streams| && |sources| == |streams| => Entry(sources[i], streams[i]))
  }

  class QCameraChannel {
    const mStreams: array<Option<Stream>>
    var m_numStreams: nat
    var returned: seq<Return>   // buffers given back to their streams

    ghost predicate Valid()
      reads this`m_numStreams, mStreams
    {
      && mStreams.Length == MAX_STREAMS && m_numStreams <= MAX_STREAMS
      && forall i :: 0 <= i < m_numStreams ==> mStreams[i].Some?
    }

    function Streams(): (s: seq<Stream>)
      reads this`m_numStreams, mStreams
      requires Valid()
      ensures |s| == m_numStreams
    {
      Unwrapped(mStreams[..m_numStreams])
    }

    constructor ()
      ensures Valid() && m_numStreams == 0 && fresh(mStreams)
    {
      mStreams := new Option<Stream>[MAX_STREAMS](i => None);
      m_numStreams, returned := 0, [];
    }

    method AddStream(s: Stream, initRc: int) returns (rc: int)
      requires Valid()
      modifies this`m_numStreams, mStreams
      ensures Valid()
      ensures rc == if old(m_numStreams) >= MAX_STREAMS then BAD_VALUE else initRc
      ensures Streams() == if rc == NO_ERROR then old(Streams()) + [s] else old(Streams())
    {
      if m_numStreams >= MAX_STREAMS { return BAD_VALUE; }
      rc := initRc;
      if rc == NO_ERROR {
        mStreams[m_numStreams] := Some(s);
        m_numStreams := m_numStreams + 1;
      }
    }

    method GetStreamByHandle(handle: nat) returns (r: Option<Stream>)
      requires Valid()
      ensures r == ByHandle(Streams(), handle)
      ensures match r
              case Some(s) => exists i :: FirstStream(Streams(), handle, i) && Streams()[i] == s
              case None => forall i :: 0 <= i < m_numStreams ==> Streams()[i].handle != handle
    {
      ByHandleIsFirst(Streams(), handle);
      for i := 0 to m_numStreams
        invariant ByHandle(Streams(), handle) == ByHandle(Streams()[i..], handle)
      {
        if mStreams[i].Some? && mStreams[i].value.handle == handle { return mStreams[i]; }
      }
      return None;
    }

    /** A failure to give one buffer back does not keep the others: every buffer of the bundle
        returns to its stream, and only the last answer is reported. */
    method BufDone(bufs: seq<Option<Buffer>>, rcs: seq<int>) returns (rc: int)
      requires Valid() && |rcs| == |bufs|
      modifies this`returned
      ensures var all := Returns(Streams(), bufs, rcs, |bufs|);
        returned == old(returned) + all && rc == if all == [] then NO_ERROR else all[|all| - 1].rc
    {
      rc := NO_ERROR;
      for i := 0 to |bufs|
        invariant var some := Returns(Streams(), bufs, rcs, i);
          returned == old(returned) + some && rc == if some == [] then NO_ERROR else some[|some| - 1].rc
      {
        if bufs[i].Some? {
          var s := GetStreamByHandle(bufs[i].value.streamId);
          if s.Some? {
            rc := rcs[i];
            returned := returned + [Return(s.value, bufs[i].value.index, rc)];
          }
        }
      }
    }
  }

  class QCameraReprocessChannel {
    const base: QCameraChannel
    const mSrcStreamHandles: array<nat>
    var m_pSrcChannel: QCameraChannel?
    var submitted: seq<Submission>

    ghost predicate Valid()
      reads base`m_numStreams, base.mStreams
    {
      base.Valid() && mSrcStreamHandles.Length == MAX_STREAMS
    }

    function Entries(): (m: seq<Entry>)
      reads base`m_numStreams, base.mStreams, mSrcStreamHandles
      requires Valid()
      ensures |m| == base.m_numStreams
    {
      Zipped(mSrcStreamHandles[..base.m_numStreams], base.Streams())
    }

    constructor ()
      ensures Valid() && Entries() == [] && m_pSrcChannel == null
      ensures fresh(base) && fresh(base.mStreams) && fresh(mSrcStreamHandles)
    {
      base := new QCameraChannel();
      mSrcStreamHandles := new nat[MAX_STREAMS](i => 0);
      m_pSrcChannel, submitted := null, [];
    }

    method GetStreamBySourceHandle(source: nat) returns (r: Option<Stream>)
      requires Valid()
      ensures r == Lookup(Entries(), source)
      ensures match r
              case Some(s) => exists i :: FirstEntry(Entries(), source, i) && Entries()[i].stream == s
              case None => forall i :: 0 <= i < base.m_numStreams ==> mSrcStreamHandles[i] != source
    {
      LookupIsFirst(Entries(), source);
      for i := 0 to base.m_numStreams
        invariant Lookup(Entries(), source) == Lookup(Entries()[i..], source)
      {
        if mSrcStreamHandles[i] == source { return base.mStreams[i]; }
      }
      return None;
    }

    /** `outs` says what happens when the stream for each source is made.  The source handle is stored
        before the number of streams is checked; on a new channel there is always room. */
    method AddReprocStreamsFromSource(config: Features, src: QCameraChannel, p: Params, outs: seq<Outcome>)
      returns (r: Adding)
      requires Valid() && src.Valid() && src != base && src.mStreams != base.mStreams
      requires |outs| == src.m_numStreams
      requires forall i :: 0 <= i < |outs| && outs[i].InitFails? ==> outs[i].rc != NO_ERROR
      modifies this`m_pSrcChannel, base`m_numStreams, base.mStreams, mSrcStreamHandles
      ensures Valid()
      ensures r == Done(NO_ERROR)
              <==> AllCreated(src.Streams(), outs, p, |outs|)
                   && old(base.m_numStreams) + Unskipped(src.Streams(), p, |outs|) <= MAX_STREAMS
      ensures r == Done(NO_ERROR) ==>
        && m_pSrcChannel == src
        && Entries() == Forgotten(old(Entries())) + Mapping(src.Streams(), outs, config, p, |outs|)
      ensures r.Done? && r.rc != NO_ERROR ==>
        && m_pSrcChannel == old(m_pSrcChannel)
        && exists k :: 0 <= k < |outs| && FailsAt(src.Streams(), outs, p, k) && r.rc == Failure(outs[k])
             && Entries() == Forgotten(old(Entries())) + Mapping(src.Streams(), outs, config, p, k)
      ensures r.OutOfTable?
              <==> exists k :: 0 <= k < |outs| && FullAt(src.Streams(), outs, p, old(base.m_numStreams), k)
      ensures r.OutOfTable? ==>
        && m_pSrcChannel == old(m_pSrcChannel) && old(base.m_numStreams) > 0
        && exists k :: 0 <= k < |outs| && FullAt(src.Streams(), outs, p, old(base.m_numStreams), k)
             && Entries() == Forgotten(old(Entries())) + Mapping(src.Streams(), outs, config, p, k)
    {
      hide Skipped, Built, FullAt, AllCreated, Mapping, Unskipped;
      ghost var streams := src.Streams();
      NoneYet(streams, outs, config, p);
      ghost var before := Forgotten(Entries());
      ForgetSources();
      for i := 0 to src.m_numStreams
        invariant Valid() && src.Valid() && src.Streams() == streams && m_pSrcChannel == old(m_pSrcChannel)
        invariant |outs| == src.m_numStreams == |streams|
        invariant base.m_numStreams == |before| + Unskipped(streams, p, i) <= MAX_STREAMS
        invariant AllCreated(streams, outs, p, i)
        invariant Entries() == before + Mapping(streams, outs, config, p, i)
      {
        var s := src.mStreams[i].value;
        assert s == streams[i];
        OneMore(streams, outs, config, p, i);
        if !Skipped(s, p) {
          if !outs[i].NoInfoBuffer? && base.m_numStreams == MAX_STREAMS {
            TableFull(streams, outs, p, |before|, i);
            TooMany(streams, p, i + 1, |outs|);
            return OutOfTable;
          }
          var rc := AddReprocStream(s, config, p, outs[i]);
          if rc != NO_ERROR {
            assert FailsAt(streams, outs, p, i);
            NeverFull(streams, outs, p, |before|, i);
            return Done(rc);
          }
        }
      }
      m_pSrcChannel := src;
      NeverFull(streams, outs, p, |before|, |outs|);
      return Done(NO_ERROR);
    }

    /** Makes the reprocess stream for one source. */
    method AddReprocStream(s: Stream, config: Features, p: Params, o: Outcome) returns (rc: int)
      requires Valid() && (o.NoInfoBuffer? || base.m_numStreams < MAX_STREAMS)
      requires o.InitFails? ==> o.rc != NO_ERROR
      modifies base`m_numStreams, base.mStreams, mSrcStreamHandles
      ensures Valid()
      ensures if o.Created?
              then rc == NO_ERROR && Entries() == old(Entries()) + [Entry(s.handle, Built(s, config, p, o))]
              else rc == Failure(o) && Entries() == old(Entries())
      ensures match o
              case NoInfoBuffer => rc == -12
              case InitFails(e) => rc == e
              case Created(handle, serverId) =>
                && rc == 0
                && var e := Entries()[old(base.m_numStreams)];
                   var turned := config.rotation == Some(Rotate90) || config.rotation == Some(Rotate270);
                   var ofSnapshot := s.kind == OfflineProc && s.input.Some? && s.input.value.kind == Snapshot;
                   && e.source == s.handle && e.stream.handle == handle && e.stream.serverId == serverId
                   && e.stream.kind == OfflineProc
                   && e.stream.dim.width == (if turned then s.dim.height else s.dim.width)
                   && e.stream.dim.height == (if turned then s.dim.width else s.dim.height)
                   && e.stream.input.Some?
                   && var input := e.stream.input.value;
                      && input.serverId == s.serverId && input.kind == s.kind
                      && input.features.rotation == config.rotation
                      && (input.features.cac <==> config.cac && (s.kind == Snapshot || ofSnapshot))
                      && input.features.flip == if p.zsl && s.kind == Snapshot && p.flipMode > 0
                                                then Some(p.flipMode) else config.flip
    {
      if o.NoInfoBuffer? { return NO_MEMORY; }
      mSrcStreamHandles[base.m_numStreams] := s.handle;
      rc := base.AddStream(if o.Created? then Built(s, config, p, o) else s, if o.Created? then NO_ERROR else o.rc);
    }

    method ForgetSources()
      requires Valid()
      modifies mSrcStreamHandles
      ensures Entries() == Forgotten(old(Entries()))
    {
      for i := 0 to MAX_STREAMS
        invariant forall j :: 0 <= j < i ==> mSrcStreamHandles[j] == 0
      {
        mSrcStreamHandles[i] := 0;
      }
    }

    /** `rcs` are the answers of the streams.  Submissions stop at the first refusal. */
    method DoReprocess(bufs: seq<Buffer>, rcs: seq<int>) returns (rc: int)
      requires Valid() && (m_pSrcChannel != null ==> m_pSrcChannel.Valid())
      requires |rcs| == |bufs|
      modifies this`submitted
      ensures base.m_numStreams < 1 || m_pSrcChannel == null ==> rc == -1 && submitted == old(submitted)
      ensures base.m_numStreams >= 1 && m_pSrcChannel != null ==>
        var meta := FindMeta(m_pSrcChannel.Streams(), bufs);
        var k := FirstRefused(Entries(), bufs, meta, rcs, 0);
        && rc == (if k < |bufs| then rcs[k] else NO_ERROR)
        && submitted == old(submitted)
                        + Submissions(Entries(), bufs, meta, if k < |bufs| then k + 1 else k)
    {
      rc := NO_ERROR;
      if base.m_numStreams < 1 || m_pSrcChannel == null { return -1; }
      var meta := FindMetaBuffer(bufs);
      ghost var m := Entries();
      for i := 0 to |bufs|
        invariant m_pSrcChannel != null && Valid() && m_pSrcChannel.Valid() && Entries() == m && rc == NO_ERROR
        invariant FirstRefused(m, bufs, meta, rcs, 0) == FirstRefused(m, bufs, meta, rcs, i)
        invariant submitted == old(submitted) + Submissions(m, bufs, meta, i)
      {
        var s := GetStreamBySourceHandle(bufs[i].streamId);
        if s.Some? && !s.value.kind.Metadata? {
          submitted := submitted + [Submission(s.value, bufs[i].index, bufs[i].frame, bufs[i].subsampled, meta)];
          rc := rcs[i];
          if rc != NO_ERROR { return; }
        }
      }
    }

    method FindMetaBuffer(bufs: seq<Buffer>) returns (meta: Option<Meta>)
      requires m_pSrcChannel != null && m_pSrcChannel.Valid()
      ensures meta == FindMeta(m_pSrcChannel.Streams(), bufs)
    {
      for i := 0 to |bufs|
        invariant FindMeta(m_pSrcChannel.Streams(), bufs) == FindMeta(m_pSrcChannel.Streams(), bufs[i..])
      {
        var s := m_pSrcChannel.GetStreamByHandle(bufs[i].streamId);
        if s.Some? && s.value.kind.Metadata? { return Some(Meta(s.value.serverId, bufs[i].index)); }
      }
      return None;
    }
  }

  /** The error reported when the stream for one source cannot be made. */
  function Failure(o: Outcome): int {
    if o.InitFails? then o.rc else NO_MEMORY
  }
}
