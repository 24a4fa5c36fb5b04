/** The IPS patch builder of bridge_core/ips_build.py, and its round trip through the parser and the applier. */
module IpsBuild {
  import opened Wrappers
  import opened Bytes
  import opened Ips

  datatype BuildError = Shrinks | EmptyPayload | EofCollision(offset: nat) | OffsetOverflow(offset: nat)

  type Encoding = Result<seq<byte>, BuildError>

  const EOF_OFFSET: nat := 0x454F46
  const MAX_OFFSET: nat := 0xFFFFFF
  const MAX_CHUNK: nat := 0xFFFF

  // ------------------------------------------------------------ difference

  predicate Differs(orig: seq<byte>, modified: seq<byte>, k: nat)
    requires k < |modified|
  {
    k >= |orig| || modified[k] != orig[k]
  }

  /** Non-empty records in ascending order, none overlapping, holding the bytes `modified` has there. */
  ghost predicate SlicesOf(recs: seq<Record>, modified: seq<byte>) {
    && (forall i :: 0 <= i < |recs| ==> recs[i].data != [] && recs[i].End() <= |modified|)
    && (forall i :: 0 <= i < |recs| ==> recs[i].data == modified[recs[i].offset..recs[i].End()])
    && (forall i, j :: 0 <= i < j < |recs| ==> recs[i].End() <= recs[j].offset)
  }

  /** `runs` are the maximal runs of differing bytes below `upto`, in order. */
  ghost predicate DiffRunsUpTo(orig: seq<byte>, modified: seq<byte>, runs: seq<Record>, upto: nat)
    requires upto <= |modified|
  {
    && SlicesOf(runs, modified)
    && (forall i, j :: 0 <= i < j < |runs| ==> runs[i].End() < runs[j].offset)
    && (forall k: nat :: Covered(runs, k) <==> k < upto && Differs(orig, modified, k))
  }

  lemma CoveredAppend(a: seq<Record>, b: seq<Record>, k: nat)
    ensures Covered(a + b, k) <==> Covered(a, k) || Covered(b, k)
  {
    if i :| 0 <= i < |a| && a[i].Covers(k) {
      assert (a + b)[i].Covers(k);
    }
    if i :| 0 <= i < |b| && b[i].Covers(k) {
      assert (a + b)[|a| + i].Covers(k);
    }
    if i :| 0 <= i < |a + b| && (a + b)[i].Covers(k) {
      assert if i < |a| then a[i].Covers(k) else b[i - |a|].Covers(k);
    }
  }

  lemma CoveredOne(rec: Record, k: nat)
    ensures Covered([rec], k) <==> rec.Covers(k)
  {
    assert [rec][0] == rec;
  }

  lemma ExtendRuns(orig: seq<byte>, modified: seq<byte>, runs: seq<Record>, start: nat, end: nat)
    requires start < end <= |modified|
    requires DiffRunsUpTo(orig, modified, runs, start)
    requires start > 0 ==> !Differs(orig, modified, start - 1)
    requires forall k: nat :: start <= k < end ==> Differs(orig, modified, k)
    ensures DiffRunsUpTo(orig, modified, runs + [Record(start, modified[start..end])], end)
  {
    var run := Record(start, modified[start..end]);
    hide Covered;
    forall k: nat ensures Covered(runs + [run], k) <==> k < end && Differs(orig, modified, k) {
      CoveredAppend(runs, [run], k);
      CoveredOne(run, k);
    }
    forall i | 0 <= i < |runs| ensures runs[i].End() < start {
      CoveredBy(runs, i, runs[i].End() - 1);
    }
  }

  lemma CoveredBy(recs: seq<Record>, i: nat, k: nat)
    requires i < |recs| && recs[i].Covers(k)
    ensures Covered(recs, k)
  {
  }

  /** `_diff_runs`: nested loops over one index. */
  method DiffRuns(orig: seq<byte>, modified: seq<byte>) returns (r: Result<seq<Record>, BuildError>)
    ensures |modified| < |orig| ==> r == Err(Shrinks)
    ensures |modified| >= |orig| ==> r.Ok? && DiffRunsUpTo(orig, modified, r.value, |modified|)
  {
    if |modified| < |orig| {
      return Err(Shrinks);
    }
    var n := |modified|;
    var i := 0;
    var runs: seq<Record> := [];
    while i < n
      invariant 0 <= i <= n
      invariant DiffRunsUpTo(orig, modified, runs, i)
      invariant 0 < i < n && Differs(orig, modified, i - 1) ==> !Differs(orig, modified, i)
    {
      if i >= |orig| || modified[i] != orig[i] {
        var start := i;
        while i < n && (i >= |orig| || modified[i] != orig[i])
          invariant start <= i <= n
          invariant i == start ==> Differs(orig, modified, i)
          invariant forall k: nat :: start <= k < i ==> Differs(orig, modified, k)
        {
          i := i + 1;
        }
        ExtendRuns(orig, modified, runs, start, i);
        runs := runs + [Record(start, modified[start..i])];
      } else {
        i := i + 1;
      }
    }
    return Ok(runs);
  }

  // -------------------------------------------------------------- encoding

  /** The 16-bit chunks a run is written as. */
  function Chunks(offset: nat, payload: seq<byte>): seq<Record>
    decreases |payload|
  {
    if |payload| <= MAX_CHUNK then [Record(offset, payload)]
    else [Record(offset, payload[..MAX_CHUNK])] + Chunks(offset + MAX_CHUNK, payload[MAX_CHUNK..])
  }

  function RunChunks(runs: seq<Record>): seq<Record> {
    if runs == [] then [] else Chunks(runs[0].offset, runs[0].data) + RunChunks(runs[1..])
  }

  predicate AllSame(payload: seq<byte>) {
    forall k :: 0 <= k < |payload| ==> payload[k] == payload[0]
  }

  /** How one chunk is written: a run of one byte, at least 8 long, is run-length encoded. */
  function EncodeChunk(rec: Record): Encoding {
    if rec.data == [] then Err(EmptyPayload)
    else if rec.offset == EOF_OFFSET then Err(EofCollision(rec.offset))
    else if rec.offset > MAX_OFFSET then Err(OffsetOverflow(rec.offset))
    else if |rec.data| >= 8 && AllSame(rec.data) then
      Ok(ToBE(rec.offset, 3) + ToBE(0, 2) + ToBE(|rec.data|, 2) + [rec.data[0]])
    else Ok(ToBE(rec.offset, 3) + ToBE(|rec.data|, 2) + rec.data)
  }

  /** Both outputs in order, or the first error. */
  function Join(a: Encoding, b: Encoding): Encoding {
    if a.Err? then a else if b.Err? then b else Ok(a.value + b.value)
  }

  function EncodeChunks(recs: seq<Record>): Encoding {
    if recs == [] then Ok([]) else Join(EncodeChunk(recs[0]), EncodeChunks(recs[1..]))
  }

  lemma JoinAssoc(a: Encoding, b: Encoding, c: Encoding)
    ensures Join(Join(a, b), c) == Join(a, Join(b, c))
  {
    if a.Ok? && b.Ok? && c.Ok? {
      assert a.value + b.value + c.value == a.value + (b.value + c.value);
    }
  }

  lemma JoinUnit(a: Encoding)
    ensures Join(Ok([]), a) == a == Join(a, Ok([]))
  {
    if a.Ok? {
      assert [] + a.value == a.value == a.value + [];
    }
  }

  lemma {:induction false} EncodeSplit(a: seq<Record>, b: seq<Record>)
    ensures EncodeChunks(a + b) == Join(EncodeChunks(a), EncodeChunks(b))
  {
    if a == [] {
      assert a + b == b;
      JoinUnit(EncodeChunks(b));
    } else {
      EncodeSplit(a[1..], b);
      assert (a + b)[1..] == a[1..] + b;
      JoinAssoc(EncodeChunk(a[0]), EncodeChunks(a[1..]), EncodeChunks(b));
    }
  }

  /** The chunks of the part of a payload from `start` on. */
  function ChunksFrom(offset: nat, payload: seq<byte>, start: nat): seq<Record> {
    if start < |payload| then Chunks(offset + start, payload[start..]) else []
  }

  lemma ChunkStep(out: seq<byte>, offset: nat, payload: seq<byte>, start: nat, stop: nat)
    requires start < |payload| && stop == if start + MAX_CHUNK < |payload| then start + MAX_CHUNK else |payload|
    ensures Join(Ok(out), EncodeChunks(ChunksFrom(offset, payload, start))) ==
            Join(Join(Ok(out), EncodeChunks(Chunks(offset + start, payload[start..stop]))),
                 EncodeChunks(ChunksFrom(offset, payload, start + MAX_CHUNK)))
  {
    var rest := payload[start..];
    var one, more := Chunks(offset + start, payload[start..stop]), ChunksFrom(offset, payload, start + MAX_CHUNK);
    if |rest| > MAX_CHUNK {
      assert rest[..MAX_CHUNK] == payload[start..stop];
      assert rest[MAX_CHUNK..] == payload[start + MAX_CHUNK..];
    } else {
      assert payload[start..stop] == rest;
    }
    assert ChunksFrom(offset, payload, start) == one + more;
    EncodeSplit(one, more);
    JoinAssoc(Ok(out), EncodeChunks(one), EncodeChunks(more));
  }

  /** `_encode_record` for a payload of at most 65535 bytes. */
  method EncodeShort(offset: nat, payload: seq<byte>) returns (r: Encoding)
    ensures r == EncodeChunk(Record(offset, payload))
  {
    hide ToBE;
    if payload == [] {
      return Err(EmptyPayload);
    }
    if offset == EOF_OFFSET {
      return Err(EofCollision(offset));
    }
    if offset > MAX_OFFSET {
      return Err(OffsetOverflow(offset));
    }
    var useRle := |payload| >= 8 && AllSame(payload);
    var out := ToBE(offset, 3);
    if useRle {
      out := out + ToBE(0, 2);
      out := out + ToBE(|payload|, 2);
      out := out + [payload[0]];
    } else {
      out := out + ToBE(|payload|, 2);
      out := out + payload;
    }
    return Ok(out);
  }

  lemma EncodeOne(rec: Record)
    ensures EncodeChunks([rec]) == EncodeChunk(rec)
  {
    hide EncodeChunk;
    assert [rec][1..] == [];
    JoinUnit(EncodeChunk(rec));
  }

  lemma NothingLeft(offset: nat, payload: seq<byte>, start: nat)
    requires start >= |payload|
    ensures EncodeChunks(ChunksFrom(offset, payload, start)) == Ok([])
  {
  }

  /** `_encode_record`: a payload over 65535 bytes is written as consecutive chunks, each its own record. */
  method EncodeRecord(offset: nat, payload: seq<byte>) returns (r: Encoding)
    ensures r == EncodeChunks(Chunks(offset, payload))
    decreases |payload|
  {
    hide EncodeChunk, EncodeChunks;
    if |payload| <= MAX_CHUNK {
      EncodeOne(Record(offset, payload));
      r := EncodeShort(offset, payload);
      return;
    }
    var out: seq<byte> := [];
    var start := 0;
    JoinUnit(EncodeChunks(Chunks(offset, payload)));
    assert payload[0..] == payload;
    while start < |payload|
      invariant EncodeChunks(Chunks(offset, payload)) == Join(Ok(out), EncodeChunks(ChunksFrom(offset, payload, start)))
    {
      var stop := if start + MAX_CHUNK < |payload| then start + MAX_CHUNK else |payload|;
      var chunk := EncodeRecord(offset + start, payload[start..stop]);
      ChunkStep(out, offset, payload, start, stop);
      if chunk.Err? {
        return chunk;
      }
      out, start := out + chunk.value, start + MAX_CHUNK;
    }
    NothingLeft(offset, payload, start);
    JoinUnit(Ok(out));
    return Ok(out);
  }

  predicate Encodable(rec: Record) {
    rec.data != [] && rec.offset != EOF_OFFSET && rec.offset <= MAX_OFFSET
  }

  lemma {:induction false} EncodesIff(recs: seq<Record>)
    ensures EncodeChunks(recs).Ok? <==> forall i :: 0 <= i < |recs| ==> Encodable(recs[i])
  {
    if recs != [] {
      EncodesIff(recs[1..]);
      assert forall i :: 0 < i < |recs| ==> recs[i] == recs[1..][i - 1];
    }
  }

  // -------------------------------------------------- what the chunks cover

  ghost predicate Short(recs: seq<Record>) {
    forall i :: 0 <= i < |recs| ==> |recs[i].data| <= MAX_CHUNK
  }

  /** What holds of the chunks of a run: they are short slices inside it, and cover exactly what it covers. */
  ghost predicate ChunksOf(run: Record, chunks: seq<Record>, modified: seq<byte>) {
    && SlicesOf(chunks, modified) && Short(chunks)
    && (forall i :: 0 <= i < |chunks| ==> run.offset <= chunks[i].offset && chunks[i].End() <= run.End())
    && (forall k: nat :: Covered(chunks, k) <==> run.Covers(k))
  }

  lemma OneChunk(run: Record, modified: seq<byte>)
    requires 0 < |run.data| <= MAX_CHUNK && run.End() <= |modified| && run.data == modified[run.offset..run.End()]
    ensures ChunksOf(run, [run], modified)
  {
    forall k: nat ensures Covered([run], k) <==> run.Covers(k) {
      CoveredOne(run, k);
    }
  }

  lemma FirstChunk(run: Record, head: Record, tail: Record, chunks: seq<Record>, modified: seq<byte>)
    requires ChunksOf(head, [head], modified) && ChunksOf(tail, chunks, modified)
    requires head.offset == run.offset && head.End() == tail.offset && tail.End() == run.End()
    ensures ChunksOf(run, [head] + chunks, modified)
  {
    hide Covered;
    forall k: nat ensures Covered([head] + chunks, k) <==> run.Covers(k) {
      CoveredAppend([head], chunks, k);
    }
  }

  lemma {:induction false} ChunksSlices(run: Record, modified: seq<byte>)
    requires run.data != [] && run.End() <= |modified| && run.data == modified[run.offset..run.End()]
    ensures ChunksOf(run, Chunks(run.offset, run.data), modified)
    decreases |run.data|
  {
    hide ChunksOf;
    if |run.data| <= MAX_CHUNK {
      OneChunk(run, modified);
    } else {
      var mid := run.offset + MAX_CHUNK;
      var head := Record(run.offset, run.data[..MAX_CHUNK]);
      var tail := Record(mid, run.data[MAX_CHUNK..]);
      assert head.data == modified[run.offset..mid] && tail.data == modified[mid..run.End()];
      OneChunk(head, modified);
      ChunksSlices(tail, modified);
      FirstChunk(run, head, tail, Chunks(mid, tail.data), modified);
    }
  }

  lemma {:induction false} RunChunksSlices(modified: seq<byte>, runs: seq<Record>)
    requires SlicesOf(runs, modified)
    ensures SlicesOf(RunChunks(runs), modified) && Short(RunChunks(runs))
    ensures forall k: nat :: Covered(RunChunks(runs), k) <==> Covered(runs, k)
    ensures forall i :: 0 <= i < |RunChunks(runs)| ==> runs != [] && runs[0].offset <= RunChunks(runs)[i].offset
  {
    if runs != [] {
      var first, rest := Chunks(runs[0].offset, runs[0].data), runs[1..];
      ChunksSlices(runs[0], modified);
      RunChunksSlices(modified, rest);
      assert [runs[0]] + rest == runs;
      hide Covered;
      forall k: nat ensures Covered(RunChunks(runs), k) <==> Covered(runs, k) {
        CoveredAppend(first, RunChunks(rest), k);
        CoveredAppend([runs[0]], rest, k);
        CoveredOne(runs[0], k);
      }
    }
  }

  lemma SlicesInit(recs: seq<Record>, modified: seq<byte>, k: nat)
    requires SlicesOf(recs, modified) && recs != []
    ensures SlicesOf(recs[..|recs| - 1], modified)
    ensures var last := recs[|recs| - 1];
      last.Covers(k) ==> k < |modified| && last.data[k - last.offset] == modified[k]
  {
    var last := recs[|recs| - 1];
    if last.Covers(k) {
      assert last.data[k - last.offset] == modified[last.offset..last.End()][k - last.offset];
    }
  }

  lemma {:induction false} LastCoverOfSlices(recs: seq<Record>, modified: seq<byte>, k: nat)
    requires SlicesOf(recs, modified)
    ensures LastCover(recs, k).Some? <==> Covered(recs, k)
    ensures LastCover(recs, k).Some? ==> k < |modified| && LastCover(recs, k).value == modified[k]
  {
    if recs == [] {
      assert !Covered(recs, k);
    } else {
      hide Covered, SlicesOf;
      var init, last := recs[..|recs| - 1], recs[|recs| - 1];
      SlicesInit(recs, modified, k);
      LastCoverOfSlices(init, modified, k);
      CoveredAppend(init, [last], k);
      CoveredOne(last, k);
      assert init + [last] == recs;
    }
  }

  lemma SlicesConsistent(recs: seq<Record>, modified: seq<byte>)
    requires SlicesOf(recs, modified)
    ensures Consistent(recs)
  {
    forall i, k: nat | 0 <= i < |recs| && recs[i].Covers(k)
      ensures LastCover(recs, k) == Some(recs[i].data[k - recs[i].offset])
    {
      LastCoverOfSlices(recs, modified, k);
      assert modified[recs[i].offset..recs[i].End()][k - recs[i].offset] == modified[k];
    }
  }

  /** Writing the chunks over any ROM puts the modified byte at every differing place and leaves the rest. */
  lemma ChunksOverlay(orig: seq<byte>, modified: seq<byte>, runs: seq<Record>, rom: seq<byte>)
    requires DiffRunsUpTo(orig, modified, runs, |modified|)
    ensures var out := PatchAll(rom, RunChunks(runs));
      && |out| >= |rom|
      && (forall k: nat :: k < |modified| && Differs(orig, modified, k) ==> k < |out| && out[k] == modified[k])
      && (forall k: nat :: k < |out| && !(k < |modified| && Differs(orig, modified, k)) ==>
            out[k] == if k < |rom| then rom[k] else 0)
  {
    var chunks := RunChunks(runs);
    RunChunksSlices(modified, runs);
    OverlaySemantics(rom, chunks);
    forall k: nat
      ensures LastCover(chunks, k).Some? <==> k < |modified| && Differs(orig, modified, k)
      ensures LastCover(chunks, k).Some? ==> LastCover(chunks, k).value == modified[k]
    {
      LastCoverOfSlices(chunks, modified, k);
    }
  }

  lemma {:induction false} MaxEndAtMost(recs: seq<Record>, size: nat, bound: nat)
    requires size <= bound && forall i :: 0 <= i < |recs| ==> recs[i].End() <= bound
    ensures MaxEnd(recs, size) <= bound
  {
    if recs != [] {
      MaxEndAtMost(recs[..|recs| - 1], size, bound);
    }
  }

  lemma ChunksRebuild(orig: seq<byte>, modified: seq<byte>, runs: seq<Record>)
    requires |orig| <= |modified| && DiffRunsUpTo(orig, modified, runs, |modified|)
    ensures PatchAll(orig, RunChunks(runs)) == modified
  {
    var out := PatchAll(orig, RunChunks(runs));
    ChunksOverlay(orig, modified, runs, orig);
    RunChunksSlices(modified, runs);
    OverlaySemantics(orig, RunChunks(runs));
    MaxEndAtMost(RunChunks(runs), |orig|, |modified|);
    if |orig| < |modified| {
      assert Differs(orig, modified, |modified| - 1);
    }
    forall k | 0 <= k < |out| ensures out[k] == modified[k] {
      assert !Differs(orig, modified, k) ==> modified[k] == orig[k];
    }
  }

  // ------------------------------------------------------------- round trip

  lemma EofBytes(offset: nat)
    requires offset <= MAX_OFFSET
    ensures ToBE(offset, 3) == EOF <==> offset == EOF_OFFSET
  {
    Pow256Values();
    FromToBE(offset, 3);
    assert EOF[..2] == [0x45, 0x4F] && EOF[..2][..1] == [0x45] && EOF[..2][..1][..0] == [];
    assert FromBE([0x45]) == 0x45;
    assert FromBE(EOF[..2]) == 0x454F;
    assert FromBE(EOF) == EOF_OFFSET;
    ToFromBE(EOF);
  }

  lemma RunParts(offset: seq<byte>, zero: seq<byte>, len: seq<byte>, b: byte, rest: seq<byte>)
    requires |offset| == 3 && |zero| == 2 && |len| == 2
    ensures var s := offset + zero + len + [b] + rest;
      |s| >= 8 && s[..3] == offset && s[3..5] == zero && s[5..7] == len && s[7] == b && s[8..] == rest
  {
  }

  lemma ParseRunEncoded(offset: nat, data: seq<byte>, rest: seq<byte>)
    requires offset <= MAX_OFFSET && 8 <= |data| <= MAX_CHUNK && AllSame(data)
    ensures var s := ToBE(offset, 3) + ToBE(0, 2) + ToBE(|data|, 2) + [data[0]] + rest;
      s[..3] == ToBE(offset, 3) && ParseOne(s) == Ok((Record(offset, data), rest))
  {
    Pow256Values();
    FromToBE(offset, 3);
    FromToBE(|data|, 2);
    FromToBE(0, 2);
    hide ToBE, FromBE;
    RunParts(ToBE(offset, 3), ToBE(0, 2), ToBE(|data|, 2), data[0], rest);
    assert Fill(data[0], |data|) == data;
  }

  lemma ParseRawEncoded(offset: nat, data: seq<byte>, rest: seq<byte>)
    requires offset <= MAX_OFFSET && 0 < |data| <= MAX_CHUNK
    ensures var s := ToBE(offset, 3) + ToBE(|data|, 2) + data + rest;
      s[..3] == ToBE(offset, 3) && ParseOne(s) == Ok((Record(offset, data), rest))
  {
    Pow256Values();
    FromToBE(offset, 3);
    FromToBE(|data|, 2);
    hide ToBE, FromBE;
    var s := ToBE(offset, 3) + ToBE(|data|, 2) + data + rest;
    assert s[..3] == ToBE(offset, 3) && s[3..5] == ToBE(|data|, 2);
    assert s[5..5 + |data|] == data && s[5 + |data|..] == rest;
  }

  lemma ParseOneEncoded(rec: Record, rest: seq<byte>)
    requires |rec.data| <= MAX_CHUNK && EncodeChunk(rec).Ok?
    ensures var s := EncodeChunk(rec).value + rest;
      Read(s, 3) != EOF && ParseOne(s) == Ok((rec, rest))
  {
    hide ToBE, FromBE, ParseOne;
    EofBytes(rec.offset);
    if |rec.data| >= 8 && AllSame(rec.data) {
      ParseRunEncoded(rec.offset, rec.data, rest);
    } else {
      ParseRawEncoded(rec.offset, rec.data, rest);
    }
  }

  lemma {:induction false} ParseEncoded(recs: seq<Record>, tail: seq<byte>)
    requires Short(recs) && EncodeChunks(recs).Ok?
    ensures ParseRecords(EncodeChunks(recs).value + EOF + tail) == Ok(recs)
  {
    var s := EncodeChunks(recs).value + EOF + tail;
    if recs == [] {
      assert s[..3] == EOF;
    } else {
      var code, rest := EncodeChunk(recs[0]).value, EncodeChunks(recs[1..]).value + EOF + tail;
      assert s == code + rest;
      ParseOneEncoded(recs[0], rest);
      ParseEncoded(recs[1..], tail);
      assert [recs[0]] + recs[1..] == recs;
    }
  }

  lemma PatchParses(chunks: seq<Record>)
    requires Short(chunks) && EncodeChunks(chunks).Ok?
    ensures ParsePatch(HEADER + EncodeChunks(chunks).value + EOF) == Ok(chunks)
  {
    hide EncodeChunks, ParseRecords;
    var body := EncodeChunks(chunks).value;
    var out := HEADER + body + EOF;
    assert out[..5] == HEADER && out[5..] == body + EOF + [];
    ParseEncoded(chunks, []);
  }

  lemma {:induction false} EncodedEnds(recs: seq<Record>)
    requires Short(recs) && EncodeChunks(recs).Ok?
    ensures EndsWithTrailer(EncodeChunks(recs).value + EOF)
  {
    var s := EncodeChunks(recs).value + EOF;
    if recs == [] {
      assert s == EOF;
    } else {
      var code, rest := EncodeChunk(recs[0]).value, EncodeChunks(recs[1..]).value + EOF;
      assert s == code + rest;
      ParseOneEncoded(recs[0], rest);
      EncodedEnds(recs[1..]);
    }
  }

  /** A patch that was built and then cut off is rejected, wherever the cut is. */
  lemma CutPatchFails(chunks: seq<Record>, n: nat)
    requires Short(chunks) && EncodeChunks(chunks).Ok? && n < |HEADER + EncodeChunks(chunks).value + EOF|
    ensures ParsePatch((HEADER + EncodeChunks(chunks).value + EOF)[..n]).Err?
  {
    hide EncodeChunks, ParseRecords, EndsWithTrailer;
    var body := EncodeChunks(chunks).value;
    var patch := HEADER + body + EOF;
    assert patch == HEADER + (body + EOF) && patch[5..] == body + EOF;
    EncodedEnds(chunks);
    TruncatedPatch(patch, n);
  }

  /** What is still to be written after the first `i` runs. */
  lemma RunStep(body: seq<byte>, runs: seq<Record>, i: nat)
    requires i < |runs|
    ensures Join(Ok(body), EncodeChunks(RunChunks(runs[i..]))) ==
            Join(Join(Ok(body), EncodeChunks(Chunks(runs[i].offset, runs[i].data))), EncodeChunks(RunChunks(runs[i + 1..])))
  {
    var one, more := Chunks(runs[i].offset, runs[i].data), RunChunks(runs[i + 1..]);
    assert runs[i..][1..] == runs[i + 1..];
    EncodeSplit(one, more);
    JoinAssoc(Ok(body), EncodeChunks(one), EncodeChunks(more));
  }

  /** `make_ips`. `chunks` are the records it writes: its own parser reads them back, and applying them rebuilds `modified`. */
  method MakeIps(orig: seq<byte>, modified: seq<byte>) returns (r: Encoding, ghost chunks: seq<Record>)
    ensures |modified| < |orig| ==> r == Err(Shrinks)
    ensures |modified| >= |orig| ==> exists runs ::
      DiffRunsUpTo(orig, modified, runs, |modified|) && chunks == RunChunks(runs)
    ensures r.Ok? <==> |modified| >= |orig| && forall i :: 0 <= i < |chunks| ==> Encodable(chunks[i])
    ensures r.Ok? ==> ParsePatch(r.value) == Ok(chunks) && ApplyPatch(orig, r.value) == Ok(modified)
    ensures r.Ok? ==> Consistent(chunks)
  {
    chunks := [];
    var diff := DiffRuns(orig, modified);
    if diff.Err? {
      return Err(diff.error), [];
    }
    var runs := diff.value;
    var body: seq<byte> := [];
    RunChunksSlices(modified, runs);
    chunks := RunChunks(runs);
    EncodesIff(chunks);
    JoinUnit(EncodeChunks(chunks));
    assert runs[0..] == runs;
    for i := 0 to |runs|
      invariant EncodeChunks(chunks) == Join(Ok(body), EncodeChunks(RunChunks(runs[i..])))
    {
      var rec := EncodeRecord(runs[i].offset, runs[i].data);
      RunStep(body, runs, i);
      if rec.Err? {
        return Err(rec.error), chunks;
      }
      body := body + rec.value;
    }
    JoinUnit(Ok(body));
    PatchParses(chunks);
    ChunksRebuild(orig, modified, runs);
    SlicesConsistent(chunks, modified);
    return Ok(HEADER + body + EOF), chunks;
  }

  // ---------------------------------------------------- validated applying

  /** `a` and `b` have the same byte at `k`, or both end before it. */
  predicate AgreeAt(a: seq<byte>, b: seq<byte>, k: nat) {
    (k < |a| <==> k < |b|) && (k < |a| ==> a[k] == b[k])
  }

  /** `a` and `b` agree at every byte the record covers. */
  ghost predicate SiteAgrees(a: seq<byte>, b: seq<byte>, rec: Record) {
    forall k: nat :: rec.Covers(k) ==> AgreeAt(a, b, k)
  }

  /** A slice ends where the record or the ROM does. */
  lemma SliceAt(rom: seq<byte>, rec: Record, k: nat)
    requires rec.Covers(k)
    ensures k - rec.offset < |Slice(rom, rec)| <==> k < |rom|
    ensures k < |rom| ==> Slice(rom, rec)[k - rec.offset] == rom[k]
  {
  }

  lemma SliceLength(rom: seq<byte>, rec: Record)
    ensures |Slice(rom, rec)| <= |rec.data|
  {
  }

  lemma SlicesAgree(a: seq<byte>, b: seq<byte>, rec: Record)
    ensures Slice(a, rec) == Slice(b, rec) <==> SiteAgrees(a, b, rec)
  {
    var sa, sb := Slice(a, rec), Slice(b, rec);
    SliceLength(a, rec);
    SliceLength(b, rec);
    hide Slice;
    if sa == sb {
      forall k: nat | rec.Covers(k) ensures AgreeAt(a, b, k) {
        SliceAt(a, rec, k);
        SliceAt(b, rec, k);
      }
    }
    if SiteAgrees(a, b, rec) {
      forall j: nat | j < |rec.data| ensures AgreeAt(sa, sb, j) {
        assert rec.Covers(rec.offset + j) && AgreeAt(a, b, rec.offset + j);
        SliceAt(a, rec, rec.offset + j);
        SliceAt(b, rec, rec.offset + j);
      }
      SameSequence(sa, sb, |rec.data|);
    }
  }

  lemma SameSequence(a: seq<byte>, b: seq<byte>, n: nat)
    requires |a| <= n && |b| <= n && forall j: nat :: j < n ==> AgreeAt(a, b, j)
    ensures a == b
  {
    assert |a| < n ==> AgreeAt(a, b, |a|);
    assert |b| < n ==> AgreeAt(a, b, |b|);
    forall j: nat | j < |a| ensures j < |b| && a[j] == b[j] {
      assert AgreeAt(a, b, j);
    }
  }

  /** `rom` has vanilla's bytes wherever the patch from `vanilla` to `final` changes something. */
  ghost predicate UntouchedSites(rom: seq<byte>, vanilla: seq<byte>, final: seq<byte>) {
    forall k: nat :: k < |final| && Differs(vanilla, final, k) ==> AgreeAt(rom, vanilla, k)
  }

  lemma SiteAccepted(vanilla: seq<byte>, final: seq<byte>, chunks: seq<Record>, rom: seq<byte>, i: nat)
    requires SlicesOf(chunks, final) && i < |chunks|
    ensures MismatchAt(rom, chunks[i], Manifest(vanilla, chunks)) == [] <==> SiteAgrees(rom, vanilla, chunks[i])
  {
    ManifestLookup(vanilla, chunks, i);
    SlicesAgree(rom, vanilla, chunks[i]);
  }

  lemma SitesAreDifferences(vanilla: seq<byte>, final: seq<byte>, chunks: seq<Record>, rom: seq<byte>)
    requires forall k: nat :: Covered(chunks, k) <==> k < |final| && Differs(vanilla, final, k)
    ensures (forall i :: 0 <= i < |chunks| ==> SiteAgrees(rom, vanilla, chunks[i])) <==> UntouchedSites(rom, vanilla, final)
  {
    if UntouchedSites(rom, vanilla, final) {
      forall i, k: nat | 0 <= i < |chunks| && chunks[i].Covers(k) ensures AgreeAt(rom, vanilla, k) {
        assert Covered(chunks, k);
      }
    }
  }

  /**
   * A patch built from `vanilla` to `final`, checked against the manifest derived from `vanilla`, is accepted for
   * exactly the ROMs that agree with `vanilla` at every byte the two differ in; an accepted ROM gets the final byte
   * there and keeps every other byte.
   */
  lemma ValidatedExactly(vanilla: seq<byte>, final: seq<byte>, runs: seq<Record>, rom: seq<byte>)
    requires DiffRunsUpTo(vanilla, final, runs, |final|)
    ensures var chunks := RunChunks(runs);
      && (Mismatches(rom, chunks, Manifest(vanilla, chunks)) == [] <==> UntouchedSites(rom, vanilla, final))
      && |PatchAll(rom, chunks)| >= |rom|
      && (forall k: nat :: k < |rom| ==>
            PatchAll(rom, chunks)[k] == if k < |final| && Differs(vanilla, final, k) then final[k] else rom[k])
  {
    var chunks := RunChunks(runs);
    RunChunksSlices(final, runs);
    ChunksOverlay(vanilla, final, runs, rom);
    NoMismatchIff(rom, chunks, Manifest(vanilla, chunks));
    forall i | 0 <= i < |chunks|
      ensures MismatchAt(rom, chunks[i], Manifest(vanilla, chunks)) == [] <==> SiteAgrees(rom, vanilla, chunks[i])
    {
      SiteAccepted(vanilla, final, chunks, rom, i);
    }
    SitesAreDifferences(vanilla, final, chunks, rom);
  }
}
