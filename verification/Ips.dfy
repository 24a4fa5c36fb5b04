/** IPS patches: the parser and applier of bridge_core/ips.py. */
module Ips {
  import opened Wrappers
  import opened Bytes

  /** One patch record: `data` is to be written at `offset`. */
  datatype Record = Record(offset: nat, data: seq<byte>) {
    function End(): nat { offset + |data| }
    predicate Covers(k: nat) { offset <= k < End() }
  }

  datatype Part = OffsetPart | LengthPart | RlePart | DataPart

  datatype Error = BadHeader | UnexpectedEnd(part: Part)

  const HEADER: seq<byte> := [0x50, 0x41, 0x54, 0x43, 0x48]
  const EOF: seq<byte> := [0x45, 0x4F, 0x46]

  // ---------------------------------------------------------------- parsing

  /** `stream.read(n)` at the head of `s`: at most `n` bytes. */
  function Read(s: seq<byte>, n: nat): (r: seq<byte>)
    ensures |r| <= n && r <= s
  {
    if |s| <= n then s else s[..n]
  }

  /** One record at the head of `s`, which does not start with the trailer: the record and the bytes left. */
  function ParseOne(s: seq<byte>): (r: Result<(Record, seq<byte>), Error>)
    ensures r.Ok? ==> |r.value.1| < |s|
  {
    if |s| < 3 then Err(UnexpectedEnd(OffsetPart))
    else if |s| < 5 then Err(UnexpectedEnd(LengthPart))
    else
      var offset := FromBE(s[..3]);
      var length := FromBE(s[3..5]);
      if length == 0 then
        if |s| < 8 then Err(UnexpectedEnd(RlePart))
        else Ok((Record(offset, Fill(s[7], FromBE(s[5..7]))), s[8..]))
      else if |s| < 5 + length then Err(UnexpectedEnd(DataPart))
      else Ok((Record(offset, s[5..5 + length]), s[5 + length..]))
  }

  function Fill(b: byte, n: nat): (r: seq<byte>)
    ensures |r| == n && forall k :: 0 <= k < n ==> r[k] == b
  {
    seq(n, _ => b)
  }

  /** Everything after the header, up to the trailer. */
  function ParseRecords(s: seq<byte>): Result<seq<Record>, Error>
    decreases |s|
  {
    if Read(s, 3) == EOF then Ok([])
    else match ParseOne(s)
      case Err(e) => Err(e)
      case Ok((rec, rest)) =>
        match ParseRecords(rest)
        case Err(e) => Err(e)
        case Ok(recs) => Ok([rec] + recs)
  }

  function ParsePatch(patch: seq<byte>): Result<seq<Record>, Error> {
    if Read(patch, 5) != HEADER then Err(BadHeader) else ParseRecords(patch[5..])
  }

  /** The result of a parse that has `recs` behind it and `rest` ahead. */
  function Continue(recs: seq<Record>, rest: seq<byte>): Result<seq<Record>, Error> {
    match ParseRecords(rest)
    case Err(e) => Err(e)
    case Ok(more) => Ok(recs + more)
  }

  lemma ContinueStep(recs: seq<Record>, rest: seq<byte>)
    requires Read(rest, 3) != EOF && ParseOne(rest).Ok?
    ensures Continue(recs, rest) == Continue(recs + [ParseOne(rest).value.0], ParseOne(rest).value.1)
  {
    var (rec, rest') := ParseOne(rest).value;
    match ParseRecords(rest')
    case Err(_) =>
    case Ok(more) => assert recs + ([rec] + more) == recs + [rec] + more;
  }

  lemma ContinueEnds(recs: seq<Record>, rest: seq<byte>)
    ensures Continue([], rest) == ParseRecords(rest)
    ensures Read(rest, 3) == EOF ==> Continue(recs, rest) == Ok(recs)
    ensures Read(rest, 3) != EOF && ParseOne(rest).Err? ==> Continue(recs, rest) == Err(ParseOne(rest).error)
  {
    hide ParseOne, Read;
    assert recs + [] == recs;
    match ParseRecords(rest)
    case Err(_) =>
    case Ok(more) => assert [] + more == more;
  }

  // ------------------------------------------------------ incomplete patches

  /** In what the front of a record breaks off. */
  function BrokenPart(s: seq<byte>, n: nat): Part
    requires 5 <= |s|
  {
    if n < 3 then OffsetPart else if n < 5 then LengthPart else if s[3] == s[4] == 0 then RlePart else DataPart
  }

  lemma LengthZeroIff(x: byte, y: byte)
    ensures FromBE([x, y]) == 0 <==> x == y == 0
  {
    assert [x, y][..1] == [x] && [x][..0] == [] && FromBE([]) == 0;
    assert FromBE([x]) == x && FromBE([x, y]) == FromBE([x]) * 0x100 + y;
  }

  /** A record that is cut off is no record, and the error names the part that is missing. */
  lemma TruncatedOne(s: seq<byte>, n: nat)
    requires ParseOne(s).Ok? && n < |s| - |ParseOne(s).value.1|
    ensures ParseOne(s[..n]) == Err(UnexpectedEnd(BrokenPart(s, n)))
  {
    if n >= 5 {
      assert s[..n][3..5] == s[3..5] == [s[3], s[4]];
      LengthZeroIff(s[3], s[4]);
    }
  }

  /** The records and the trailer are all there is. */
  predicate EndsWithTrailer(s: seq<byte>)
    decreases |s|
  {
    s == EOF || (Read(s, 3) != EOF && ParseOne(s).Ok? && EndsWithTrailer(ParseOne(s).value.1))
  }

  lemma OneMore(s: seq<byte>, n: nat)
    requires ParseOne(s).Ok? && |s| - |ParseOne(s).value.1| <= n <= |s|
    ensures var used := |s| - |ParseOne(s).value.1|;
      ParseOne(s[..n]) == Ok((ParseOne(s).value.0, ParseOne(s).value.1[..n - used]))
  {
    TakeSlices(s, n, 0, 3);
    TakeSlices(s, n, 3, 5);
    assert s[..n][0..3] == s[..n][..3] && s[0..3] == s[..3];
    var length := FromBE(s[3..5]);
    if length == 0 {
      TakeSlices(s, n, 5, 7);
      TakeSlices(s, n, 7, 8);
    } else {
      TakeSlices(s, n, 5, 5 + length);
    }
  }

  /** The parts of a front are those of the whole. */
  lemma TakeSlices(s: seq<byte>, n: nat, i: nat, j: nat)
    requires i <= j <= n <= |s|
    ensures s[..n][i..j] == s[i..j] && s[..n][j..] == s[j..][..n - j]
  {
  }

  /** So a patch that is cut off anywhere is never taken for a shorter one. */
  lemma {:induction false} TruncatedFails(s: seq<byte>, n: nat)
    requires EndsWithTrailer(s) && n < |s|
    ensures ParseRecords(s[..n]).Err? && ParseRecords(s[..n]).error.UnexpectedEnd?
    decreases |s|
  {
    if s != EOF {
      var used := |s| - |ParseOne(s).value.1|;
      assert Read(s[..n], 3) != EOF by { ReadFront(s, n); }
      if n < used {
        TruncatedOne(s, n);
      } else {
        OneMore(s, n);
        TruncatedFails(ParseOne(s).value.1, n - used);
      }
    }
  }

  lemma ReadFront(s: seq<byte>, n: nat)
    requires n <= |s| && Read(s, 3) != EOF
    ensures Read(s[..n], 3) != EOF
  {
    if n >= 3 {
      assert s[..n][..3] == s[..3];
    }
  }

  /** A whole patch: cut off in its header it is none, and behind that it is incomplete. */
  lemma TruncatedPatch(patch: seq<byte>, n: nat)
    requires HEADER <= patch && EndsWithTrailer(patch[5..]) && n < |patch|
    ensures ParsePatch(patch[..n]) == Err(BadHeader) <==> n < 5
    ensures n >= 5 ==> ParsePatch(patch[..n]).Err? && ParsePatch(patch[..n]).error.UnexpectedEnd?
  {
    if n >= 5 {
      assert patch[..n][..5] == patch[..5] && patch[..n][5..] == patch[5..][..n - 5];
      TruncatedFails(patch[5..], n - 5);
    }
  }

  /** And without the header there is no patch. */
  lemma HeaderNeeded(patch: seq<byte>)
    ensures ParsePatch(patch) == Err(BadHeader) <==> !(HEADER <= patch)
  {
    if HEADER <= patch {
      assert patch[..5] == HEADER;
      NeverBadHeader(patch[5..]);
    }
  }

  lemma {:induction false} NeverBadHeader(s: seq<byte>)
    ensures ParseRecords(s) != Err(BadHeader)
    decreases |s|
  {
    if Read(s, 3) != EOF && ParseOne(s).Ok? {
      NeverBadHeader(ParseOne(s).value.1);
    }
  }

  /** One turn of the parser's loop: a record, and how many bytes it took. */
  method ParseNext(rest: seq<byte>) returns (r: Result<(Record, nat), Error>)
    ensures r.Err? ==> ParseOne(rest) == Err(r.error)
    ensures r.Ok? ==> 0 < r.value.1 <= |rest| && ParseOne(rest) == Ok((r.value.0, rest[r.value.1..]))
  {
    if |rest| < 3 {
      return Err(UnexpectedEnd(OffsetPart));
    }
    var offset := FromBE(rest[..3]);
    if |rest| < 5 {
      return Err(UnexpectedEnd(LengthPart));
    }
    var length := FromBE(rest[3..5]);
    if length == 0 {
      if |rest| < 8 {
        return Err(UnexpectedEnd(RlePart));
      }
      return Ok((Record(offset, Fill(rest[7], FromBE(rest[5..7]))), 8));
    }
    if |rest| < 5 + length {
      return Err(UnexpectedEnd(DataPart));
    }
    return Ok((Record(offset, rest[5..5 + length]), 5 + length));
  }

  /** `parse`, run to its end: `stream` is what the cursor has ahead of it. */
  method Parse(patch: seq<byte>) returns (r: Result<seq<Record>, Error>)
    ensures r == ParsePatch(patch)
  {
    if Read(patch, 5) != HEADER {
      return Err(BadHeader);
    }
    hide ParseOne, ParseRecords, Continue, Read;
    var stream := patch[5..];
    var recs: seq<Record> := [];
    ContinueEnds(recs, stream);
    while Read(stream, 3) != EOF
      invariant ParsePatch(patch) == Continue(recs, stream)
      decreases |stream|
    {
      ContinueEnds(recs, stream);
      var next := ParseNext(stream);
      if next.Err? {
        return Err(next.error);
      }
      ContinueStep(recs, stream);
      recs, stream := recs + [next.value.0], stream[next.value.1..];
    }
    ContinueEnds(recs, stream);
    return Ok(recs);
  }

  // --------------------------------------------------------------- applying

  /** One record written over `rom`, which is zero-extended when the record reaches past its end. */
  function Patch(rom: seq<byte>, rec: Record): (r: seq<byte>)
    ensures |r| == if rec.End() > |rom| then rec.End() else |rom|
    ensures forall k :: 0 <= k < |r| ==>
      r[k] == if rec.Covers(k) then rec.data[k - rec.offset] else if k < |rom| then rom[k] else 0
  {
    var ext := if rec.End() > |rom| then rom + Fill(0, rec.End() - |rom|) else rom;
    ext[..rec.offset] + rec.data + ext[rec.End()..]
  }

  function PatchAll(rom: seq<byte>, recs: seq<Record>): seq<byte> {
    if recs == [] then rom else Patch(PatchAll(rom, recs[..|recs| - 1]), recs[|recs| - 1])
  }

  lemma PatchAllStep(rom: seq<byte>, recs: seq<Record>, i: nat)
    requires i < |recs|
    ensures PatchAll(rom, recs[..i + 1]) == Patch(PatchAll(rom, recs[..i]), recs[i])
  {
    assert recs[..i + 1][..i] == recs[..i];
  }

  function ApplyPatch(rom: seq<byte>, patch: seq<byte>): Result<seq<byte>, Error> {
    match ParsePatch(patch)
    case Err(e) => Err(e)
    case Ok(recs) => Ok(PatchAll(rom, recs))
  }

  /** One record written into the buffer: extend it if need be, then overwrite the slice. */
  method WriteRecord(before: seq<byte>, rec: Record) returns (out: seq<byte>)
    ensures out == Patch(before, rec)
  {
    out := before;
    var end := rec.offset + |rec.data|;
    if end > |out| {
      out := out + Fill(0, end - |out|);
    }
    out := out[..rec.offset] + rec.data + out[end..];
  }

  /** `apply`: the output buffer is rewritten record by record. */
  method Apply(rom: seq<byte>, patch: seq<byte>) returns (r: Result<seq<byte>, Error>)
    ensures r == ApplyPatch(rom, patch)
  {
    var parsed := Parse(patch);
    if parsed.Err? {
      return Err(parsed.error);
    }
    var recs := parsed.value;
    var out := rom;
    for i := 0 to |recs|
      invariant out == PatchAll(rom, recs[..i])
    {
      out := WriteRecord(out, recs[i]);
      PatchAllStep(rom, recs, i);
    }
    assert recs[..|recs|] == recs;
    return Ok(out);
  }

  ghost predicate Covered(recs: seq<Record>, k: nat) {
    exists i :: 0 <= i < |recs| && recs[i].Covers(k)
  }

  /** The byte the last record covering `k` puts there. */
  function LastCover(recs: seq<Record>, k: nat): Option<byte> {
    if recs == [] then None
    else
      var last := recs[|recs| - 1];
      if last.Covers(k) then Some(last.data[k - last.offset]) else LastCover(recs[..|recs| - 1], k)
  }

  function MaxEnd(recs: seq<Record>, size: nat): nat {
    if recs == [] then size
    else
      var m := MaxEnd(recs[..|recs| - 1], size);
      if recs[|recs| - 1].End() > m then recs[|recs| - 1].End() else m
  }

  /** Overlay meaning of a patch: the last record covering a byte decides it, else the ROM, else zero. */
  lemma {:induction false} OverlaySemantics(rom: seq<byte>, recs: seq<Record>)
    ensures |PatchAll(rom, recs)| == MaxEnd(recs, |rom|) >= |rom|
    ensures forall k: nat :: LastCover(recs, k).Some? ==> k < |PatchAll(rom, recs)|
    ensures forall k :: 0 <= k < |PatchAll(rom, recs)| ==>
      PatchAll(rom, recs)[k] ==
        match LastCover(recs, k)
        case Some(b) => b
        case None => if k < |rom| then rom[k] else 0
  {
    if recs != [] {
      var init := recs[..|recs| - 1];
      OverlaySemantics(rom, init);
      forall k | 0 <= k < |PatchAll(rom, recs)|
        ensures PatchAll(rom, recs)[k] ==
                  match LastCover(recs, k)
                  case Some(b) => b
                  case None => if k < |rom| then rom[k] else 0
      {
        assert PatchAll(rom, recs) == Patch(PatchAll(rom, init), recs[|recs| - 1]);
      }
    }
  }

  lemma {:induction false} MaxEndStable(recs: seq<Record>, size: nat, size': nat)
    requires size <= size' <= MaxEnd(recs, size)
    ensures MaxEnd(recs, size') == MaxEnd(recs, size)
  {
    if recs != [] {
      var init := recs[..|recs| - 1];
      if size' <= MaxEnd(init, size) {
        MaxEndStable(init, size, size');
      } else {
        MaxEndGrows(init, size, size');
      }
    }
  }

  lemma {:induction false} MaxEndGrows(recs: seq<Record>, size: nat, size': nat)
    requires MaxEnd(recs, size) <= size'
    ensures MaxEnd(recs, size') == size'
  {
    if recs != [] {
      MaxEndGrows(recs[..|recs| - 1], size, size');
    }
  }

  /** Applying a patch twice is applying it once. */
  lemma ApplyIdempotent(rom: seq<byte>, recs: seq<Record>)
    ensures PatchAll(PatchAll(rom, recs), recs) == PatchAll(rom, recs)
  {
    var once := PatchAll(rom, recs);
    OverlaySemantics(rom, recs);
    OverlaySemantics(once, recs);
    MaxEndStable(recs, |rom|, |once|);
  }

  predicate Holds(rom: seq<byte>, rec: Record) {
    rec.End() <= |rom| && rom[rec.offset..rec.End()] == rec.data
  }

  /** The records the parser yields before it ends or fails. */
  function Yielded(s: seq<byte>): seq<Record>
    decreases |s|
  {
    if Read(s, 3) == EOF || ParseOne(s).Err? then [] else [ParseOne(s).value.0] + Yielded(ParseOne(s).value.1)
  }

  /** `is_patched` behind the header: records are checked as they are yielded, so that one may fail before the parser does. */
  function Checked(rom: seq<byte>, s: seq<byte>): Result<bool, Error>
    decreases |s|
  {
    if Read(s, 3) == EOF then Ok(true)
    else match ParseOne(s)
      case Err(e) => Err(e)
      case Ok((rec, rest)) => if Holds(rom, rec) then Checked(rom, rest) else Ok(false)
  }

  /** False if a yielded record does not hold; otherwise the parser's error, or true. */
  lemma {:induction false} CheckedMeans(rom: seq<byte>, s: seq<byte>)
    ensures Checked(rom, s) ==
            if exists rec :: rec in Yielded(s) && !Holds(rom, rec) then Ok(false)
            else if ParseRecords(s).Err? then Err(ParseRecords(s).error) else Ok(true)
    ensures ParseRecords(s).Ok? ==> ParseRecords(s).value == Yielded(s)
    decreases |s|
  {
    hide ParseOne, Read, Holds;
    if Read(s, 3) != EOF && ParseOne(s).Ok? {
      var (rec, rest) := ParseOne(s).value;
      CheckedMeans(rom, rest);
      assert forall x :: x in Yielded(s) <==> x == rec || x in Yielded(rest);
    }
  }

  /** What the parser of a whole patch yields. */
  function PatchYields(patch: seq<byte>): seq<Record> { if Read(patch, 5) != HEADER then [] else Yielded(patch[5..]) }

  /** `is_patched`, which reads no further than the first record that does not hold. */
  method IsPatched(rom: seq<byte>, patch: seq<byte>) returns (r: Result<bool, Error>)
    ensures r == Ok(false) <==> exists rec :: rec in PatchYields(patch) && !Holds(rom, rec)
    ensures r == Ok(true) <==> ParsePatch(patch).Ok? && forall rec :: rec in ParsePatch(patch).value ==> Holds(rom, rec)
    ensures r.Err? ==> ParsePatch(patch) == Err(r.error)
  {
    if Read(patch, 5) != HEADER {
      return Err(BadHeader);
    }
    var stream := patch[5..];
    CheckedMeans(rom, stream);
    hide ParseOne, ParseRecords, Read, Yielded;
    while Read(stream, 3) != EOF
      invariant Checked(rom, patch[5..]) == Checked(rom, stream)
      decreases |stream|
    {
      var next := ParseNext(stream);
      if next.Err? {
        return Err(next.error);
      }
      var rec := next.value.0;
      if rec.offset + |rec.data| > |rom| {
        return Ok(false);
      }
      if rom[rec.offset..rec.offset + |rec.data|] != rec.data {
        return Ok(false);
      }
      stream := stream[next.value.1..];
    }
    return Ok(true);
  }

  lemma {:induction false} MaxEndBounds(recs: seq<Record>, size: nat)
    ensures size <= MaxEnd(recs, size)
    ensures forall i :: 0 <= i < |recs| ==> recs[i].End() <= MaxEnd(recs, size)
  {
    if recs != [] {
      MaxEndBounds(recs[..|recs| - 1], size);
    }
  }

  lemma HoldsByByte(rom: seq<byte>, rec: Record)
    requires rec.End() <= |rom|
    ensures Holds(rom, rec) <==> forall k: nat :: rec.Covers(k) ==> rom[k] == rec.data[k - rec.offset]
  {
    var slice := rom[rec.offset..rec.End()];
    assert forall j :: 0 <= j < |slice| ==> slice[j] == rom[rec.offset + j];
    if forall k: nat :: rec.Covers(k) ==> rom[k] == rec.data[k - rec.offset] {
      forall j | 0 <= j < |slice| ensures slice[j] == rec.data[j] {
        assert rec.Covers(rec.offset + j);
      }
    } else {
      var k: nat :| rec.Covers(k) && rom[k] != rec.data[k - rec.offset];
      assert slice[k - rec.offset] != rec.data[k - rec.offset];
    }
  }

  /** A record's own byte is the one the overlay shows. */
  ghost predicate Wins(recs: seq<Record>, i: nat)
    requires i < |recs|
  {
    forall k: nat :: recs[i].Covers(k) ==> LastCover(recs, k) == Some(recs[i].data[k - recs[i].offset])
  }

  /** No two records of the list disagree about a byte. */
  ghost predicate Consistent(recs: seq<Record>) {
    forall i :: 0 <= i < |recs| ==> Wins(recs, i)
  }

  lemma HoldsIffWins(rom: seq<byte>, recs: seq<Record>, i: nat)
    requires i < |recs|
    ensures Holds(PatchAll(rom, recs), recs[i]) <==> Wins(recs, i)
  {
    var out := PatchAll(rom, recs);
    OverlaySemantics(rom, recs);
    MaxEndBounds(recs, |rom|);
    HoldsByByte(out, recs[i]);
    forall k: nat | recs[i].Covers(k)
      ensures LastCover(recs, k).Some? && out[k] == LastCover(recs, k).value
    {
      CoveredHasLast(recs, i, k);
    }
  }

  /** A patched ROM passes the check exactly when overlapping records of the patch agree. */
  lemma PatchedIffConsistent(rom: seq<byte>, recs: seq<Record>)
    ensures (forall i :: 0 <= i < |recs| ==> Holds(PatchAll(rom, recs), recs[i])) <==> Consistent(recs)
  {
    forall i | 0 <= i < |recs| ensures Holds(PatchAll(rom, recs), recs[i]) <==> Wins(recs, i) {
      HoldsIffWins(rom, recs, i);
    }
  }

  lemma {:induction false} CoveredHasLast(recs: seq<Record>, i: nat, k: nat)
    requires i < |recs| && recs[i].Covers(k)
    ensures LastCover(recs, k).Some?
  {
    if !recs[|recs| - 1].Covers(k) {
      CoveredHasLast(recs[..|recs| - 1], i, k);
    }
  }

  /** A ROM that passes the check is left as it is by the patch. */
  lemma {:induction false} PatchedIsFixpoint(rom: seq<byte>, recs: seq<Record>)
    requires forall i :: 0 <= i < |recs| ==> Holds(rom, recs[i])
    ensures PatchAll(rom, recs) == rom
  {
    if recs != [] {
      hide Holds, Patch;
      var init := recs[..|recs| - 1];
      forall i | 0 <= i < |init| ensures Holds(rom, init[i]) {
        assert init[i] == recs[i];
      }
      PatchedIsFixpoint(rom, init);
      HeldPatch(rom, recs[|recs| - 1]);
    }
  }

  /** Writing a record that is there already changes nothing. */
  lemma HeldPatch(rom: seq<byte>, rec: Record)
    requires Holds(rom, rec)
    ensures Patch(rom, rec) == rom
  {
    hide Patch;
    forall k | 0 <= k < |rom| && rec.Covers(k) ensures rec.data[k - rec.offset] == rom[k] {
      assert rom[rec.offset..rec.End()][k - rec.offset] == rom[k];
    }
  }

  // ---------------------------------------------------- validated applying

  /** The bytes of `rom` a record would overwrite, clamped to the ROM's end. */
  function Slice(rom: seq<byte>, rec: Record): seq<byte> {
    var lo := if rec.offset < |rom| then rec.offset else |rom|;
    var hi := if rec.End() < |rom| then rec.End() else |rom|;
    rom[lo..hi]
  }

  datatype Mismatch = Mismatch(offset: nat, want: seq<byte>, actual: seq<byte>)
  datatype ValidateError = Malformed(error: Error) | RomConflict(mismatches: seq<Mismatch>)

  /** The complaint about one record, if there is one. */
  function MismatchAt(rom: seq<byte>, rec: Record, expected: map<nat, seq<byte>>): seq<Mismatch> {
    if rec.offset !in expected then [Mismatch(rec.offset, [], Slice(rom, rec))]
    else if expected[rec.offset] != Slice(rom, rec) then [Mismatch(rec.offset, expected[rec.offset], Slice(rom, rec))]
    else []
  }

  function Mismatches(rom: seq<byte>, recs: seq<Record>, expected: map<nat, seq<byte>>): seq<Mismatch> {
    if recs == [] then []
    else Mismatches(rom, recs[..|recs| - 1], expected) + MismatchAt(rom, recs[|recs| - 1], expected)
  }

  lemma MismatchesStep(rom: seq<byte>, recs: seq<Record>, expected: map<nat, seq<byte>>, i: nat)
    requires i < |recs|
    ensures Mismatches(rom, recs[..i + 1], expected) == Mismatches(rom, recs[..i], expected) + MismatchAt(rom, recs[i], expected)
  {
    assert recs[..i + 1][..i] == recs[..i];
  }

  /**
   * A patch is accepted exactly if the manifest has every record, with the bytes that the ROM holds there; each
   * complaint gives the offset of a record, what the manifest says of it, and what the ROM holds instead.
   */
  lemma {:induction false} ConflictsAre(rom: seq<byte>, recs: seq<Record>, expected: map<nat, seq<byte>>)
    ensures Mismatches(rom, recs, expected) == [] <==>
            forall rec :: rec in recs ==> rec.offset in expected && expected[rec.offset] == Slice(rom, rec)
    ensures forall m :: m in Mismatches(rom, recs, expected) ==>
              && (exists rec :: rec in recs && rec.offset == m.offset && Slice(rom, rec) == m.actual)
              && m.want == (if m.offset in expected then expected[m.offset] else [])
              && !(m.offset in expected && m.want == m.actual)
  {
    if recs != [] {
      var init, last := recs[..|recs| - 1], recs[|recs| - 1];
      ConflictsAre(rom, init, expected);
      assert forall rec :: rec in recs <==> rec in init || rec == last;
      var more := MismatchAt(rom, last, expected);
      assert |more| <= 1;
      forall m | m in Mismatches(rom, recs, expected)
        ensures exists rec :: rec in recs && rec.offset == m.offset && Slice(rom, rec) == m.actual
      {
        if m in more {
          assert last in recs;
        }
      }
    }
  }

  /** `apply_validated`: every divergence is collected before anything is applied. */
  method ApplyValidated(rom: seq<byte>, patch: seq<byte>, expected: map<nat, seq<byte>>)
    returns (r: Result<seq<byte>, ValidateError>)
    ensures ParsePatch(patch).Err? ==> r == Err(Malformed(ParsePatch(patch).error))
    ensures ParsePatch(patch).Ok? ==>
      var recs := ParsePatch(patch).value;
      r == if Mismatches(rom, recs, expected) == [] then Ok(PatchAll(rom, recs))
           else Err(RomConflict(Mismatches(rom, recs, expected)))
  {
    var parsed := Parse(patch);
    if parsed.Err? {
      return Err(Malformed(parsed.error));
    }
    var recs := parsed.value;
    var mismatches: seq<Mismatch> := [];
    for i := 0 to |recs|
      invariant mismatches == Mismatches(rom, recs[..i], expected)
    {
      MismatchesStep(rom, recs, expected, i);
      var actual := Slice(rom, recs[i]);
      if recs[i].offset !in expected {
        mismatches := mismatches + [Mismatch(recs[i].offset, [], actual)];
      } else if actual != expected[recs[i].offset] {
        mismatches := mismatches + [Mismatch(recs[i].offset, expected[recs[i].offset], actual)];
      }
    }
    assert recs[..|recs|] == recs;
    if mismatches != [] {
      return Err(RomConflict(mismatches));
    }
    var applied := Apply(rom, patch);
    return Ok(applied.value);
  }

  /** The manifest relocate_patch.py derives from a vanilla ROM; a repeated offset keeps its last record. */
  function Manifest(vanilla: seq<byte>, recs: seq<Record>): map<nat, seq<byte>> {
    if recs == [] then map[]
    else Manifest(vanilla, recs[..|recs| - 1])[recs[|recs| - 1].offset := Slice(vanilla, recs[|recs| - 1])]
  }

  lemma {:induction false} ManifestLookup(vanilla: seq<byte>, recs: seq<Record>, i: nat)
    requires i < |recs|
    requires forall a, b :: 0 <= a < b < |recs| ==> recs[a].offset != recs[b].offset
    ensures recs[i].offset in Manifest(vanilla, recs)
    ensures Manifest(vanilla, recs)[recs[i].offset] == Slice(vanilla, recs[i])
  {
    if i < |recs| - 1 {
      ManifestLookup(vanilla, recs[..|recs| - 1], i);
    }
  }

  lemma {:induction false} NoMismatchIff(rom: seq<byte>, recs: seq<Record>, expected: map<nat, seq<byte>>)
    ensures Mismatches(rom, recs, expected) == [] <==> forall i :: 0 <= i < |recs| ==> MismatchAt(rom, recs[i], expected) == []
  {
    if recs != [] {
      var init := recs[..|recs| - 1];
      hide MismatchAt;
      NoMismatchIff(rom, init, expected);
      assert Mismatches(rom, recs, expected) == Mismatches(rom, init, expected) + MismatchAt(rom, recs[|init|], expected);
      if Mismatches(rom, recs, expected) == [] {
        forall i | 0 <= i < |recs| ensures MismatchAt(rom, recs[i], expected) == [] {
          assert i < |init| ==> init[i] == recs[i];
        }
      }
      if forall i :: 0 <= i < |recs| ==> MismatchAt(rom, recs[i], expected) == [] {
        forall i | 0 <= i < |init| ensures MismatchAt(rom, init[i], expected) == [] {
          assert init[i] == recs[i];
        }
      }
    }
  }
}
