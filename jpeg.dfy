/** The JPEG marker-segment scanner: a two-byte marker, then a per-marker
    decoder (ITU-T T.81, Annex B), repeated at most 32 times. */
module Jpeg {
  import opened Ints
  import opened Nom
  import W = Wrappers

  // ---------------------------------------------------------------------
  // Start-of-image checks

  /** `SoiError`. */
  datatype SoiError = InvalidSoi | Nom(input: Bytes, kind: ErrorKind)

  /** A two-byte id that is the SOI marker `FF D8`. */
  predicate IsSoiId(id: Bytes)
  {
    |id| == 2 && id[0] == 0xFF && id[1] == 0xD8
  }

  /** `take_soi`: two bytes, mapped to "is this the SOI marker". */
  function TakeSoi(content: Bytes): (r: IResult<bool, InputError>)
    ensures r.Ok? <==> 2 <= |content|
    ensures r.Ok? ==> r.rest == content[2..] && (r.value <==> content[0] == 0xFF && content[1] == 0xD8)
    ensures !r.Ok? ==> r == EofAt(content)
  {
    Take(2, content).Map(IsSoiId)
  }

  /** `take_soi_2`: two bytes, which must be the SOI marker. */
  function TakeSoi2(content: Bytes): (r: IResult<Bytes, SoiError>)
    ensures |content| < 2 ==> r == Err(Error(SoiError.Nom(content, Eof)))
    ensures 2 <= |content| && IsSoiId(content[..2]) ==> r == Ok(content[2..], [0xFF, 0xD8])
    ensures 2 <= |content| && !IsSoiId(content[..2]) ==> r == Err(Error(InvalidSoi))
  {
    var res := Take(2, content).MapErr((e: InputError) => SoiError.Nom(e.input, e.code));
    if res.Ok? then
      if res.value[0] == 0xFF && res.value[1] == 0xD8 then
        assert res.value == [0xFF, 0xD8];
        res
      else Err(Error(InvalidSoi))
    else res
  }

  /** The check in `main`: `[FF, D9]` is not a start of image. */
  lemma TakeSoi2RejectsEoi()
    ensures TakeSoi2([0xFF, 0xD9]) == Err(Error(InvalidSoi))
  {
    assert !IsSoiId([0xFF, 0xD9][..2]);
  }

  // ---------------------------------------------------------------------
  // Segments

  /** `JpegParseSegmentsError`. `InvalidSegmentSize` carries the declared
      size first and the expected minimum second. */
  datatype JpegParseSegmentsError =
    | InvalidApp0Identifier
    | InvalidSegmentSize(declared: u16, expected: u16)
    | UnhandledSegment(id0: u8, id1: u8)
    | Nom(input: Bytes, kind: ErrorKind)

  type JResult<O> = IResult<O, JpegParseSegmentsError>

  /** The error type's `ParseError::from_error_kind`. */
  function FromKind(e: InputError): JpegParseSegmentsError
  {
    JpegParseSegmentsError.Nom(e.input, e.code)
  }

  /** `"JFIF\0"`. */
  const JPEG_IDENTIFIER: Bytes := [0x4A, 0x46, 0x49, 0x46, 0x00]
  /** The APP0 fields after the length, without the thumbnail. */
  const JPEG_APP0_SEGMENT_SIZE: nat := 14
  /** The most segments `read_segments` reads. */
  const MAX_SEGMENTS: nat := 32

  datatype DensityUnit = NoUnits | DotsPerInch | DotsPerCm

  datatype App0 = App0(
    fileIdentifierMark: Bytes,
    majorRevisionNumber: u8,
    minorRevisionNumber: u8,
    unitsForDensity: u8,
    xDensity: u16,
    yDensity: u16,
    thumbnailWidth: u8,
    thumbnailHeight: u8)

  /** The code of a density unit in the APP0 segment. */
  function DensityCode(u: DensityUnit): u8
  {
    match u
    case NoUnits => 0
    case DotsPerInch => 1
    case DotsPerCm => 2
  }

  /** `App0::get_density_unit`. */
  function GetDensityUnit(a: App0): (r: W.Result<DensityUnit, string>)
    ensures r.Ok? ==> DensityCode(r.value) == a.unitsForDensity
    ensures r.Err? <==> a.unitsForDensity > 2
    ensures r.Err? ==> r.error == "Unknown density unit"
  {
    match a.unitsForDensity
    case 0 => W.Ok(NoUnits)
    case 1 => W.Ok(DotsPerInch)
    case 2 => W.Ok(DotsPerCm)
    case _ => W.Err("Unknown density unit")
  }

  datatype Frame = Frame(dataPrecision: u8, imageHeight: u16, imageWidth: u16, components: u8)

  /** `JpegSegment`. A comment keeps its raw bytes. */
  datatype JpegSegment =
    | StartOfImage
    | App(app0: App0)
    | StartOfFrame(process: u8, frame: Frame)
    | Com(comment: Bytes)
    | Dqt
    | Dht
    | StartOfScan
    | EndOfImage

  /** `take` with this scanner's error type. */
  function TakeBytes(n: nat, content: Bytes): (r: JResult<Bytes>)
    ensures r.Ok? <==> n <= |content|
    ensures r.Ok? ==> r.value == content[..n] && r.rest == content[n..]
    ensures !r.Ok? ==> r == Err(Error(JpegParseSegmentsError.Nom(content, Eof)))
  {
    Take(n, content).MapErr(FromKind)
  }

  /** `take_segment_id_2`. */
  function TakeSegmentId2(content: Bytes): (r: JResult<Bytes>)
    ensures r.Ok? <==> 2 <= |content|
    ensures r.Ok? ==> r.value == content[..2] && r.rest == content[2..]
    ensures !r.Ok? ==> r == Err(Error(JpegParseSegmentsError.Nom(content, Eof)))
  {
    TakeBytes(2, content)
  }

  /** `take_segment_size`: the big-endian length field. */
  function TakeSegmentSize(content: Bytes): (r: JResult<u16>)
    ensures r.Ok? <==> 2 <= |content|
    ensures r.Ok? ==> r.value == FromBe16(content[0], content[1]) && r.rest == content[2..]
    ensures !r.Ok? ==> r == Err(Error(JpegParseSegmentsError.Nom(content, Eof)))
  {
    BeU16(content).MapErr(FromKind)
  }

  /** `take(segment_size - 2)`: the payload after the length field. The `u16`
      subtraction panics (debug build) when the declared size is below 2. */
  function TakePayload(segmentSize: u16, content: Bytes): (r: JResult<Bytes>)
    ensures segmentSize < 2 <==> r.Panic?
    ensures r.Panic? ==> r.reason == SubtractOverflow
    ensures r.Ok? <==> 2 <= segmentSize && segmentSize - 2 <= |content|
    ensures r.Ok? ==> r.value == content[..segmentSize - 2] && r.rest == content[segmentSize - 2..]
    ensures 2 <= segmentSize && |content| < segmentSize - 2 ==> r == Err(Error(JpegParseSegmentsError.Nom(content, Eof)))
  {
    if segmentSize < 2 then Panic(SubtractOverflow) else TakeBytes(segmentSize - 2, content)
  }

  /** The size of an uncompressed RGB thumbnail, 3 bytes per pixel. */
  function ThumbnailDataSize(width: u8, height: u8): nat
  {
    width * height * 3
  }

  /** The APP0 (JFIF) arm: the declared size must be at least 14, but then a
      fixed 14 bytes are read, the identifier is checked, and the RGB thumbnail
      of `width * height * 3` bytes is skipped. */
  function App0Segment(content: Bytes): (r: JResult<JpegSegment>)
    ensures r.Ok? ==> IsSuffix(r.rest, content) && r.value.App?
    ensures r.Err? ==> r.err.Error? && !r.err.inner.UnhandledSegment?
    ensures !r.Panic?
  {
    var (bytesAfter, segmentSize) :- TakeSegmentSize(content);
    if segmentSize < JPEG_APP0_SEGMENT_SIZE then
      Err(Error(InvalidSegmentSize(segmentSize, JPEG_APP0_SEGMENT_SIZE)))
    else
      var (bytesAfterApp0, c) :- TakeBytes(JPEG_APP0_SEGMENT_SIZE, bytesAfter);
      App0Fields(c, bytesAfterApp0)
  }

  /** The 14 fixed APP0 bytes: the identifier must be `JFIF\0`; the
      thumbnail that follows is skipped. */
  function App0Fields(c: Bytes, bytesAfterApp0: Bytes): (r: JResult<JpegSegment>)
    requires |c| == JPEG_APP0_SEGMENT_SIZE
    ensures r.Ok? ==> IsSuffix(r.rest, bytesAfterApp0) && r.value.App?
    ensures r.Err? ==> r.err.Error? && !r.err.inner.UnhandledSegment?
    ensures !r.Panic?
  {
    var fileIdentifierMark := c[..5];
    if fileIdentifierMark != JPEG_IDENTIFIER then Err(Error(InvalidApp0Identifier))
    else
      var thumbnailWidth := c[12];
      var thumbnailHeight := c[13];
      var thumbnailDataSize := ThumbnailDataSize(thumbnailWidth, thumbnailHeight);
      var app0 := App0(fileIdentifierMark, c[5], c[6], c[7], FromBe16(c[8], c[9]),
                       FromBe16(c[10], c[11]), thumbnailWidth, thumbnailHeight);
      var (bytesAfterThumbnail, _) :- TakeBytes(thumbnailDataSize, bytesAfterApp0);
      Ok(bytesAfterThumbnail, App(app0))
  }

  /** The frame header fields at the start of a SOF payload (section B.2.2). */
  function FrameAt(f: Bytes): Frame
    requires 6 <= |f|
  {
    Frame(f[0], FromBe16(f[1], f[2]), FromBe16(f[3], f[4]), f[5])
  }

  /** The SOF0 arm: the declared size is read and ignored; 8 bytes are taken. */
  function Sof0Segment(content: Bytes): (r: JResult<JpegSegment>)
    ensures r.Ok? ==> IsSuffix(r.rest, content) && r.value.StartOfFrame?
    ensures r.Err? ==> r.err.Error? && !r.err.inner.UnhandledSegment?
    ensures !r.Panic?
  {
    var (bytesAfter, _) :- TakeSegmentSize(content);
    var (bytesAfterFrame0, frame0Content) :- TakeBytes(8, bytesAfter);
    Ok(bytesAfterFrame0, StartOfFrame(0, FrameAt(frame0Content)))
  }

  /** The SOF2 arm: the declared payload is taken; reading the six header
      bytes out of a shorter payload panics. */
  function Sof2Segment(content: Bytes): (r: JResult<JpegSegment>)
    ensures r.Ok? ==> IsSuffix(r.rest, content) && r.value.StartOfFrame?
    ensures r.Err? ==> r.err.Error? && !r.err.inner.UnhandledSegment?
  {
    var (bytesAfter, segmentSize) :- TakeSegmentSize(content);
    var (bytesAfterFrame2, frame2Content) :- TakePayload(segmentSize, bytesAfter);
    if |frame2Content| < 6 then Panic(IndexOutOfBounds)
    else Ok(bytesAfterFrame2, StartOfFrame(2, FrameAt(frame2Content)))
  }

  /** The COM arm: the payload is the comment text. */
  function ComSegment(content: Bytes): (r: JResult<JpegSegment>)
    ensures r.Ok? ==> IsSuffix(r.rest, content) && r.value.Com?
    ensures r.Err? ==> r.err.Error? && !r.err.inner.UnhandledSegment?
  {
    var (bytesAfter, segmentSize) :- TakeSegmentSize(content);
    var (bytesAfterComment, comment) :- TakePayload(segmentSize, bytesAfter);
    Ok(bytesAfterComment, Com(comment))
  }

  /** The DHT and DQT arms: the payload is skipped and `segment` returned. */
  function SkippedSegment(content: Bytes, segment: JpegSegment): (r: JResult<JpegSegment>)
    ensures r.Ok? ==> IsSuffix(r.rest, content) && r.value == segment
    ensures r.Err? ==> r.err.Error? && !r.err.inner.UnhandledSegment?
  {
    var (bytesAfter, segmentSize) :- TakeSegmentSize(content);
    var (bytesAfterTable, _) :- TakePayload(segmentSize, bytesAfter);
    Ok(bytesAfterTable, segment)
  }

  // ---------------------------------------------------------------------
  // Entropy-coded data after SOS (byte stuffing, section B.1.1.5)

  /** At `j` starts a real marker: `FF` followed by a non-zero byte.
      `FF 00` is a stuffed data byte. */
  predicate IsMarkerAt(ba: Bytes, j: int)
  {
    0 <= j && j + 1 < |ba| && ba[j] == 0xFF && ba[j + 1] != 0x00
  }

  function NotFF(b: u8): bool { b != 0xFF }

  /** What the loop after the SOS header computes: skip bytes up to the next
      `FF`; step over `FF 00`; stop in front of any other `FF xx`. */
  function SkipEntropyCoded(ba: Bytes): (r: JResult<()>)
    ensures r.Err? ==> r.err.Error? && !r.err.inner.UnhandledSegment?
    ensures !r.Panic?
    decreases |ba|
  {
    var ba1 := TakeWhile(NotFF, ba).rest;
    if |ba1| < 2 then Err(Error(JpegParseSegmentsError.Nom(ba1, Eof)))
    else if ba1[0] == 0xFF && ba1[1] == 0x00 then SkipEntropyCoded(ba1[2..])
    else Ok(ba1, ())
  }

  /** The scan only moves forward, and stops on an `FF xx` pair other than `FF 00`. */
  lemma {:induction false} SkipEntropyCodedStopsAtMarker(ba: Bytes)
    ensures var r := SkipEntropyCoded(ba);
            r.Ok? ==> IsSuffix(r.rest, ba) && 2 <= |r.rest| && r.rest[0] == 0xFF && r.rest[1] != 0x00
    decreases |ba|
  {
    var ba1 := TakeWhile(NotFF, ba).rest;
    if |ba1| >= 2 && ba1[0] == 0xFF && ba1[1] == 0x00 {
      var ba2 := ba1[2..];
      SkipEntropyCodedStopsAtMarker(ba2);
      var r := SkipEntropyCoded(ba2);
      if r.Ok? {
        assert ba2 == ba[|ba| - |ba2|..];
        SuffixTransitive(r.rest, ba2, ba);
      }
    }
  }

  /** The SOS loop as the scanner runs it, reassigning the remaining input. */
  method ScanEntropyCoded(bytesAfterSosHeader: Bytes) returns (r: JResult<()>)
    ensures r == SkipEntropyCoded(bytesAfterSosHeader)
  {
    var ba := bytesAfterSosHeader;
    while true
      invariant SkipEntropyCoded(ba) == SkipEntropyCoded(bytesAfterSosHeader)
      decreases |ba|
    {
      var ba1 := TakeWhile(NotFF, ba).rest;
      var pair :- TakeBytes(2, ba1);
      var (ba2, br2) := pair;
      if br2[0] == 0xFF && br2[1] == 0x00 {
        // skip byte stuffing
        ba := ba2;
      } else {
        return Ok(ba1, ());
      }
    }
  }

  /** Cutting `d` bytes that hold no marker keeps every marker, shifted. */
  lemma MarkersAfterCut(ba: Bytes, d: nat)
    requires d <= |ba|
    requires forall j :: 0 <= j < d ==> !IsMarkerAt(ba, j)
    ensures (exists j :: IsMarkerAt(ba, j)) <==> (exists j :: IsMarkerAt(ba[d..], j))
    ensures forall p :: IsMarkerAt(ba[d..], p) ==> IsMarkerAt(ba, p + d)
  {
    if exists j :: IsMarkerAt(ba, j) {
      var j :| IsMarkerAt(ba, j);
      assert IsMarkerAt(ba[d..], j - d);
    }
    if exists j :: IsMarkerAt(ba[d..], j) {
      var j :| IsMarkerAt(ba[d..], j);
      assert IsMarkerAt(ba, j + d);
    }
  }

  /** A marker of a suffix is a marker of the whole, shifted by the cut. */
  lemma MarkerInSuffix(ba: Bytes, d: nat, p: nat)
    requires d <= |ba| && IsMarkerAt(ba[d..], p)
    ensures IsMarkerAt(ba, p + d)
  {
    assert ba[d..][p] == ba[p + d] && ba[d..][p + 1] == ba[p + d + 1];
  }

  /** A marker-free prefix of a suffix is marker-free in the whole. */
  lemma NoMarkerInSuffix(ba: Bytes, d: nat, p: nat)
    requires d <= |ba|
    requires forall j :: 0 <= j < p ==> !IsMarkerAt(ba[d..], j)
    ensures forall j :: d <= j < p + d ==> !IsMarkerAt(ba, j)
  {
    forall j | d <= j < p + d ensures !IsMarkerAt(ba, j) {
      assert !IsMarkerAt(ba[d..], j - d);
    }
  }

  /** ... and no marker is added in front of the first one. */
  lemma FirstMarkerAfterCut(ba: Bytes, d: nat, p: nat)
    requires d <= |ba|
    requires forall j :: 0 <= j < d ==> !IsMarkerAt(ba, j)
    requires forall j :: 0 <= j < p ==> !IsMarkerAt(ba[d..], j)
    ensures forall j :: 0 <= j < p + d ==> !IsMarkerAt(ba, j)
  {
    NoMarkerInSuffix(ba, d, p);
  }

  /** Where `take_while(b != FF)` stops: no `FF` before it, an `FF` at it. */
  lemma SkipToFF(ba: Bytes) returns (k: nat)
    ensures k <= |ba| && TakeWhile(NotFF, ba).rest == ba[k..]
    ensures forall j :: 0 <= j < k ==> ba[j] != 0xFF
    ensures k < |ba| ==> ba[k] == 0xFF
  {
    var tw := TakeWhile(NotFF, ba);
    k := |tw.value|;
    assert tw.rest == ba[k..];
    forall j | 0 <= j < k ensures ba[j] != 0xFF { assert ba[j] == tw.value[j]; }
  }

  /** `take_while(b != FF)` stops at the first `FF`. */
  lemma SkipToFirstFF(ba: Bytes, k: nat)
    requires k < |ba| && ba[k] == 0xFF
    requires forall j :: 0 <= j < k ==> ba[j] != 0xFF
    ensures TakeWhile(NotFF, ba).rest == ba[k..]
  {
    var k' := SkipToFF(ba);
  }

  /** One round of the scan over a stuffed `FF 00`. */
  lemma SkipEntropyCodedStuffed(ba: Bytes, k: nat)
    requires k + 1 < |ba| && ba[k] == 0xFF && ba[k + 1] == 0x00
    requires forall j :: 0 <= j < k ==> ba[j] != 0xFF
    ensures SkipEntropyCoded(ba) == SkipEntropyCoded(ba[k + 2..])
  {
    SkipToFirstFF(ba, k);
    assert ba[k..][2..] == ba[k + 2..];
  }

  /** The last round of the scan, in front of a marker. */
  lemma SkipEntropyCodedAtMarker(ba: Bytes, k: nat)
    requires IsMarkerAt(ba, k)
    requires forall j :: 0 <= j < k ==> ba[j] != 0xFF
    ensures SkipEntropyCoded(ba) == Ok(ba[k..], ())
  {
    SkipToFirstFF(ba, k);
  }

  /** The scan stops exactly in front of the first real marker, and fails
      (recoverably) when there is none. */
  lemma {:induction false} SkipEntropyCodedFindsFirstMarker(ba: Bytes)
    ensures SkipEntropyCoded(ba).Ok? <==> exists j :: IsMarkerAt(ba, j)
    ensures SkipEntropyCoded(ba).Ok? ==> IsMarkerAt(ba, |ba| - |SkipEntropyCoded(ba).rest|)
    ensures SkipEntropyCoded(ba).Ok? ==>
              forall j :: 0 <= j < |ba| - |SkipEntropyCoded(ba).rest| ==> !IsMarkerAt(ba, j)
    decreases |ba|
  {
    var k := SkipToFF(ba);
    var ba1 := ba[k..];
    if |ba1| < 2 {
      assert !SkipEntropyCoded(ba).Ok?;
      forall j | 0 <= j < k ensures !IsMarkerAt(ba, j) {
        assert ba[j] != 0xFF;
      }
    } else if ba1[0] == 0xFF && ba1[1] == 0x00 {
      var ba2 := ba[k + 2..];
      assert ba1[2..] == ba2;
      var r := SkipEntropyCoded(ba2);
      assert SkipEntropyCoded(ba) == r;
      SkipEntropyCodedFindsFirstMarker(ba2);
      assert ba[k] == 0xFF && ba[k + 1] == 0x00;
      forall j | 0 <= j < k + 2 ensures !IsMarkerAt(ba, j) {
        if j < k { assert ba[j] != 0xFF; }
      }
      MarkersAfterCut(ba, k + 2);
      if r.Ok? {
        FirstMarkerAfterCut(ba, k + 2, |ba2| - |r.rest|);
      }
    } else {
      assert SkipEntropyCoded(ba) == Ok(ba1, ());
      assert ba[k] == 0xFF && ba[k + 1] != 0x00;
      assert IsMarkerAt(ba, k);
      forall j | 0 <= j < k ensures !IsMarkerAt(ba, j) {
        assert ba[j] != 0xFF;
      }
    }
  }

  /** The SOS arm: the header is skipped by its declared size, then the
      entropy-coded data up to the next real marker. */
  function SosSegment(content: Bytes): (r: JResult<JpegSegment>)
    ensures r.Ok? ==> IsSuffix(r.rest, content) && r.value == StartOfScan
    ensures r.Err? ==> r.err.Error? && !r.err.inner.UnhandledSegment?
  {
    var (bytesAfter, segmentSize) :- TakeSegmentSize(content);
    var (bytesAfterSosHeader, _) :- TakePayload(segmentSize, bytesAfter);
    var scan := SkipEntropyCoded(bytesAfterSosHeader);
    SkipEntropyCodedStopsAtMarker(bytesAfterSosHeader);
    if scan.Ok? then
      SuffixTransitive(bytesAfterSosHeader, bytesAfter, content);
      SuffixTransitive(scan.rest, bytesAfterSosHeader, content);
      Ok(scan.rest, StartOfScan)
    else scan.PropagateFailure()
  }

  // ---------------------------------------------------------------------
  // Dispatch

  /** The marker ids `take_segment_data` understands (Table B.1 codes SOI,
      APP0, SOF0, SOF2, EOI, COM, DHT, DQT, SOS). */
  predicate IsHandledId(id0: u8, id1: u8)
  {
    id0 == 0xFF && id1 in {0xD8, 0xE0, 0xC0, 0xC2, 0xD9, 0xFE, 0xC4, 0xDB, 0xDA}
  }

  /** `take_segment_data`: one decoder per marker id. */
  function TakeSegmentData(id0: u8, id1: u8, content: Bytes): (r: JResult<JpegSegment>)
    ensures r.Ok? ==> IsSuffix(r.rest, content)
    ensures r.Err? ==> r.err.Error?
    ensures r == Err(Error(UnhandledSegment(id0, id1))) <==> !IsHandledId(id0, id1)
  {
    if id0 == 0xFF && id1 == 0xD8 then Ok(content, StartOfImage)
    else if id0 == 0xFF && id1 == 0xE0 then App0Segment(content)
    else if id0 == 0xFF && id1 == 0xC0 then Sof0Segment(content)
    else if id0 == 0xFF && id1 == 0xC2 then Sof2Segment(content)
    else if id0 == 0xFF && id1 == 0xD9 then Ok(content, EndOfImage)
    else if id0 == 0xFF && id1 == 0xFE then ComSegment(content)
    else if id0 == 0xFF && id1 == 0xC4 then SkippedSegment(content, Dht)
    else if id0 == 0xFF && id1 == 0xDB then SkippedSegment(content, Dqt)
    else if id0 == 0xFF && id1 == 0xDA then SosSegment(content)
    else Err(Error(UnhandledSegment(id0, id1)))
  }

  /** `read_segment`: a marker id, then its segment. */
  function ReadSegment(content: Bytes): (r: JResult<JpegSegment>)
    ensures r.Ok? ==> |r.rest| + 2 <= |content| && IsSuffix(r.rest, content)
    ensures r.Err? ==> r.err.Error?
  {
    var (content', segmentId) :- TakeSegmentId2(content);
    TakeSegmentData(segmentId[0], segmentId[1], content')
  }

  lemma ReadSegmentUnfold(content: Bytes)
    requires 2 <= |content|
    ensures ReadSegment(content) == TakeSegmentData(content[0], content[1], content[2..])
  {
  }

  /** What `read_segments` returns: `many_m_n(0, 32, read_segment)`. */
  function ReadSegmentsSpec(content: Bytes): JResult<seq<JpegSegment>>
  {
    ManyMNSpec(0, MAX_SEGMENTS, ReadSegment, FromKind, content)
  }

  lemma ReadSegmentWellBehaved()
    ensures Advances(ReadSegment, 2) && Advances(ReadSegment, 1) && OnlyRecoverable(ReadSegment)
  {
  }

  /** `read_segments`. It never returns an error: it stops at the first
      segment that fails and returns the segments before it, in input order,
      with the input positioned at the failing segment's marker; or it stops
      after 32 segments. Only a panic inside a segment escapes. */
  method ReadSegments(content: Bytes) returns (r: JResult<seq<JpegSegment>>)
    ensures r == ReadSegmentsSpec(content)
    ensures r.Ok? || r.Panic?
    ensures r.Ok? ==> |r.value| <= MAX_SEGMENTS && Chain(ReadSegment, content, r.value, r.rest)
    ensures r.Ok? ==> |r.value| == MAX_SEGMENTS || ReadSegment(r.rest).Err?
    ensures r.Ok? ==> IsSuffix(r.rest, content) && |r.rest| + 2 * |r.value| <= |content|
  {
    r := RunManyMN(0, MAX_SEGMENTS, ReadSegment, FromKind, content);
    ReadSegmentWellBehaved();
    ManyMNZeroOutcome(MAX_SEGMENTS, ReadSegment, FromKind, content);
    if r.Ok? {
      ChainSuffix(ReadSegment, 2, content, r.value, r.rest);
    }
  }

  // ---------------------------------------------------------------------
  // What each marker consumes

  /** SOI and EOI carry no length field; the scanner moves on right after the marker. */
  lemma BareMarkers(content: Bytes)
    ensures ReadSegment([0xFF, 0xD8] + content) == Ok(content, StartOfImage)
    ensures ReadSegment([0xFF, 0xD9] + content) == Ok(content, EndOfImage)
  {
    assert ([0xFF, 0xD8] + content)[2..] == content;
    assert ([0xFF, 0xD9] + content)[2..] == content;
  }

  /** The APP0 arm, case by case: the declared size is only checked against
      14; the identifier, the fields and the thumbnail size come from the
      fixed layout that follows the length field. */
  lemma App0Layout(content: Bytes)
    requires 2 <= |content|
    ensures var d := FromBe16(content[0], content[1]);
            var r := App0Segment(content);
            if d < 14 then r == Err(Error(InvalidSegmentSize(d, 14)))
            else if |content| < 16 then r == Err(Error(JpegParseSegmentsError.Nom(content[2..], Eof)))
            else if content[2..7] != JPEG_IDENTIFIER then r == Err(Error(InvalidApp0Identifier))
            else
              var t := ThumbnailDataSize(content[14], content[15]);
              if |content| < 16 + t then r == Err(Error(JpegParseSegmentsError.Nom(content[16..], Eof)))
              else r == Ok(content[16 + t..],
                           App(App0(content[2..7], content[7], content[8], content[9],
                                    FromBe16(content[10], content[11]), FromBe16(content[12], content[13]),
                                    content[14], content[15])))
  {
    if |content| >= 16 {
      var c := content[2..][..14];
      assert c[..5] == content[2..7];
      assert content[2..][14..] == content[16..];
      var t := ThumbnailDataSize(content[14], content[15]);
      if |content| >= 16 + t {
        assert content[16..][t..] == content[16 + t..];
      }
    }
  }

  /** SOF0 ignores its length field and always reads a 6-byte frame header
      plus two more bytes, 10 bytes in all. */
  lemma Sof0Layout(content: Bytes)
    ensures |content| < 2 ==> Sof0Segment(content) == Err(Error(JpegParseSegmentsError.Nom(content, Eof)))
    ensures 2 <= |content| < 10 ==> Sof0Segment(content) == Err(Error(JpegParseSegmentsError.Nom(content[2..], Eof)))
    ensures 10 <= |content| ==> Sof0Segment(content) == Ok(content[10..], StartOfFrame(0, FrameAt(content[2..10])))
  {
    if 10 <= |content| {
      assert content[2..][..8] == content[2..10];
      assert content[2..][8..] == content[10..];
    }
  }

  /** A length-prefixed segment: a declared size below 2 panics, a size
      beyond the input fails at the payload, otherwise the scanner moves to
      `content[d..]`. */
  lemma ComLayout(content: Bytes)
    requires 2 <= |content|
    ensures var d := FromBe16(content[0], content[1]);
            var r := ComSegment(content);
            if d < 2 then r == Panic(SubtractOverflow)
            else if |content| < d then r == Err(Error(JpegParseSegmentsError.Nom(content[2..], Eof)))
            else r == Ok(content[d..], Com(content[2..d]))
  {
    var d := FromBe16(content[0], content[1]);
    if 2 <= d <= |content| {
      assert content[2..][..d - 2] == content[2..d];
      assert content[2..][d - 2..] == content[d..];
    }
  }

  /** DHT and DQT skip exactly the declared segment. */
  lemma TableLayout(content: Bytes, segment: JpegSegment)
    requires 2 <= |content|
    ensures var d := FromBe16(content[0], content[1]);
            var r := SkippedSegment(content, segment);
            if d < 2 then r == Panic(SubtractOverflow)
            else if |content| < d then r == Err(Error(JpegParseSegmentsError.Nom(content[2..], Eof)))
            else r == Ok(content[d..], segment)
  {
    var d := FromBe16(content[0], content[1]);
    if 2 <= d <= |content| {
      assert content[2..][d - 2..] == content[d..];
    }
  }

  /** SOF2 reads the frame header out of the declared payload, which must
      then hold at least 6 bytes (a declared size of at least 8). */
  lemma Sof2Layout(content: Bytes)
    requires 2 <= |content|
    ensures var d := FromBe16(content[0], content[1]);
            var r := Sof2Segment(content);
            if d < 2 then r == Panic(SubtractOverflow)
            else if |content| < d then r == Err(Error(JpegParseSegmentsError.Nom(content[2..], Eof)))
            else if d < 8 then r == Panic(IndexOutOfBounds)
            else r == Ok(content[d..], StartOfFrame(2, FrameAt(content[2..d])))
  {
    var d := FromBe16(content[0], content[1]);
    if 2 <= d <= |content| {
      assert content[2..][..d - 2] == content[2..d];
      assert content[2..][d - 2..] == content[d..];
    }
  }

  /** Past its header, the SOS arm is the entropy-coded scan. */
  lemma SosSegmentUnfold(content: Bytes, d: nat)
    requires 2 <= d <= |content| && d == FromBe16(content[0], content[1])
    ensures var s := SkipEntropyCoded(content[d..]);
            SosSegment(content) == if s.Ok? then Ok(s.rest, StartOfScan) else s.PropagateFailure()
  {
    assert content[2..][d - 2..] == content[d..];
  }

  /** Past a well-formed header, the SOS arm stops in front of the first
      real marker of the entropy-coded data, and fails without one. */
  lemma SosScan(content: Bytes, d: nat)
    requires 2 <= d <= |content| && d == FromBe16(content[0], content[1])
    ensures var r := SosSegment(content);
            (r.Ok? <==> exists j :: IsMarkerAt(content[d..], j)) &&
            (r.Ok? ==> r.value == StartOfScan && IsMarkerAt(content, |content| - |r.rest|) &&
                       forall j :: d <= j < |content| - |r.rest| ==> !IsMarkerAt(content, j))
  {
    var body := content[d..];
    SosSegmentUnfold(content, d);
    SkipEntropyCodedFindsFirstMarker(body);
    var s := SkipEntropyCoded(body);
    if s.Ok? {
      var q := |body| - |s.rest|;
      MarkerInSuffix(content, d, q);
      NoMarkerInSuffix(content, d, q);
    }
  }

  /** SOS skips its header by the declared size and then scans the
      entropy-coded data; a bad declared size panics or fails first. */
  lemma SosLayout(content: Bytes)
    requires 2 <= |content|
    ensures var d := FromBe16(content[0], content[1]);
            var r := SosSegment(content);
            if d < 2 then r == Panic(SubtractOverflow)
            else if |content| < d then r == Err(Error(JpegParseSegmentsError.Nom(content[2..], Eof)))
            else
              (r.Ok? <==> exists j :: IsMarkerAt(content[d..], j)) &&
              (r.Ok? ==> r.value == StartOfScan && IsMarkerAt(content, |content| - |r.rest|) &&
                         forall j :: d <= j < |content| - |r.rest| ==> !IsMarkerAt(content, j))
  {
    var d := FromBe16(content[0], content[1]);
    if 2 <= d <= |content| {
      SosScan(content, d);
    }
  }

  /** The scan of `x FF 00 y FF D9` steps over the stuffed `FF 00` and
      stops at the EOI marker. */
  lemma ExampleEntropyScan(x: u8, y: u8)
    requires x != 0xFF && y != 0xFF
    ensures SkipEntropyCoded([x, 0xFF, 0x00, y, 0xFF, 0xD9]) == Ok([0xFF, 0xD9], ())
  {
    var data: Bytes := [x, 0xFF, 0x00, y, 0xFF, 0xD9];
    SkipEntropyCodedStuffed(data, 1);
    assert data[3..] == [y, 0xFF, 0xD9];
    SkipEntropyCodedAtMarker(data[3..], 1);
    assert data[3..][1..] == [0xFF, 0xD9];
  }

  /** The SOS marker selects the SOS arm. */
  lemma DispatchSos(content: Bytes)
    ensures TakeSegmentData(0xFF, 0xDA, content) == SosSegment(content)
  {
  }

  /** An SOS segment with an empty header, read up to the EOI marker. */
  lemma ExampleSos(x: u8, y: u8)
    requires x != 0xFF && y != 0xFF
    ensures ReadSegment([0xFF, 0xDA, 0x00, 0x02, x, 0xFF, 0x00, y, 0xFF, 0xD9]) == Ok([0xFF, 0xD9], StartOfScan)
  {
    var sos: Bytes := [0xFF, 0xDA, 0x00, 0x02, x, 0xFF, 0x00, y, 0xFF, 0xD9];
    var c := sos[2..];
    assert c[2..] == [x, 0xFF, 0x00, y, 0xFF, 0xD9];
    assert FromBe16(c[0], c[1]) == 2;
    ExampleEntropyScan(x, y);
    SosSegmentUnfold(c, 2);
    DispatchSos(c);
    ReadSegmentUnfold(sos);
  }

  /** The three segments of the example file, one after the other. */
  lemma ExampleFileSegments(x: u8, y: u8)
    requires x != 0xFF && y != 0xFF
    ensures var f: Bytes := [0xFF, 0xD8, 0xFF, 0xDA, 0x00, 0x02, x, 0xFF, 0x00, y, 0xFF, 0xD9];
            ReadSegment(f) == Ok(f[2..], StartOfImage) &&
            ReadSegment(f[2..]) == Ok([0xFF, 0xD9], StartOfScan) &&
            ReadSegment([0xFF, 0xD9]) == Ok([], EndOfImage) &&
            ReadSegment([]).Err? && ReadSegment([]).err.Error?
  {
    var f: Bytes := [0xFF, 0xD8, 0xFF, 0xDA, 0x00, 0x02, x, 0xFF, 0x00, y, 0xFF, 0xD9];
    var sos := f[2..];
    assert sos == [0xFF, 0xDA, 0x00, 0x02, x, 0xFF, 0x00, y, 0xFF, 0xD9];
    BareMarkers(sos);
    BareMarkers([]);
    assert [0xFF, 0xD8] + sos == f;
    assert [0xFF, 0xD9] + [] == [0xFF, 0xD9];
    ExampleSos(x, y);
  }

  /** A minimal file: SOI, an SOS with an empty header and one stuffed
      `FF 00` in its data, then EOI. */
  lemma ReadSegmentsExample(x: u8, y: u8)
    requires x != 0xFF && y != 0xFF
    ensures ReadSegmentsSpec([0xFF, 0xD8, 0xFF, 0xDA, 0x00, 0x02, x, 0xFF, 0x00, y, 0xFF, 0xD9])
            == Ok([], [StartOfImage, StartOfScan, EndOfImage])
  {
    var f: Bytes := [0xFF, 0xD8, 0xFF, 0xDA, 0x00, 0x02, x, 0xFF, 0x00, y, 0xFF, 0xD9];
    var sos: Bytes := f[2..];
    var eoi: Bytes := [0xFF, 0xD9];
    ExampleFileSegments(x, y);
    ManyMNLoopStep(0, MAX_SEGMENTS, ReadSegment, FromKind, 0, f, []);
    ManyMNLoopStep(0, MAX_SEGMENTS, ReadSegment, FromKind, 1, sos, [StartOfImage]);
    ManyMNLoopStep(0, MAX_SEGMENTS, ReadSegment, FromKind, 2, eoi, [StartOfImage, StartOfScan]);
    ManyMNLoopStop(0, MAX_SEGMENTS, ReadSegment, FromKind, 3, [], [StartOfImage, StartOfScan, EndOfImage]);
    assert [] + [StartOfImage] == [StartOfImage];
    assert [StartOfImage] + [StartOfScan] == [StartOfImage, StartOfScan];
    assert [StartOfImage, StartOfScan] + [EndOfImage] == [StartOfImage, StartOfScan, EndOfImage];
  }
}
