/** Properties that relate decoding to encoding, and what decoding depends on. */
module EbdRoundTrip {
  import opened Bytes
  import opened EbdLayout
  import opened EbdDecode
  import opened EbdEncode

  lemma LE16RoundTrip(v: u16)
    ensures FromLE(LE16(v)) == v
  {
    Pow256Values();
    FromToLE(v, 2);
  }

  lemma LE32RoundTrip(v: u32)
    ensures FromLE(LE32(v)) == v
  {
    Pow256Values();
    FromToLE(v, 4);
  }

  lemma ByteRoundTrip(x: byte)
    ensures FromLE([x]) == x
  {
    assert [x][1..] == [];
  }

  // ---------------------------------------------------------------------
  // Round trip, struct by struct

  /** Every member of struct b reads back, from an encoded record, as its
      little-endian bytes. */
  lemma MembersEncoded(r: LepEbd, n: nat, b: Block)
    requires InRecord(b) && End(b) <= n
    ensures forall j :: 0 <= j < |Fields(b)| ==> Extract(Encode(r, n), b, j) == MemberBytes(r, b)[j]
  {
    forall j | 0 <= j < |Fields(b)| ensures Extract(Encode(r, n), b, j) == MemberBytes(r, b)[j] {
      EncodedMember(r, n, b, j);
    }
  }

  lemma SizeRoundTrip(r: LepEbd, n: nat)
    requires n >= MinLength
    ensures DecodeSize(Encode(r, n)) == r.size
  {
    RecordSpan();
    MembersEncoded(r, n, EbdSizeE01);
    LE16RoundTrip(r.size);
  }

  lemma HeadCrcRoundTrip(r: LepEbd, n: nat)
    requires n >= MinLength
    ensures DecodeHeadCrc(Encode(r, n)) == r.headCrc
  {
    RecordSpan();
    MembersEncoded(r, n, HeadCrcE05);
    LE32RoundTrip(r.headCrc);
  }

  lemma PrvInfRoundTrip(r: LepEbd, n: nat)
    requires n >= MinLength
    ensures DecodePrvInf(Encode(r, n)) == r.indivInf
  {
    RecordSpan();
    MembersEncoded(r, n, PrvInfE13);
    LE16RoundTrip(r.indivInf.chipIdE13);
    ByteRoundTrip(r.indivInf.chipIdE17);
    ByteRoundTrip(r.indivInf.chipIdE18);
    LE16RoundTrip(r.indivInf.chipIdE19);
  }

  lemma ExposureRoundTrip(r: LepEbd, n: nat)
    requires n >= MinLength
    ensures DecodeExposure(Encode(r, n)) == r.exposure
  {
    RecordSpan();
    MembersEncoded(r, n, ExposureE31);
  }

  lemma FrameCountRoundTrip(r: LepEbd, n: nat)
    requires n >= MinLength
    ensures DecodeFrameCount(Encode(r, n)) == r.frameCount
  {
    RecordSpan();
    MembersEncoded(r, n, FramerCountE37);
    LE32RoundTrip(r.frameCount);
  }

  lemma FrameIdRoundTrip(r: LepEbd, n: nat)
    requires n >= MinLength
    ensures DecodeFrameId(Encode(r, n)) == r.frameId
  {
    RecordSpan();
    MembersEncoded(r, n, FramerIdE41);
    LE16RoundTrip(r.frameId);
  }

  lemma CompensationRoundTrip(r: LepEbd, n: nat)
    requires n >= MinLength
    ensures DecodeCompensation(Encode(r, n)) == r.compensation
  {
    RecordSpan();
    MembersEncoded(r, n, CompLevlE49);
    LE16RoundTrip(r.compensation);
  }

  lemma LepTempRoundTrip(r: LepEbd, n: nat)
    requires n >= MinLength
    ensures DecodeLepTemp(Encode(r, n)) == r.temper
  {
    RecordSpan();
    MembersEncoded(r, n, LepTempE53);
    LE16RoundTrip(r.temper.temp1);
    LE16RoundTrip(r.temper.temp2);
  }

  lemma LepErrRoundTrip(r: LepEbd, n: nat)
    requires n >= MinLength
    ensures DecodeLepErr(Encode(r, n)) == r.errCode
  {
    RecordSpan();
    MembersEncoded(r, n, LepErrE61);
    LE32RoundTrip(r.errCode.codeE61);
    ByteRoundTrip(r.errCode.codeE66);
  }

  lemma VolRoundTrip(r: LepEbd, n: nat)
    requires n >= MinLength
    ensures DecodeVol(Encode(r, n)) == r.vol
  {
    RecordSpan();
    MembersEncoded(r, n, VolE89);
    LE16RoundTrip(r.vol.vh);
    LE16RoundTrip(r.vol.vm);
    LE16RoundTrip(r.vol.vl);
  }

  lemma ImageSizeRoundTrip(r: LepEbd, n: nat)
    requires n >= MinLength
    ensures DecodeImageSize(Encode(r, n)) == r.imgSize
  {
    RecordSpan();
    MembersEncoded(r, n, ImageSizeE189);
    LE16RoundTrip(r.imgSize.horizontal);
    LE16RoundTrip(r.imgSize.vertical);
  }

  lemma DriveModeRoundTrip(r: LepEbd, n: nat)
    requires n >= MinLength
    ensures DecodeDriveMode(Encode(r, n)) == r.driveMode
  {
    RecordSpan();
    MembersEncoded(r, n, DriveModeE197);
    ByteRoundTrip(r.driveMode);
  }

  lemma SyncModeRoundTrip(r: LepEbd, n: nat)
    requires n >= MinLength
    ensures DecodeSyncMode(Encode(r, n)) == r.syncMode
  {
    RecordSpan();
    MembersEncoded(r, n, SyncModeE201);
    ByteRoundTrip(r.syncMode.syncMethod);
    ByteRoundTrip(r.syncMode.opMode);
  }

  lemma WhiteBalanceRoundTrip(r: LepEbd, n: nat)
    requires n >= MinLength
    ensures DecodeWhiteBalance(Encode(r, n)) == r.whiteBalance
  {
    RecordSpan();
    MembersEncoded(r, n, WhiteBalanceE249);
    LE16RoundTrip(r.whiteBalance.cf0);
    LE16RoundTrip(r.whiteBalance.cf1);
    LE16RoundTrip(r.whiteBalance.cf2);
    LE16RoundTrip(r.whiteBalance.cf3);
  }

  /** Round trip: decoding a zero-filled sample into which r was written
      returns exactly r. */
  lemma RoundTrip(r: LepEbd, n: nat)
    requires n >= MinLength
    ensures Decode(Encode(r, n)) == Ok(r)
  {
    SizeRoundTrip(r, n);
    HeadCrcRoundTrip(r, n);
    PrvInfRoundTrip(r, n);
    ExposureRoundTrip(r, n);
    FrameCountRoundTrip(r, n);
    FrameIdRoundTrip(r, n);
    CompensationRoundTrip(r, n);
    LepTempRoundTrip(r, n);
    LepErrRoundTrip(r, n);
    VolRoundTrip(r, n);
    ImageSizeRoundTrip(r, n);
    DriveModeRoundTrip(r, n);
    SyncModeRoundTrip(r, n);
    WhiteBalanceRoundTrip(r, n);
  }

  // ---------------------------------------------------------------------
  // Decoding reads only the members' bytes

  /** Two samples that agree on the bytes of struct b read the same bytes
      for each of its members. */
  lemma BlockAgree(s: seq<byte>, t: seq<byte>, b: Block)
    requires InRecord(b) && |s| >= MinLength && |t| >= MinLength
    requires forall k :: 0 <= k < MinLength && Covered(k) ==> s[k] == t[k]
    ensures End(b) <= MinLength
    ensures forall j :: 0 <= j < |Fields(b)| ==> Extract(s, b, j) == Extract(t, b, j)
  {
    RecordSpan();
    forall k | Start(b) <= k < End(b) ensures s[k] == t[k] {
      assert InBlock(b, k);
    }
    forall j | 0 <= j < |Fields(b)| ensures Extract(s, b, j) == Extract(t, b, j) {
      FieldWithinBlock(b, j);
    }
  }

  lemma SizeAgree(s: seq<byte>, t: seq<byte>)
    requires |s| >= MinLength && |t| >= MinLength
    requires forall k :: 0 <= k < MinLength && Covered(k) ==> s[k] == t[k]
    ensures DecodeSize(s) == DecodeSize(t)
  {
    BlockAgree(s, t, EbdSizeE01);
  }

  lemma HeadCrcAgree(s: seq<byte>, t: seq<byte>)
    requires |s| >= MinLength && |t| >= MinLength
    requires forall k :: 0 <= k < MinLength && Covered(k) ==> s[k] == t[k]
    ensures DecodeHeadCrc(s) == DecodeHeadCrc(t)
  {
    BlockAgree(s, t, HeadCrcE05);
  }

  lemma PrvInfAgree(s: seq<byte>, t: seq<byte>)
    requires |s| >= MinLength && |t| >= MinLength
    requires forall k :: 0 <= k < MinLength && Covered(k) ==> s[k] == t[k]
    ensures DecodePrvInf(s) == DecodePrvInf(t)
  {
    BlockAgree(s, t, PrvInfE13);
  }

  lemma ExposureAgree(s: seq<byte>, t: seq<byte>)
    requires |s| >= MinLength && |t| >= MinLength
    requires forall k :: 0 <= k < MinLength && Covered(k) ==> s[k] == t[k]
    ensures DecodeExposure(s) == DecodeExposure(t)
  {
    BlockAgree(s, t, ExposureE31);
  }

  lemma FrameCountAgree(s: seq<byte>, t: seq<byte>)
    requires |s| >= MinLength && |t| >= MinLength
    requires forall k :: 0 <= k < MinLength && Covered(k) ==> s[k] == t[k]
    ensures DecodeFrameCount(s) == DecodeFrameCount(t)
  {
    BlockAgree(s, t, FramerCountE37);
  }

  lemma FrameIdAgree(s: seq<byte>, t: seq<byte>)
    requires |s| >= MinLength && |t| >= MinLength
    requires forall k :: 0 <= k < MinLength && Covered(k) ==> s[k] == t[k]
    ensures DecodeFrameId(s) == DecodeFrameId(t)
  {
    BlockAgree(s, t, FramerIdE41);
  }

  lemma CompensationAgree(s: seq<byte>, t: seq<byte>)
    requires |s| >= MinLength && |t| >= MinLength
    requires forall k :: 0 <= k < MinLength && Covered(k) ==> s[k] == t[k]
    ensures DecodeCompensation(s) == DecodeCompensation(t)
  {
    BlockAgree(s, t, CompLevlE49);
  }

  lemma LepTempAgree(s: seq<byte>, t: seq<byte>)
    requires |s| >= MinLength && |t| >= MinLength
    requires forall k :: 0 <= k < MinLength && Covered(k) ==> s[k] == t[k]
    ensures DecodeLepTemp(s) == DecodeLepTemp(t)
  {
    BlockAgree(s, t, LepTempE53);
  }

  lemma LepErrAgree(s: seq<byte>, t: seq<byte>)
    requires |s| >= MinLength && |t| >= MinLength
    requires forall k :: 0 <= k < MinLength && Covered(k) ==> s[k] == t[k]
    ensures DecodeLepErr(s) == DecodeLepErr(t)
  {
    BlockAgree(s, t, LepErrE61);
  }

  lemma VolAgree(s: seq<byte>, t: seq<byte>)
    requires |s| >= MinLength && |t| >= MinLength
    requires forall k :: 0 <= k < MinLength && Covered(k) ==> s[k] == t[k]
    ensures DecodeVol(s) == DecodeVol(t)
  {
    BlockAgree(s, t, VolE89);
  }

  lemma ImageSizeAgree(s: seq<byte>, t: seq<byte>)
    requires |s| >= MinLength && |t| >= MinLength
    requires forall k :: 0 <= k < MinLength && Covered(k) ==> s[k] == t[k]
    ensures DecodeImageSize(s) == DecodeImageSize(t)
  {
    BlockAgree(s, t, ImageSizeE189);
  }

  lemma DriveModeAgree(s: seq<byte>, t: seq<byte>)
    requires |s| >= MinLength && |t| >= MinLength
    requires forall k :: 0 <= k < MinLength && Covered(k) ==> s[k] == t[k]
    ensures DecodeDriveMode(s) == DecodeDriveMode(t)
  {
    BlockAgree(s, t, DriveModeE197);
  }

  lemma SyncModeAgree(s: seq<byte>, t: seq<byte>)
    requires |s| >= MinLength && |t| >= MinLength
    requires forall k :: 0 <= k < MinLength && Covered(k) ==> s[k] == t[k]
    ensures DecodeSyncMode(s) == DecodeSyncMode(t)
  {
    BlockAgree(s, t, SyncModeE201);
  }

  lemma WhiteBalanceAgree(s: seq<byte>, t: seq<byte>)
    requires |s| >= MinLength && |t| >= MinLength
    requires forall k :: 0 <= k < MinLength && Covered(k) ==> s[k] == t[k]
    ensures DecodeWhiteBalance(s) == DecodeWhiteBalance(t)
  {
    BlockAgree(s, t, WhiteBalanceE249);
  }

  /** Decode reads only bytes that some member occupies: two long-enough
      samples that agree on those bytes decode to the same record, whatever
      they hold elsewhere (HOST_SELECT, FRAM_MASK, the analog gain block, or
      anything past byte 256). */
  lemma OnlyMemberBytesMatter(s: seq<byte>, t: seq<byte>)
    requires |s| >= MinLength && |t| >= MinLength
    requires forall k :: 0 <= k < MinLength && Covered(k) ==> s[k] == t[k]
    ensures Decode(s) == Decode(t)
  {
    SizeAgree(s, t);
    HeadCrcAgree(s, t);
    PrvInfAgree(s, t);
    ExposureAgree(s, t);
    FrameCountAgree(s, t);
    FrameIdAgree(s, t);
    CompensationAgree(s, t);
    LepTempAgree(s, t);
    LepErrAgree(s, t);
    VolAgree(s, t);
    ImageSizeAgree(s, t);
    DriveModeAgree(s, t);
    SyncModeAgree(s, t);
    WhiteBalanceAgree(s, t);
  }

  /** A frame_id field holding 0x002A (bytes 0x2A, 0x00 at offset 41) and a
      temp1 field holding 0x0230 (bytes 0x30, 0x02 at offset 53) decode to
      frame id 42 and raw temperature 0x230. */
  lemma DecodeScenario(s: seq<byte>)
    requires |s| >= MinLength
    requires s[40] == 0x2A && s[41] == 0x00 && s[52] == 0x30 && s[53] == 0x02
    ensures Decode(s).Ok?
    ensures Decode(s).value.frameId == 42 && Decode(s).value.temper.temp1 == 0x230
  {
    RecordSpan();
    assert Fields(FramerIdE41)[..0] == [] && Fields(LepTempE53)[..0] == [];
    assert Extract(s, FramerIdE41, 0) == [0x2A, 0x00];
    assert Extract(s, LepTempE53, 0) == [0x30, 0x02];
    TwoBytes(0x2A, 0x00);
    TwoBytes(0x30, 0x02);
  }

  lemma TwoBytes(lo: byte, hi: byte)
    ensures FromLE([lo, hi]) == lo + 256 * hi
  {
    assert [lo, hi][1..] == [hi];
    ByteRoundTrip(hi);
  }

}
