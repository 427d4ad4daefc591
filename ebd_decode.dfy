/** The lep_ebd_t record and the table-driven decoder that fills it from a
    metadata sample (the encoder is in EbdEncode). Every member is read by one generic routine
    (Extract) at the position the layout table gives, little-endian. */
module EbdDecode {
  import opened Bytes
  import opened EbdLayout

  type Bytes2 = s: seq<byte> | |s| == 2 witness [0, 0]
  type Bytes3 = s: seq<byte> | |s| == 3 witness [0, 0, 0]

  /** prv_inf_e13_t */
  datatype PrvInf = PrvInf(chipIdE13: u16, undefE15: Bytes2, chipIdE17: u8, chipIdE18: u8, chipIdE19: u16)
  /** exposure_e31_t */
  datatype Exposure = Exposure(sp1: Bytes3, sp2: Bytes3)
  /** lep_temp_e53_t */
  datatype LepTemp = LepTemp(temp1: u16, temp2: u16)
  /** lep_err_e61_t */
  datatype LepErr = LepErr(codeE61: u32, codeE66: u8)
  /** vol_e89_t */
  datatype Vol = Vol(vh: u16, vm: u16, vl: u16)
  /** image_size_e189_t */
  datatype ImageSize = ImageSize(horizontal: u16, vertical: u16)
  /** sync_mode_e201_t (its member `method` is called syncMethod here) */
  datatype SyncMode = SyncMode(syncMethod: u8, opMode: u8)
  /** white_balance_e249_t */
  datatype WhiteBalance = WhiteBalance(cf0: u16, cf1: u16, cf2: u16, cf3: u16)

  /** lep_ebd_t. The one-member structs (ebd_size_e01_t, head_crc_e05_t,
      framer_count_e37_t, framer_id_e41_t, comp_levl_e49_t, drive_mode_e197_t)
      are represented by their single member. */
  datatype LepEbd = LepEbd(
    size: u16,
    headCrc: u32,
    indivInf: PrvInf,
    exposure: Exposure,
    frameCount: u32,
    frameId: u16,
    compensation: u16,
    temper: LepTemp,
    errCode: LepErr,
    vol: Vol,
    imgSize: ImageSize,
    driveMode: u8,
    syncMode: SyncMode,
    whiteBalance: WhiteBalance)

  datatype DecodeError = Truncated(length: nat)

  datatype Result<T> = Ok(value: T) | Err(error: DecodeError)

  datatype Option<T> = None | Some(value: T)

  // ---------------------------------------------------------------------
  // Decoding

  /** The bytes of member j of struct b. */
  function Extract(s: seq<byte>, b: Block, j: nat): (f: seq<byte>)
    requires j < |Fields(b)| && End(b) <= |s|
    ensures |f| == KindSize(Fields(b)[j])
  {
    FieldWithinBlock(b, j);
    s[FieldPos(b, j)..FieldEnd(b, j)]
  }

  /** A uint8_t, uint16_t or uint32_t member: the little-endian value of its
      bytes, which fits the member's type by FromLE's bound. */
  function U8(s: seq<byte>, b: Block, j: nat): u8
    requires j < |Fields(b)| && End(b) <= |s| && Fields(b)[j] == Int(1)
  {
    Pow256Values();
    FromLE(Extract(s, b, j))
  }

  function U16(s: seq<byte>, b: Block, j: nat): u16
    requires j < |Fields(b)| && End(b) <= |s| && Fields(b)[j] == Int(2)
  {
    Pow256Values();
    FromLE(Extract(s, b, j))
  }

  function U32(s: seq<byte>, b: Block, j: nat): u32
    requires j < |Fields(b)| && End(b) <= |s| && Fields(b)[j] == Int(4)
  {
    Pow256Values();
    FromLE(Extract(s, b, j))
  }

  // One decoder per struct, each reading its members through the generic routines.

  function DecodePrvInf(s: seq<byte>): PrvInf
    requires |s| >= MinLength
  {
    RecordSpan();
    PrvInf(U16(s, PrvInfE13, 0), Extract(s, PrvInfE13, 1), U8(s, PrvInfE13, 2),
           U8(s, PrvInfE13, 3), U16(s, PrvInfE13, 4))
  }

  function DecodeExposure(s: seq<byte>): Exposure
    requires |s| >= MinLength
  {
    RecordSpan();
    Exposure(Extract(s, ExposureE31, 0), Extract(s, ExposureE31, 1))
  }

  function DecodeLepTemp(s: seq<byte>): LepTemp
    requires |s| >= MinLength
  {
    RecordSpan();
    LepTemp(U16(s, LepTempE53, 0), U16(s, LepTempE53, 1))
  }

  function DecodeLepErr(s: seq<byte>): LepErr
    requires |s| >= MinLength
  {
    RecordSpan();
    LepErr(U32(s, LepErrE61, 0), U8(s, LepErrE61, 1))
  }

  function DecodeVol(s: seq<byte>): Vol
    requires |s| >= MinLength
  {
    RecordSpan();
    Vol(U16(s, VolE89, 0), U16(s, VolE89, 1), U16(s, VolE89, 2))
  }

  function DecodeImageSize(s: seq<byte>): ImageSize
    requires |s| >= MinLength
  {
    RecordSpan();
    ImageSize(U16(s, ImageSizeE189, 0), U16(s, ImageSizeE189, 1))
  }

  function DecodeSyncMode(s: seq<byte>): SyncMode
    requires |s| >= MinLength
  {
    RecordSpan();
    SyncMode(U8(s, SyncModeE201, 0), U8(s, SyncModeE201, 1))
  }

  function DecodeWhiteBalance(s: seq<byte>): WhiteBalance
    requires |s| >= MinLength
  {
    RecordSpan();
    WhiteBalance(U16(s, WhiteBalanceE249, 0), U16(s, WhiteBalanceE249, 1),
                 U16(s, WhiteBalanceE249, 2), U16(s, WhiteBalanceE249, 3))
  }

  function DecodeSize(s: seq<byte>): u16
    requires |s| >= MinLength
  {
    RecordSpan();
    U16(s, EbdSizeE01, 0)
  }

  function DecodeHeadCrc(s: seq<byte>): u32
    requires |s| >= MinLength
  {
    RecordSpan();
    U32(s, HeadCrcE05, 0)
  }

  function DecodeFrameCount(s: seq<byte>): u32
    requires |s| >= MinLength
  {
    RecordSpan();
    U32(s, FramerCountE37, 0)
  }

  function DecodeFrameId(s: seq<byte>): u16
    requires |s| >= MinLength
  {
    RecordSpan();
    U16(s, FramerIdE41, 0)
  }

  function DecodeCompensation(s: seq<byte>): u16
    requires |s| >= MinLength
  {
    RecordSpan();
    U16(s, CompLevlE49, 0)
  }

  function DecodeDriveMode(s: seq<byte>): u8
    requires |s| >= MinLength
  {
    RecordSpan();
    U8(s, DriveModeE197, 0)
  }

  /** Decodes a metadata sample. A sample too short to hold every member is
      rejected with its length; otherwise every member is read. */
  function Decode(s: seq<byte>): (r: Result<LepEbd>)
    ensures r.Err? <==> |s| < MinLength
    ensures r.Err? ==> r.error == Truncated(|s|)
  {
    if |s| < MinLength then Err(Truncated(|s|))
    else
      Ok(LepEbd(
        size := DecodeSize(s),
        headCrc := DecodeHeadCrc(s),
        indivInf := DecodePrvInf(s),
        exposure := DecodeExposure(s),
        frameCount := DecodeFrameCount(s),
        frameId := DecodeFrameId(s),
        compensation := DecodeCompensation(s),
        temper := DecodeLepTemp(s),
        errCode := DecodeLepErr(s),
        vol := DecodeVol(s),
        imgSize := DecodeImageSize(s),
        driveMode := DecodeDriveMode(s),
        syncMode := DecodeSyncMode(s),
        whiteBalance := DecodeWhiteBalance(s)))
  }
}
