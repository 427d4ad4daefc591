/** The packed (pack(1)) field structs of the embedded-metadata header as a
    declarative table: for every struct, where it starts in the sample and the
    widths of its members in declaration order. Everything else (struct
    widths, member positions, ordering, the minimum sample length) is derived
    from this table and proved, not entered by hand. */
module EbdLayout {
  import opened EbdIndex

  /** A struct member: an unsigned integer of `size` bytes, or a byte array uint8_t[count]. */
  datatype Kind = Int(size: nat) | Array(count: nat)

  function KindSize(k: Kind): nat
  {
    match k
    case Int(n) => n
    case Array(n) => n
  }

  /** The packed structs, named after their C types, listed in offset order. */
  datatype Block =
    | EbdSizeE01 | HeadCrcE05 | PrvInfE13 | ExposureE31 | FramerCountE37
    | FramerIdE41 | CompLevlE49 | LepTempE53 | LepErrE61 | VolE89
    | AnlGainE121 | ImageSizeE189 | DriveModeE197 | SyncModeE201
    | WhiteBalanceE249

  const BlockCount: nat := 15

  /** The members of each struct, in declaration order. */
  function Fields(b: Block): seq<Kind>
  {
    match b
    case EbdSizeE01 => [Int(2)]                                  // size
    case HeadCrcE05 => [Int(4)]                                  // crc
    case PrvInfE13 => [Int(2), Array(2), Int(1), Int(1), Int(2)] // chip_id_e13, undef_e15[2], chip_id_e17, chip_id_e18, chip_id_e19
    case ExposureE31 => [Array(3), Array(3)]                     // sp1[3], sp2[3]
    case FramerCountE37 => [Int(4)]                              // framer_count
    case FramerIdE41 => [Int(2)]                                 // framer_id
    case CompLevlE49 => [Int(2)]                                 // level
    case LepTempE53 => [Int(2), Int(2)]                          // temp1, temp2
    case LepErrE61 => [Int(4), Int(1)]                           // code_e61, code_e66
    case VolE89 => [Int(2), Int(2), Int(2)]                      // vh, vm, vl
    case AnlGainE121 => [Int(2), Int(2), Int(2), Int(2)]         // sp1h_e121, sp1l_e123, sp2h_e125, sp2l_e127
    case ImageSizeE189 => [Int(2), Int(2)]                       // horizontal, vertical
    case DriveModeE197 => [Int(1)]                               // mode
    case SyncModeE201 => [Int(1), Int(1)]                        // method, op_mode
    case WhiteBalanceE249 => [Int(2), Int(2), Int(2), Int(2)]    // cf0, cf1, cf2, cf3
  }

  /** The enumerator that gives each struct's offset. */
  function Index(b: Block): EbdIdx
  {
    match b
    case EbdSizeE01 => EbdSize
    case HeadCrcE05 => HeadCrc
    case PrvInfE13 => IndividualInf
    case ExposureE31 => ExposureSp1
    case FramerCountE37 => FrameCount
    case FramerIdE41 => FrameId
    case CompLevlE49 => CompensationLevel
    case LepTempE53 => TemperatureInf
    case LepErrE61 => ErrCode
    case VolE89 => Vol
    case AnlGainE121 => AnalogGainInf
    case ImageSizeE189 => ImageSize
    case DriveModeE197 => DriveMode
    case SyncModeE201 => SyncMode
    case WhiteBalanceE249 => WhiteBalanceInf
  }

  /** The number NN in the struct's type name, ..._eNN_t. */
  function NameSuffix(b: Block): nat
  {
    match b
    case EbdSizeE01 => 1
    case HeadCrcE05 => 5
    case PrvInfE13 => 13
    case ExposureE31 => 31
    case FramerCountE37 => 37
    case FramerIdE41 => 41
    case CompLevlE49 => 49
    case LepTempE53 => 53
    case LepErrE61 => 61
    case VolE89 => 89
    case AnlGainE121 => 121
    case ImageSizeE189 => 189
    case DriveModeE197 => 197
    case SyncModeE201 => 201
    case WhiteBalanceE249 => 249
  }

  /** The 1-based offset the header's enumeration gives, as written (FRAME_ID = 40). */
  function EnumOffset(b: Block): nat
  {
    Value(Index(b))
  }

  /** The 1-based offset this model uses. Every struct takes its enumerator's
      value except frame_id, which is placed at 41, as its type name
      framer_id_e41_t says: the enumerator's 40 would make it share byte 40
      with frame_count (see EnumFrameIdOverlapsFrameCount). */
  function Offset(b: Block): nat
  {
    if b == FramerIdE41 then 41 else EnumOffset(b)
  }

  /** 0-based index of the struct's first byte in the sample. */
  function Start(b: Block): nat
  {
    Offset(b) - 1
  }

  /** Total byte size of a member list under pack(1): the plain sum, no padding. */
  function SizeOf(ks: seq<Kind>): nat
  {
    if ks == [] then 0 else KindSize(ks[0]) + SizeOf(ks[1..])
  }

  /** sizeof of each struct: under pack(1) the sum of its members' sizes
      (PackedWidths proves it from Fields). */
  function Width(b: Block): nat
  {
    match b
    case EbdSizeE01 => 2
    case HeadCrcE05 => 4
    case PrvInfE13 => 8
    case ExposureE31 => 6
    case FramerCountE37 => 4
    case FramerIdE41 => 2
    case CompLevlE49 => 2
    case LepTempE53 => 4
    case LepErrE61 => 5
    case VolE89 => 6
    case AnlGainE121 => 8
    case ImageSizeE189 => 4
    case DriveModeE197 => 1
    case SyncModeE201 => 2
    case WhiteBalanceE249 => 8
  }

  /** 0-based index one past the struct's last byte. */
  function End(b: Block): nat
  {
    Start(b) + Width(b)
  }

  predicate InBlock(b: Block, k: nat)
  {
    Start(b) <= k < End(b)
  }

  /** 0-based index of member j of struct b in the sample: the struct's start
      plus the sizes of the members declared before it. */
  function FieldPos(b: Block, j: nat): nat
    requires j < |Fields(b)|
  {
    Start(b) + SizeOf(Fields(b)[..j])
  }

  function FieldEnd(b: Block, j: nat): nat
    requires j < |Fields(b)|
  {
    FieldPos(b, j) + KindSize(Fields(b)[j])
  }

  /** The structs that lep_ebd_t aggregates: all but anl_gain_e121_t. */
  predicate InRecord(b: Block)
  {
    b != AnlGainE121
  }

  /** A byte some member of lep_ebd_t occupies. */
  ghost predicate Covered(k: nat)
  {
    exists b :: InRecord(b) && InBlock(b, k)
  }

  /** The structs in offset order. */
  function BlockAt(i: nat): Block
    requires i < BlockCount
  {
    if i == 0 then EbdSizeE01
    else if i == 1 then HeadCrcE05
    else if i == 2 then PrvInfE13
    else if i == 3 then ExposureE31
    else if i == 4 then FramerCountE37
    else if i == 5 then FramerIdE41
    else if i == 6 then CompLevlE49
    else if i == 7 then LepTempE53
    else if i == 8 then LepErrE61
    else if i == 9 then VolE89
    else if i == 10 then AnlGainE121
    else if i == 11 then ImageSizeE189
    else if i == 12 then DriveModeE197
    else if i == 13 then SyncModeE201
    else WhiteBalanceE249
  }

  /** Position of a struct in offset order; BlockAt inverts it. */
  function Rank(b: Block): (i: nat)
    ensures i < BlockCount && BlockAt(i) == b
  {
    match b
    case EbdSizeE01 => 0
    case HeadCrcE05 => 1
    case PrvInfE13 => 2
    case ExposureE31 => 3
    case FramerCountE37 => 4
    case FramerIdE41 => 5
    case CompLevlE49 => 6
    case LepTempE53 => 7
    case LepErrE61 => 8
    case VolE89 => 9
    case AnlGainE121 => 10
    case ImageSizeE189 => 11
    case DriveModeE197 => 12
    case SyncModeE201 => 13
    case WhiteBalanceE249 => 14
  }

  /** Smallest sample length decode accepts: one past the last byte of
      white_balance_e249_t, whose cf3 occupies bytes 255 and 256. */
  const MinLength: nat := 256

  // ---------------------------------------------------------------------
  // Sizes and member positions

  /** Under pack(1) each struct is exactly as wide as the sum of its
      members: no padding anywhere. */
  lemma PackedWidths(b: Block)
    ensures Width(b) == SizeOf(Fields(b))
  {
    SmallStructWidths();
    LargeStructWidths();
  }

  lemma SmallStructWidths()
    ensures SizeOf(Fields(EbdSizeE01)) == 2 && SizeOf(Fields(HeadCrcE05)) == 4
    ensures SizeOf(Fields(FramerCountE37)) == 4 && SizeOf(Fields(FramerIdE41)) == 2
    ensures SizeOf(Fields(CompLevlE49)) == 2 && SizeOf(Fields(DriveModeE197)) == 1
    ensures SizeOf(Fields(LepTempE53)) == 4 && SizeOf(Fields(SyncModeE201)) == 2
    ensures SizeOf(Fields(ImageSizeE189)) == 4 && SizeOf(Fields(LepErrE61)) == 5
    ensures SizeOf(Fields(ExposureE31)) == 6
  {
  }

  lemma LargeStructWidths()
    ensures SizeOf(Fields(PrvInfE13)) == 8 && SizeOf(Fields(VolE89)) == 6
    ensures SizeOf(Fields(AnlGainE121)) == 8 && SizeOf(Fields(WhiteBalanceE249)) == 8
  {
  }

  lemma {:induction false} SizeOfConcat(a: seq<Kind>, b: seq<Kind>)
    ensures SizeOf(a + b) == SizeOf(a) + SizeOf(b)
  {
    if a != [] {
      assert (a + b)[0] == a[0] && (a + b)[1..] == a[1..] + b;
      SizeOfConcat(a[1..], b);
    } else {
      assert a + b == b;
    }
  }

  /** A prefix of a member list is no wider than the whole list, and the next
      member fits after it. */
  lemma PrefixFits(ks: seq<Kind>, j: nat)
    requires j < |ks|
    ensures SizeOf(ks[..j + 1]) == SizeOf(ks[..j]) + KindSize(ks[j])
    ensures SizeOf(ks[..j]) + KindSize(ks[j]) <= SizeOf(ks)
  {
    var pre, one, post := ks[..j], [ks[j]], ks[j + 1..];
    assert one[1..] == [];
    assert ks[..j + 1] == pre + one;
    SizeOfConcat(pre, one);
    assert ks == (pre + one) + post;
    SizeOfConcat(pre + one, post);
  }

  /** Every member lies inside its struct's byte range. */
  lemma FieldWithinBlock(b: Block, j: nat)
    requires j < |Fields(b)|
    ensures Start(b) <= FieldPos(b, j) && FieldEnd(b, j) <= End(b)
  {
    PackedWidths(b);
    PrefixFits(Fields(b), j);
  }

  /** Consecutive members are adjacent: no padding inside a struct. */
  lemma FieldsAdjacent(b: Block, j: nat)
    requires j + 1 < |Fields(b)|
    ensures FieldEnd(b, j) == FieldPos(b, j + 1)
  {
    PrefixFits(Fields(b), j);
  }

  /** The eNN annotations of prv_inf_e13_t's members agree with their packed
      positions (1-based): e13, e15, e17, e18, e19, ending at e20. */
  lemma PrvInfAnnotations()
    ensures FieldPos(PrvInfE13, 0) + 1 == 13 && FieldPos(PrvInfE13, 1) + 1 == 15
    ensures FieldPos(PrvInfE13, 2) + 1 == 17 && FieldPos(PrvInfE13, 3) + 1 == 18
    ensures FieldPos(PrvInfE13, 4) + 1 == 19 && FieldEnd(PrvInfE13, 4) == 20
  {
    assert Fields(PrvInfE13)[..1] == [Int(2)];
    assert Fields(PrvInfE13)[..2] == [Int(2), Array(2)];
    assert Fields(PrvInfE13)[..3] == [Int(2), Array(2), Int(1)];
    assert Fields(PrvInfE13)[..4] == [Int(2), Array(2), Int(1), Int(1)];
  }

  /** exposure_e31_t: sp1 occupies bytes 31-33 and sp2 starts at 34, the
      value of the commented-out enumerator EXPOSURE_SP2. */
  lemma ExposureAnnotations()
    ensures FieldPos(ExposureE31, 0) + 1 == 31 && FieldEnd(ExposureE31, 0) == 33
    ensures FieldPos(ExposureE31, 1) + 1 == ExposureSp2Value
  {
    assert Fields(ExposureE31)[..1] == [Array(3)];
  }

  /** anl_gain_e121_t: members at e121, e123, e125, e127. */
  lemma AnlGainAnnotations()
    ensures FieldPos(AnlGainE121, 0) + 1 == 121 && FieldPos(AnlGainE121, 1) + 1 == 123
    ensures FieldPos(AnlGainE121, 2) + 1 == 125 && FieldPos(AnlGainE121, 3) + 1 == 127
  {
    assert Fields(AnlGainE121)[..1] == [Int(2)];
    assert Fields(AnlGainE121)[..2] == [Int(2), Int(2)];
    assert Fields(AnlGainE121)[..3] == [Int(2), Int(2), Int(2)];
  }

  /** white_balance_e249_t: members at e249, e251, e253, e255; cf3 ends at byte 256. */
  lemma WhiteBalanceAnnotations()
    ensures FieldPos(WhiteBalanceE249, 0) + 1 == 249 && FieldPos(WhiteBalanceE249, 1) + 1 == 251
    ensures FieldPos(WhiteBalanceE249, 2) + 1 == 253 && FieldPos(WhiteBalanceE249, 3) + 1 == 255
    ensures FieldEnd(WhiteBalanceE249, 3) == 256
  {
    assert Fields(WhiteBalanceE249)[..1] == [Int(2)];
    assert Fields(WhiteBalanceE249)[..2] == [Int(2), Int(2)];
    assert Fields(WhiteBalanceE249)[..3] == [Int(2), Int(2), Int(2)];
  }

  /** lep_err_e61_t: code_e61 starts at byte 61, and pack(1) puts code_e66
      right after the four-byte code_e61, at byte 65, not at the byte 66 its
      name says. This model follows the packed struct. */
  lemma LepErrAnnotations()
    ensures FieldPos(LepErrE61, 0) + 1 == 61 && FieldPos(LepErrE61, 1) + 1 == 65
    ensures FieldPos(LepErrE61, 1) + 1 != 66
  {
    assert Fields(LepErrE61)[..1] == [Int(4)];
  }

  // ---------------------------------------------------------------------
  // Offsets

  /** Each struct's type-name suffix is its offset; the enumeration agrees
      with the type names everywhere except FRAME_ID. */
  lemma OffsetsMatchNames(b: Block)
    ensures Offset(b) == NameSuffix(b)
    ensures EnumOffset(b) == NameSuffix(b) <==> b != FramerIdE41
  {
  }

  /** As written, FRAME_ID = 40 puts frame_id's first byte on frame_count's
      last byte (byte 40). */
  lemma EnumFrameIdOverlapsFrameCount()
    ensures EnumOffset(FramerIdE41) == 40
    ensures Start(FramerCountE37) <= EnumOffset(FramerIdE41) - 1 < End(FramerCountE37)
  {
  }

  /** Neighbours in offset order do not overlap. */
  lemma AdjacentBlocksOrdered(i: nat)
    requires i + 1 < BlockCount
    ensures End(BlockAt(i)) <= Start(BlockAt(i + 1))
  {
  }

  /** Every struct occupies at least one byte. */
  lemma WidthPositive(b: Block)
    ensures Start(b) < End(b)
  {
  }

  /** In offset order, each struct ends before the next one begins. */
  lemma {:induction false} BlocksOrdered(i: nat, j: nat)
    requires i < j < BlockCount
    ensures End(BlockAt(i)) <= Start(BlockAt(j))
    decreases j - i
  {
    if j == i + 1 {
      AdjacentBlocksOrdered(i);
    } else {
      var mid := BlockAt(j - 1);
      BlocksOrdered(i, j - 1);
      WidthPositive(mid);
      AdjacentBlocksOrdered(j - 1);
    }
  }

  /** The offsets strictly increase in offset order. */
  lemma OffsetsIncrease(i: nat, j: nat)
    requires i < j < BlockCount
    ensures Offset(BlockAt(i)) < Offset(BlockAt(j))
  {
    BlocksOrdered(i, j);
    WidthPositive(BlockAt(i));
  }

  /** Two distinct structs occupy disjoint byte ranges. */
  lemma BlocksDisjoint(b1: Block, b2: Block)
    requires b1 != b2
    ensures End(b1) <= Start(b2) || End(b2) <= Start(b1)
    ensures !exists k :: InBlock(b1, k) && InBlock(b2, k)
  {
    if Rank(b1) < Rank(b2) {
      BlocksOrdered(Rank(b1), Rank(b2));
    } else {
      BlocksOrdered(Rank(b2), Rank(b1));
    }
  }

  /** MinLength is exactly the largest end of a lep_ebd_t member. */
  lemma RecordSpan()
    ensures forall b :: InRecord(b) ==> End(b) <= MinLength
    ensures End(WhiteBalanceE249) == MinLength
  {
    forall b | InRecord(b) ensures End(b) <= MinLength {
      if b != WhiteBalanceE249 {
        BlocksOrdered(Rank(b), Rank(WhiteBalanceE249));
      }
    }
  }

  /** The packed lep_ebd_t is 58 bytes, far fewer than the 256 its members
      span in the sample, so it cannot be filled by one contiguous copy. */
  lemma PackedRecordSize()
    ensures Width(EbdSizeE01) + Width(HeadCrcE05) + Width(PrvInfE13) + Width(ExposureE31)
          + Width(FramerCountE37) + Width(FramerIdE41) + Width(CompLevlE49) + Width(LepTempE53)
          + Width(LepErrE61) + Width(VolE89) + Width(ImageSizeE189) + Width(DriveModeE197)
          + Width(SyncModeE201) + Width(WhiteBalanceE249) == 58
    ensures 58 < End(WhiteBalanceE249) - Start(EbdSizeE01)
  {
  }

  /** The regions the enumeration names but lep_ebd_t leaves out -- HOST_SELECT
      (bytes 21-30), FRAM_MASK (43-48) and the analog-gain block (121-128) --
      are occupied by no member of the record. */
  lemma GapsUncovered()
    ensures forall k :: Value(HostSelect) - 1 <= k < Value(ExposureSp1) - 1 ==> !Covered(k)
    ensures forall k :: Value(FramMask) - 1 <= k < Value(CompensationLevel) - 1 ==> !Covered(k)
    ensures forall k :: Start(AnlGainE121) <= k < End(AnlGainE121) ==> !Covered(k)
  {
    forall k: nat, b | InRecord(b) && InBlock(b, k)
      ensures !(Value(HostSelect) - 1 <= k < Value(ExposureSp1) - 1)
      ensures !(Value(FramMask) - 1 <= k < Value(CompensationLevel) - 1)
      ensures !InBlock(AnlGainE121, k)
    {
      BlocksDisjoint(b, AnlGainE121);
    }
  }
}
