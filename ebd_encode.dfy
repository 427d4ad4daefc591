/** Writing a record: every lep_ebd_t member stored little-endian at its
    offset into a zero-filled sample. This is the inverse that the decoder's
    round trip is stated against. */
module EbdEncode {
  import opened Bytes
  import opened EbdLayout
  import opened EbdDecode

  function LE16(v: u16): seq<byte>
  {
    Pow256Values();
    ToLE(v, 2)
  }

  function LE32(v: u32): seq<byte>
  {
    Pow256Values();
    ToLE(v, 4)
  }

  /** The little-endian bytes of every member of struct b of the record, in
      declaration order. anl_gain_e121_t is not part of the record; its
      bytes stay zero. */
  function MemberBytes(r: LepEbd, b: Block): (parts: seq<seq<byte>>)
    ensures |parts| == |Fields(b)|
    ensures forall j :: 0 <= j < |parts| ==> |parts[j]| == KindSize(Fields(b)[j])
  {
    match b
    case EbdSizeE01 => [LE16(r.size)]
    case HeadCrcE05 => [LE32(r.headCrc)]
    case PrvInfE13 =>
      [LE16(r.indivInf.chipIdE13), r.indivInf.undefE15, [r.indivInf.chipIdE17],
       [r.indivInf.chipIdE18], LE16(r.indivInf.chipIdE19)]
    case ExposureE31 => [r.exposure.sp1, r.exposure.sp2]
    case FramerCountE37 => [LE32(r.frameCount)]
    case FramerIdE41 => [LE16(r.frameId)]
    case CompLevlE49 => [LE16(r.compensation)]
    case LepTempE53 => [LE16(r.temper.temp1), LE16(r.temper.temp2)]
    case LepErrE61 => [LE32(r.errCode.codeE61), [r.errCode.codeE66]]
    case VolE89 => [LE16(r.vol.vh), LE16(r.vol.vm), LE16(r.vol.vl)]
    case AnlGainE121 => [[0, 0], [0, 0], [0, 0], [0, 0]]
    case ImageSizeE189 => [LE16(r.imgSize.horizontal), LE16(r.imgSize.vertical)]
    case DriveModeE197 => [[r.driveMode]]
    case SyncModeE201 => [[r.syncMode.syncMethod], [r.syncMode.opMode]]
    case WhiteBalanceE249 =>
      [LE16(r.whiteBalance.cf0), LE16(r.whiteBalance.cf1),
       LE16(r.whiteBalance.cf2), LE16(r.whiteBalance.cf3)]
  }

  /** The concatenation of member encodings, in order. */
  function Concat(parts: seq<seq<byte>>): seq<byte>
  {
    if parts == [] then [] else parts[0] + Concat(parts[1..])
  }

  /** Member j of a concatenation laid out by a list of kinds sits at the
      sum of the sizes before it. */
  lemma {:induction false} ConcatPart(parts: seq<seq<byte>>, ks: seq<Kind>, j: nat)
    requires |parts| == |ks| && j < |ks|
    requires forall i :: 0 <= i < |ks| ==> |parts[i]| == KindSize(ks[i])
    ensures |Concat(parts)| == SizeOf(ks)
    ensures SizeOf(ks[..j]) + |parts[j]| <= |Concat(parts)|
    ensures Concat(parts)[SizeOf(ks[..j])..SizeOf(ks[..j]) + |parts[j]|] == parts[j]
  {
    ConcatLength(parts, ks);
    if j == 0 {
      assert ks[..0] == [];
    } else {
      ConcatPart(parts[1..], ks[1..], j - 1);
      assert ks[..j] == [ks[0]] + ks[1..][..j - 1];
      SizeOfConcat([ks[0]], ks[1..][..j - 1]);
      ConcatLength(parts[1..], ks[1..]);
    }
  }

  lemma {:induction false} ConcatLength(parts: seq<seq<byte>>, ks: seq<Kind>)
    requires |parts| == |ks|
    requires forall i :: 0 <= i < |ks| ==> |parts[i]| == KindSize(ks[i])
    ensures |Concat(parts)| == SizeOf(ks)
  {
    if parts != [] {
      ConcatLength(parts[1..], ks[1..]);
    }
  }

  /** The lep_ebd_t member that occupies byte k, searching from position i in
      offset order. */
  function OwnerFrom(i: nat, k: nat): (o: Option<Block>)
    requires i <= BlockCount
    ensures o.Some? ==> InRecord(o.value) && InBlock(o.value, k)
    decreases BlockCount - i
  {
    if i == BlockCount then None
    else if InRecord(BlockAt(i)) && InBlock(BlockAt(i), k) then Some(BlockAt(i))
    else OwnerFrom(i + 1, k)
  }

  function Owner(k: nat): Option<Block>
  {
    OwnerFrom(0, k)
  }

  /** The member lists have the widths of the structs' members: ps[j] is as
      wide as member j of the kinds ks. */
  predicate FitsBlock(ps: seq<seq<byte>>, ks: seq<Kind>)
  {
    |ps| == |ks| && forall j :: 0 <= j < |ks| ==> |ps[j]| == KindSize(ks[j])
  }

  /** parts(b)[j] is a byte string as wide as member j of struct b, for every
      struct of the record. */
  predicate Fits(parts: Block -> seq<seq<byte>>)
  {
    forall b :: InRecord(b) ==> FitsBlock(parts(b), Fields(b))
  }

  /** Byte k of a zero-filled sample into which the members' bytes `parts`
      are written at their positions. */
  function PlacedByte(parts: Block -> seq<seq<byte>>, k: nat): byte
    requires Fits(parts)
  {
    match Owner(k)
    case None => 0
    case Some(b) =>
      PackedWidths(b);
      ConcatLength(parts(b), Fields(b));
      Concat(parts(b))[k - Start(b)]
  }

  /** A zero-filled sample of n bytes with the members' bytes `parts` written
      at their positions. */
  function Place(parts: Block -> seq<seq<byte>>, n: nat): (s: seq<byte>)
    requires Fits(parts)
    ensures |s| == n
  {
    seq(n, k requires 0 <= k < n => PlacedByte(parts, k))
  }

  /** Writes every member of r little-endian at its offset into a
      zero-filled sample of n bytes. */
  function Encode(r: LepEbd, n: nat): (s: seq<byte>)
    ensures |s| == n
  {
    MemberBytesFit(r);
    Place(b => MemberBytes(r, b), n)
  }

  lemma MemberBytesFit(r: LepEbd)
    ensures Fits(b => MemberBytes(r, b))
  {
  }

  // Properties

  /** Owner finds the one member covering a byte, since members are disjoint. */
  lemma {:induction false} OwnerFromFinds(i: nat, b: Block, k: nat)
    requires i <= Rank(b) && InRecord(b) && InBlock(b, k)
    ensures OwnerFrom(i, k) == Some(b)
    decreases BlockCount - i
  {
    if BlockAt(i) != b {
      BlocksDisjoint(BlockAt(i), b);
      OwnerFromFinds(i + 1, b, k);
    }
  }

  /** Owner(k) is the covering member exactly when byte k is covered. */
  lemma OwnerIsCover(k: nat)
    ensures Owner(k).None? <==> !Covered(k)
    ensures forall b :: InRecord(b) && InBlock(b, k) ==> Owner(k) == Some(b)
  {
    forall b | InRecord(b) && InBlock(b, k) ensures Owner(k) == Some(b) {
      OwnerFromFinds(0, b, k);
    }
  }

  /** The byte placed inside a member's range is that member's byte. */
  lemma PlacedByteOwned(parts: Block -> seq<seq<byte>>, b: Block, k: nat)
    requires Fits(parts) && InRecord(b) && InBlock(b, k)
    ensures |Concat(parts(b))| == Width(b)
    ensures PlacedByte(parts, k) == Concat(parts(b))[k - Start(b)]
  {
    PackedWidths(b);
    ConcatLength(parts(b), Fields(b));
    OwnerFromFinds(0, b, k);
  }

  /** A byte inside a member's range holds that member's bytes. */
  lemma PlacedAt(parts: Block -> seq<seq<byte>>, n: nat, b: Block, k: nat)
    requires Fits(parts) && InRecord(b) && InBlock(b, k) && k < n
    ensures |Concat(parts(b))| == Width(b)
    ensures Place(parts, n)[k] == Concat(parts(b))[k - Start(b)]
  {
    PlacedByteOwned(parts, b, k);
  }

  /** The sample holds each struct's bytes over the struct's range. */
  lemma PlacedBlock(parts: Block -> seq<seq<byte>>, n: nat, b: Block)
    requires Fits(parts) && InRecord(b) && End(b) <= n
    ensures Place(parts, n)[Start(b)..End(b)] == Concat(parts(b))
  {
    var s := Place(parts, n);
    var bs := Concat(parts(b));
    PackedWidths(b);
    ConcatLength(parts(b), Fields(b));
    forall k | Start(b) <= k < End(b) ensures s[k] == bs[k - Start(b)] {
      PlacedAt(parts, n, b, k);
    }
  }

  /** Reading member j of struct b from the sample gives the bytes written there. */
  lemma PlacedMember(parts: Block -> seq<seq<byte>>, n: nat, b: Block, j: nat)
    requires Fits(parts) && InRecord(b) && End(b) <= n && j < |Fields(b)|
    ensures Extract(Place(parts, n), b, j) == parts(b)[j]
  {
    var ps := parts(b);
    assert FitsBlock(ps, Fields(b));
    PlacedBlock(parts, n, b);
    ExtractFromBlock(Place(parts, n), b, j, Concat(ps));
    ConcatPart(ps, Fields(b), j);
  }

  /** A member's bytes are the matching slice of its struct's bytes. */
  lemma ExtractFromBlock(s: seq<byte>, b: Block, j: nat, bs: seq<byte>)
    requires End(b) <= |s| && j < |Fields(b)| && s[Start(b)..End(b)] == bs
    ensures SizeOf(Fields(b)[..j]) + KindSize(Fields(b)[j]) <= |bs|
    ensures Extract(s, b, j) == bs[SizeOf(Fields(b)[..j])..SizeOf(Fields(b)[..j]) + KindSize(Fields(b)[j])]
  {
    var off, len := SizeOf(Fields(b)[..j]), KindSize(Fields(b)[j]);
    FieldWithinBlock(b, j);
    SliceOfSlice(s, Start(b), End(b), off, len);
  }

  lemma SliceOfSlice(s: seq<byte>, lo: nat, hi: nat, off: nat, len: nat)
    requires lo <= hi <= |s| && off + len <= hi - lo
    ensures s[lo..hi][off..off + len] == s[lo + off..lo + off + len]
  {
    var a, c := s[lo..hi][off..off + len], s[lo + off..lo + off + len];
    assert |a| == |c|;
    forall i | 0 <= i < len ensures a[i] == c[i] {
    }
  }

  /** Bytes that belong to no member of the record are left zero. */
  lemma PlacedZeroOutside(parts: Block -> seq<seq<byte>>, n: nat, k: nat)
    requires Fits(parts) && k < n && !Covered(k)
    ensures Place(parts, n)[k] == 0
  {
    OwnerIsCover(k);
  }

  /** Reading member j of struct b from an encoded record gives that
      member's little-endian bytes. */
  lemma EncodedMember(r: LepEbd, n: nat, b: Block, j: nat)
    requires InRecord(b) && End(b) <= n && j < |Fields(b)|
    ensures Extract(Encode(r, n), b, j) == MemberBytes(r, b)[j]
  {
    MemberBytesFit(r);
    PlacedMember(b => MemberBytes(r, b), n, b, j);
  }

  /** Bytes that belong to no member of the record are left zero. */
  lemma EncodeZeroOutside(r: LepEbd, n: nat, k: nat)
    requires k < n && !Covered(k)
    ensures Encode(r, n)[k] == 0
  {
    MemberBytesFit(r);
    PlacedZeroOutside(b => MemberBytes(r, b), n, k);
  }
}
