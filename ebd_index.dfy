/** The LEP_EBD_IDX_t enumeration: the 1-based byte offset at which each
    region of the embedded-metadata block begins (offset N means the region's
    first byte is sample[N - 1]). The values are the header's, as written. */
module EbdIndex {

  datatype EbdIdx =
    | EbdSize | HeadCrc | IndividualInf | HostSelect | ExposureSp1
    | FrameCount | FrameId | FramMask | CompensationLevel | TemperatureInf
    | ErrCode | Vol | AnalogGainInf | ImageSize | DriveMode | SyncMode
    | WhiteBalanceInf

  /** The enumerator's value. FrameId is 40 in the header (see EbdLayout.Offset). */
  function Value(idx: EbdIdx): nat
  {
    match idx
    case EbdSize => 1
    case HeadCrc => 5
    case IndividualInf => 13
    case HostSelect => 21
    case ExposureSp1 => 31
    case FrameCount => 37
    case FrameId => 40
    case FramMask => 43
    case CompensationLevel => 49
    case TemperatureInf => 53
    case ErrCode => 61
    case Vol => 89
    case AnalogGainInf => 121
    case ImageSize => 189
    case DriveMode => 197
    case SyncMode => 201
    case WhiteBalanceInf => 249
  }

  /** The commented-out enumerator EXPOSURE_SP2 = 34. */
  const ExposureSp2Value: nat := 34
}
