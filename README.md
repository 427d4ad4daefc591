# cam_test metadata layout and hex dump, modelled in Dafny

This project models two parts of the cam_test camera tool.

- **The embedded-metadata (EBD) layout** of `ebd_data_type.h`:
  - the `LEP_EBD_IDX_t` enumeration of 1-based byte offsets;
  - the `#pragma pack(1)` structs that fix each member's width;
  - the `lep_ebd_t` record that aggregates them.

  The header has no executable code. The model turns it into a declarative table (`EbdLayout.Fields` and `EbdLayout.Offset`). One generic little-endian reader (`EbdDecode.Extract`) and a `Decode` build a `lep_ebd_t`-shaped datatype from a sample. An `Encode` writes a record into a zero-filled sample. The layout facts are proved from the table: widths, member positions, ordering, disjointness, minimum length, round trip, and that bytes outside the members do not matter.
- **`capture_and_output`** of `cam.cpp`:
  - the nested loops that dump rows `start_row..end_row` of a UYVY frame buffer as hexadecimal, with a running 1-based label (`HexDump`);
  - the order of the four ioctls around the loops (`Capture`).

  The loops are kept as imperative Dafny over an `array<byte>`, with uint32_t arithmetic written out (`Wrap32`). The printed text is abstracted to tokens: `Cell(label, byte)` for one `printf("[%04d] %02X ", …)` and `LineBreak` for one `std::endl`. `HexFormat` renders tokens back to characters. `HexDumpLemmas` proves what the dump promises against an independent flat description of the output.

Modules and files:

| file | module | contents |
|---|---|---|
| bytes.dfy | Bytes | fixed-width integers, little-endian encoding |
| ebd_index.dfy | EbdIndex | the offset enumeration, as written |
| ebd_layout.dfy | EbdLayout | the struct table and its layout lemmas |
| ebd_decode.dfy | EbdDecode | the record datatype and the decoder |
| ebd_encode.dfy | EbdEncode | the encoder into a zero-filled sample |
| ebd_roundtrip.dfy | EbdRoundTrip | round trip; decoding reads only member bytes |
| hex_dump.dfy | HexDump | the dump loops, and the output as functions |
| hex_dump_lemmas.dfy | HexDumpLemmas | flat stream, labels, coverage, line length |
| hex_format.dfy | HexFormat | `%04d` / `%02X` / `std::endl` rendering |
| capture.dfy | Capture | ioctl ordering around the dump |

Two choices resolve inconsistencies in the header.

- **frame_id is placed at byte 41.** The struct name `framer_id_e41_t` says 41. The enumerator's value, 40, would overlap frame_count (see Findings). `EbdLayout.Offset` states the choice.
- **code_e66 is at byte 65.** Under `pack(1)`, `code_e66` of `lep_err_e61_t` sits at byte 65, not at the byte 66 its name says. The model follows the packed struct (`EbdLayout.LepErrAnnotations`).

The minimum sample length is 256 bytes. The last member, `cf3` of `white_balance_e249_t` (comment e255), occupies bytes 255-256, so a 255-byte bound would cut off its second byte. `EbdLayout.RecordSpan` proves that 256 is exactly the end of the last member.

## Model

| member | source | states |
|---|---|---|
| Bytes.FromToLE | ebd_data_type.h:26-123 | reading back the n-byte little-endian encoding of a value below 256^n gives the value |
| Bytes.ToFromLE | ebd_data_type.h:26-123 | re-encoding the value of a byte string gives back the same bytes |
| Bytes.FromLE | ebd_data_type.h:26-123 | the little-endian value of n bytes is below 256^n, so it fits the member's width |
| EbdLayout.PackedWidths | ebd_data_type.h:26-105 | under pack(1) every struct is as wide as the sum of its members: 2, 4, 8, 6, 4, 2, 2, 4, 5, 6, 8, 4, 1, 2, 8 bytes |
| EbdLayout.FieldWithinBlock | ebd_data_type.h:26-105 | every member lies inside its struct's byte range |
| EbdLayout.FieldsAdjacent | ebd_data_type.h:26-105 | consecutive members are adjacent: no padding inside a struct |
| EbdLayout.PrvInfAnnotations | ebd_data_type.h:35-43 | prv_inf_e13_t's members start at bytes 13, 15, 17, 18 and 19, and the last ends at byte 20, as their eNN comments say |
| EbdLayout.ExposureAnnotations | ebd_data_type.h:50-53 | exposure sp1 covers bytes 31-33 and sp2 starts at 34, the value of the commented-out EXPOSURE_SP2 (ebd_data_type.h line 12) |
| EbdLayout.AnlGainAnnotations | ebd_data_type.h:79-84 | anl_gain_e121_t's members start at bytes 121, 123, 125 and 127 |
| EbdLayout.WhiteBalanceAnnotations | ebd_data_type.h:100-105 | white balance cf0..cf3 start at bytes 249, 251, 253 and 255; cf3 ends at byte 256 |
| EbdLayout.LepErrAnnotations | ebd_data_type.h:68-71 | code_e61 starts at byte 61 and the packed code_e66 at byte 65, not at 66 |
| EbdLayout.OffsetsMatchNames | ebd_data_type.h:6-25 | each struct's offset equals its type-name suffix; the enumeration agrees with the names for every struct except frame_id |
| EbdLayout.EnumFrameIdOverlapsFrameCount | ebd_data_type.h:13-14 | as written, FRAME_ID = 40 puts frame_id's first byte on frame_count's last byte |
| EbdLayout.BlocksOrdered | ebd_data_type.h:26-122 | in offset order, each struct ends before the next one begins |
| EbdLayout.OffsetsIncrease | ebd_data_type.h:26-122 | the offsets strictly increase in offset order |
| EbdLayout.BlocksDisjoint | ebd_data_type.h:26-122 | two distinct structs share no byte |
| EbdLayout.RecordSpan | ebd_data_type.h:100-122 | every lep_ebd_t member ends by byte 256, and white balance ends exactly there, so 256 is the minimum sample length |
| EbdLayout.PackedRecordSize | ebd_data_type.h:107-122 | the packed lep_ebd_t is 58 bytes, fewer than the 256 bytes its members span, so one contiguous copy cannot fill it |
| EbdLayout.GapsUncovered | ebd_data_type.h:6-122 | HOST_SELECT (21-30), FRAM_MASK (43-48) and the analog-gain block (121-128) hold no byte of any lep_ebd_t member |
| EbdLayout.Rank | ebd_data_type.h:6-25 | every struct has a unique position in offset order |
| EbdDecode.Extract | ebd_data_type.h:26-123 | the bytes read for a member are exactly as many as the member is wide |
| EbdDecode.Decode | ebd_data_type.h:107-122 | a sample is rejected, with its length, exactly when it is shorter than 256 bytes |
| EbdEncode.Encode | ebd_data_type.h:107-122 | the encoded sample has the requested length |
| EbdEncode.EncodedMember | ebd_data_type.h:107-122 | reading any member from an encoded record gives that member's little-endian bytes |
| EbdEncode.EncodeZeroOutside | ebd_data_type.h:107-122 | bytes that belong to no member stay zero |
| EbdRoundTrip.RoundTrip | ebd_data_type.h:26-123 | decoding a record written into a zero-filled sample of at least 256 bytes returns exactly that record |
| EbdRoundTrip.FrameIdRoundTrip | ebd_data_type.h:55-57 | frame_id, read at byte 41, round-trips |
| EbdRoundTrip.LepErrRoundTrip | ebd_data_type.h:68-71 | both error-code members round-trip |
| EbdRoundTrip.WhiteBalanceRoundTrip | ebd_data_type.h:100-105 | all four white-balance coefficients round-trip |
| EbdRoundTrip.OnlyMemberBytesMatter | ebd_data_type.h:107-122 | two samples that agree on every member byte decode to the same record, whatever they hold elsewhere |
| EbdRoundTrip.DecodeScenario | ebd_data_type.h:55-62 | bytes 2A 00 at offset 41 and 30 02 at offset 53 decode to frame id 42 and raw temperature 0x230 |
| HexDump.Wrap32 | cam.cpp:101-102 | uint32_t arithmetic is exact below 2^32 |
| HexDump.AlignedMod | cam.cpp:105 | the model's alignment test is the source's `i % 16 == 0` |
| HexDump.RowRange | cam.cpp:101-102 | row_start_idx and row_end_idx, computed in uint32_t, are the first and one-past-last index of the row, 2 * width apart |
| HexDump.DumpRow | cam.cpp:104-107 | the inner loop prints the row's bytes in order with consecutive labels and a break before each index that is a multiple of 16 other than the row's first; byte_position advances by the row length |
| HexDump.DumpRowAt | cam.cpp:101-108 | one outer iteration prints row `row` and ends it with a line break; the label continues from the bytes of the earlier rows |
| HexDump.NextRow | cam.cpp:100 | row++ does not wrap while row <= end_row < UINT32_MAX |
| HexDump.MaxEndRowNeverExits | cam.cpp:100 | as written, with end_row = UINT32_MAX every row passes `row <= end_row` and `row++` from UINT32_MAX wraps to 0, so the loop never ends |
| HexDump.DumpRows | cam.cpp:96-109 | the nested loops print exactly the dump of rows start_row..end_row |
| HexDumpLemmas.DumpIsStream | cam.cpp:100-108 | for a positive width, the dump is one flat stream of Count bytes, with a break before byte k exactly when k opens a row or its buffer index is a multiple of 16, followed by one final break |
| HexDumpLemmas.DumpCells | cam.cpp:98-106 | the printed bytes are exactly those of buffer indices [start_row * width * 2, (end_row + 1) * width * 2), in increasing order, labelled 1, 2, ..., Count with no gap or repeat; none when start_row > end_row |
| HexDumpLemmas.LabelledAt | cam.cpp:98-106 | the i-th printed byte is the byte at index base + i, with label i + 1 |
| HexDumpLemmas.StreamCells | cam.cpp:98-106 | the bytes of the flat stream are labelled 1..k in buffer order |
| HexDumpLemmas.DumpOfZeroWidth | cam.cpp:100-108 | with width 0 nothing is printed but one line break per requested row |
| HexDumpLemmas.LinesHoldAtMost16 | cam.cpp:105-108 | among any 16 consecutive printed bytes after the first, one starts a new line, so no line holds more than 16 bytes |
| HexFormat.HexByteRoundTrip | cam.cpp:106 | `%02X` of a byte is two upper-case hexadecimal digits that read back as the byte |
| HexFormat.DecimalRoundTrip | cam.cpp:106 | the decimal text of a label reads back as the label |
| HexFormat.Decimal | cam.cpp:106 | `%d` of a non-negative value is at least one digit, without leading zero |
| HexFormat.ZeroPad | cam.cpp:106 | the `0` flag with width w pads with zeros on the left to at least w characters and keeps the digits |
| HexFormat.ZeroPadValue | cam.cpp:106 | zero padding keeps the value |
| HexFormat.LabelRoundTrip | cam.cpp:106 | a label below 2^31 is printed as at least four digits that read back as the label |
| HexFormat.NegativeLabel | cam.cpp:106 | a label of 2^31 or more, passed to `%d`, is printed as a minus sign and digits that read as 2^32 - label |
| HexFormat.CellTextShape | cam.cpp:106 | the text of one printed byte is `[`, the label (at least four characters), `] `, the two hex digits of the byte and a space: at least ten characters and no line break |
| HexFormat.RenderAppend | cam.cpp:105-108 | the text of concatenated output is the concatenation of the texts |
| HexFormat.RenderNewlines | cam.cpp:105-108 | the text holds exactly one newline per line-break token |
| Capture.CaptureAndOutput | cam.cpp:84-113 | given the device's answers and the buffer as dequeued, the events are the expected run, and the printed dump is the dump of the requested rows |
| Capture.ExpectedCases | cam.cpp:84-113 | the run for each combination of device answers, event by event |
| Capture.PrintsIffStarted | cam.cpp:84-94 | the dump is printed exactly when QBUF, STREAMON and DQBUF all succeed, and what is printed is the dump |
| Capture.RequestsInOrder | cam.cpp:84-113 | the ioctls issued are QBUF, STREAMON, DQBUF, STREAMOFF in that order, cut off after the first one refused |
| Capture.ExitOnFailure | cam.cpp:84-113 | a refused ioctl is followed only by perror_exit with its own message; nothing else exits, and a run with no refusal ends with STREAMOFF |
| Capture.StreamOffAfterPrint | cam.cpp:108-113 | STREAMOFF is issued only after the dump has been printed |

## Left out

- Device I/O is not modelled: `open`, the `VIDIOC_S_FMT`, `VIDIOC_REQBUFS` and `VIDIOC_QUERYBUF` ioctls, `mmap`/`munmap`, `close` and `perror_exit`'s call to `exit` (cam.cpp:16-80, 146-147). In `Capture` each of the four ioctls around the dump becomes a success/failure answer given as a parameter (`Capture.Device`). The buffer the device fills is an input array. `perror_exit` becomes a final `Exit` event carrying its message.
- Argument parsing in `main` (`std::stoi`, cam.cpp:117-126) is a library call. The row bounds and width are inputs.
- cam_video.cpp is not part of this model: OpenCV capture, the window UI and the floating-point FPS figure.
- Temperature and voltage scaling are not modelled. They are floating-point, and no code for them appears in the files modelled.
- The threaded producer/consumer, its queue and the report formatter are not modelled. None of them appears in the files modelled, and their point is concurrency. The decoder is derived from the layout header alone.
- The one-member structs (`ebd_size_e01_t`, `head_crc_e05_t`, `framer_count_e37_t`, `framer_id_e41_t`, `comp_levl_e49_t`, `drive_mode_e197_t`) are flattened to their single member in `EbdDecode.LepEbd`.
- `anl_gain_e121_t` is not a member of `lep_ebd_t`. It appears only in the layout table, and its bytes stay zero in `EbdEncode.Encode`.
- HexDump.DumpRows: requires what the source leaves to its caller (`HexDump.InBounds`), so it does not model an out-of-bounds read or a uint32_t index wrap. The conditions are:
  - `(end_row + 1) * width * 2` is at most the buffer length and below 2^32;
  - `end_row` is not `UINT32_MAX`. At that value `row <= end_row` always holds, `row++` wraps, and the loop never ends (see Findings).
- Capture.CaptureAndOutput: requires `HexDump.InBounds` only when the dump is reached, for the same reason.
- The printed text is abstracted to tokens, one per `printf` and one per `std::endl`. `HexFormat` gives each token's characters. The flush that `std::endl` performs, and `stdout`/`std::cout` buffering and interleaving, are not modelled.

## Findings

| source | as written | input that shows it | evidently intended | confidence | as-written member | corrected member |
|---|---|---|---|---|---|---|
| ebd_data_type.h:14 | `FRAME_ID = 40` | frame_count (offset 37, 4 bytes) occupies bytes 37-40; frame_id at 40 would start on byte 40 | frame_id at byte 41, as the struct name `framer_id_e41_t` (ebd_data_type.h:55-57) says | not executed | EbdLayout.EnumFrameIdOverlapsFrameCount | EbdLayout.BlocksDisjoint |
| cam.cpp:100 | `for (uint32_t row = start_row; row <= end_row; row++)` | end_row = UINT32_MAX: every uint32_t row passes `row <= end_row`, and `row++` wraps from UINT32_MAX to 0 | the loop visits rows start_row..end_row once each and stops | not executed | HexDump.MaxEndRowNeverExits | HexDump.DumpRows |
