/** The hex dump of capture_and_output: rows start_row..end_row of a UYVY
    frame buffer (two bytes per pixel), every byte printed with a running
    1-based label, a line break before every byte whose buffer index is a
    multiple of 16 (unless it opens its row) and one after every row. The
    printed text is abstracted to a sequence of tokens; HexFormat renders them. */
module HexDump {
  import opened Bytes

  /** 2^32: the source computes indices and labels in uint32_t. */
  const Word: nat := 0x1_0000_0000

  /** uint32_t arithmetic: the result reduced modulo 2^32. */
  function Wrap32(x: nat): (w: u32)
    ensures x < Word ==> w == x
  {
    x % Word
  }

  /** One printed byte ("[label] XX ") or one line break. */
  datatype Token = Cell(position: nat, value: byte) | LineBreak

  /** Bytes per row: two per pixel. */
  function RowBytes(width: nat): nat
  {
    width * 2
  }

  /** Buffer index of the first byte of row `row`; equally, the number of
      bytes in `row` rows. */
  function RowOffset(row: nat, width: nat): nat
  {
    row * RowBytes(width)
  }

  /** Every index the dump of rows startRow..endRow reads is inside a buffer
      of the given length (nothing is read when start_row > end_row). */
  predicate Readable(length: nat, startRow: nat, endRow: nat, width: nat)
  {
    startRow <= endRow ==> RowOffset(endRow + 1, width) <= length
  }

  /** What the source leaves to its caller: the reads are in bounds and, when
      start_row <= end_row, end_row is not the largest uint32_t (else row++
      wraps and the loop never ends) and the end index of the last row fits
      in 32 bits, so no index or label computation wraps. */
  predicate InBounds(length: nat, startRow: nat, endRow: nat, width: nat)
  {
    Readable(length, startRow, endRow, width)
    && (startRow <= endRow ==> endRow + 1 < Word && RowOffset(endRow + 1, width) < Word)
  }

  // ---------------------------------------------------------------------
  // The output, as functions of the input

  /** The label of the first byte of the k-th printed row, in uint32_t. */
  function FirstLabel(k: nat, width: nat): u32
  {
    Wrap32(1 + RowOffset(k, width))
  }

  /** The line break printed before the byte at index i of a row starting at
      rowStart: when i % 16 == 0 (AlignedMod) and the byte does not open the row. */
  function Separator(i: nat, rowStart: nat): seq<Token>
  {
    if Aligned(i) && i != rowStart then [LineBreak] else []
  }

  /** i is a multiple of 16, counted out in steps of 16. */
  predicate Aligned(i: nat)
    decreases i
  {
    if i < 16 then i == 0 else Aligned(i - 16)
  }

  /** Aligned is the source's test i % 16 == 0. */
  lemma {:induction false} AlignedMod(i: nat)
    ensures Aligned(i) <==> i % 16 == 0
    decreases i
  {
    if i >= 16 {
      AlignedMod(i - 16);
    }
  }

  /** What the inner loop has printed once it reaches index i of the row
      starting at rowStart, whose first byte is labelled label0. */
  function RowPrefix(data: seq<byte>, rowStart: nat, i: nat, label0: nat): seq<Token>
    requires rowStart <= i <= |data|
    decreases i - rowStart
  {
    if i == rowStart then []
    else RowPrefix(data, rowStart, i - 1, label0) + Separator(i - 1, rowStart)
         + [Cell(label0 + (i - 1 - rowStart), data[i - 1])]
  }

  /** The output of rows startRow..row-1. */
  function RowsUpTo(data: seq<byte>, startRow: nat, row: nat, width: nat): seq<Token>
    requires startRow <= row && RowOffset(row, width) <= |data|
    decreases row - startRow
  {
    if row == startRow then []
    else
      RowBoundsMono(row - 1, row, width);
      RowsUpTo(data, startRow, row - 1, width)
      + RowPrefix(data, RowOffset(row - 1, width), RowOffset(row, width),
                  1 + RowOffset(row - 1 - startRow, width))
      + [LineBreak]
  }

  /** The whole dump of rows startRow..endRow. */
  function Dump(data: seq<byte>, startRow: nat, endRow: nat, width: nat): seq<Token>
    requires Readable(|data|, startRow, endRow, width)
  {
    if startRow <= endRow then RowsUpTo(data, startRow, endRow + 1, width) else []
  }

  /** Number of bytes the dump prints. */
  function Count(startRow: nat, endRow: nat, width: nat): nat
  {
    if startRow <= endRow then RowOffset(endRow + 1 - startRow, width) else 0
  }

  lemma RowBoundsMono(a: nat, b: nat, width: nat)
    requires a <= b
    ensures RowOffset(a, width) <= RowOffset(b, width)
    ensures RowOffset(b - a, width) == RowOffset(b, width) - RowOffset(a, width)
  {
  }

  /** Lines 101-102 of the source: the first and one-past-last buffer index
      of a row, computed in uint32_t; exact because the row's end fits. */
  method RowRange(row: u32, width: u32) returns (rowStartIdx: u32, rowEndIdx: u32)
    requires RowOffset(row + 1, width) < Word
    ensures rowStartIdx == RowOffset(row, width)
    ensures rowEndIdx == RowOffset(row + 1, width)
    ensures rowEndIdx - rowStartIdx == RowBytes(width)
  {
    RowBoundsMono(row, row + 1, width);
    assert row * width <= RowOffset(row, width);
    rowStartIdx := Wrap32(Wrap32(row * width) * 2);
    rowEndIdx := Wrap32(rowStartIdx + Wrap32(width * 2));
  }

  /** The rows before end_row + 1 stay within the bounds InBounds gives. */
  lemma RowFits(length: nat, startRow: nat, endRow: nat, width: nat, row: nat)
    requires InBounds(length, startRow, endRow, width) && startRow <= row <= endRow
    ensures RowOffset(row + 1, width) < Word && RowOffset(row + 1, width) <= length
    ensures 1 + RowOffset(row + 1 - startRow, width) <= Word
    ensures RowOffset(row + 1 - startRow, width) == RowOffset(row - startRow, width) + RowBytes(width)
  {
    RowBoundsMono(row + 1, endRow + 1, width);
    RowBoundsMono(row + 1 - startRow, endRow + 1, width);
  }

  /** One more row of output. */
  lemma RowsStep(data: seq<byte>, startRow: nat, row: nat, width: nat)
    requires startRow <= row && RowOffset(row + 1, width) <= |data|
    ensures RowOffset(row, width) <= RowOffset(row + 1, width)
    ensures RowsUpTo(data, startRow, row + 1, width)
         == RowsUpTo(data, startRow, row, width)
            + RowPrefix(data, RowOffset(row, width), RowOffset(row + 1, width),
                        1 + RowOffset(row - startRow, width))
            + [LineBreak]
  {
    RowBoundsMono(row, row + 1, width);
    var next := row + 1;
    assert next - 1 == row;
    assert RowOffset(next - 1 - startRow, width) == RowOffset(row - startRow, width);
  }

  /** The inner loop: the bytes of one row, from rowStart up to rowEnd. */
  method DumpRow(data: array<byte>, rowStart: u32, rowEnd: u32, position: u32)
    returns (out: seq<Token>, next: u32)
    requires rowStart <= rowEnd <= data.Length && position + (rowEnd - rowStart) <= Word
    ensures out == RowPrefix(data[..], rowStart, rowEnd, position)
    ensures next == Wrap32(position + (rowEnd - rowStart))
  {
    out := [];
    next := position;
    var i: u32 := rowStart;
    while i < rowEnd
      invariant rowStart <= i <= rowEnd
      invariant out == RowPrefix(data[..], rowStart, i, position)
      invariant next == Wrap32(position + (i - rowStart))
      decreases rowEnd - i
    {
      AlignedMod(i);
      if i % 16 == 0 && i != rowStart {
        out := out + [LineBreak];
      }
      out := out + [Cell(next, data[i])];
      next := Wrap32(next + 1);
      i := Wrap32(i + 1);
    }
  }

  /** One iteration of the outer loop (lines 101-108 of the source): the
      bytes of row `row` and the line break that ends it. */
  method DumpRowAt(data: array<byte>, startRow: u32, endRow: u32, width: u32, row: u32, position: u32)
    returns (line: seq<Token>, next: u32)
    requires InBounds(data.Length, startRow, endRow, width) && startRow <= row <= endRow
    requires position == FirstLabel(row - startRow, width)
    ensures RowOffset(row + 1, width) <= data.Length
    ensures line == RowPrefix(data[..], RowOffset(row, width), RowOffset(row + 1, width),
                              1 + RowOffset(row - startRow, width)) + [LineBreak]
    ensures next == FirstLabel(row + 1 - startRow, width)
  {
    RowFits(data.Length, startRow, endRow, width, row);
    ghost var done := RowOffset(row - startRow, width);
    assert position == 1 + done;
    var rowStartIdx, rowEndIdx := RowRange(row, width);
    line, next := DumpRow(data, rowStartIdx, rowEndIdx, position);
    line := line + [LineBreak];
  }

  /** row++ of the outer loop, which does not wrap while row <= end_row < UINT32_MAX. */
  function NextRow(row: u32, endRow: u32): (next: u32)
    requires row <= endRow && endRow + 1 < Word
    ensures next == row + 1
  {
    Wrap32(row + 1)
  }

  /** As written, the outer loop cannot end when end_row is UINT32_MAX: every
      uint32_t row passes the test row <= end_row, and row++ from UINT32_MAX
      wraps to row 0, which passes it again. InBounds excludes this end_row. */
  lemma MaxEndRowNeverExits(row: u32, endRow: u32)
    requires endRow == Word - 1
    ensures row <= endRow
    ensures row == endRow ==> Wrap32(row + 1) == 0 && Wrap32(row + 1) <= endRow
  {
  }

  /** The outer loop of capture_and_output, with the source's uint32_t
      arithmetic: returns the tokens printed. */
  method DumpRows(data: array<byte>, startRow: u32, endRow: u32, width: u32) returns (out: seq<Token>)
    requires InBounds(data.Length, startRow, endRow, width)
    ensures out == Dump(data[..], startRow, endRow, width)
  {
    var bytePosition: u32 := 1;
    out := [];
    var row: u32 := startRow;
    if startRow <= endRow {
      RowBoundsMono(startRow, endRow + 1, width);
    }
    while row <= endRow
      invariant startRow <= row
      invariant startRow > endRow ==> row == startRow && out == []
      invariant startRow <= endRow ==> row <= endRow + 1 && RowOffset(row, width) <= data.Length
      invariant startRow <= endRow ==> out == RowsUpTo(data[..], startRow, row, width)
      invariant startRow <= endRow ==> bytePosition == FirstLabel(row - startRow, width)
      decreases endRow + 1 - row
    {
      var line;
      line, bytePosition := DumpRowAt(data, startRow, endRow, width, row, bytePosition);
      RowsStep(data[..], startRow, row, width);
      out := out + line;
      row := NextRow(row, endRow);
    }
  }
}
