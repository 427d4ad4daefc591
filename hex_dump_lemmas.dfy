/** What the dump of capture_and_output promises, proved about HexDump.Dump:
    an independent flat description of the token stream (a break before byte
    k exactly when its buffer index is a multiple of 16 or it opens a row),
    the labels 1..count attached to the bytes of the requested rows in buffer
    order, and at most 16 bytes between two breaks. */
module HexDumpLemmas {
  import opened Bytes
  import opened HexDump

  /** In the flat view: whether a line break precedes the k-th printed byte
      (0-based) when the first one is at buffer index base and rows hold
      rowLen bytes. */
  predicate BreakBefore(base: nat, rowLen: nat, k: nat)
    requires rowLen > 0
  {
    k > 0 && (Aligned(base + k) || RowBoundary(k, rowLen))
  }

  /** The first k printed bytes and the breaks between them, read as one
      flat stream rather than row by row. */
  function Stream(data: seq<byte>, base: nat, rowLen: nat, k: nat): seq<Token>
    requires rowLen > 0 && base + k <= |data|
  {
    if k == 0 then []
    else Stream(data, base, rowLen, k - 1)
         + (if BreakBefore(base, rowLen, k - 1) then [LineBreak] else [])
         + [Cell(k, data[base + k - 1])]
  }

  /** The printed bytes of a token sequence, line breaks dropped. */
  function Cells(ts: seq<Token>): (cs: seq<Token>)
    ensures |cs| <= |ts|
  {
    if ts == [] then []
    else Cells(ts[..|ts| - 1]) + (if ts[|ts| - 1].Cell? then [ts[|ts| - 1]] else [])
  }

  /** The bytes base..base+n-1 labelled 1..n, in buffer order. */
  function Labelled(data: seq<byte>, base: nat, n: nat): (cs: seq<Token>)
    requires n == 0 || base + n <= |data|
    ensures |cs| == n
  {
    if n == 0 then [] else Labelled(data, base, n - 1) + [Cell(n, data[base + n - 1])]
  }

  // ---------------------------------------------------------------------
  // Arithmetic on row offsets

  /** The offsets that open a row of the stream: 0, rowLen, 2 * rowLen, ... */
  predicate RowBoundary(k: nat, rowLen: nat)
    requires rowLen > 0
    decreases k
  {
    k == 0 || (k >= rowLen && RowBoundary(k - rowLen, rowLen))
  }

  /** No offset strictly inside a row opens one. */
  lemma {:induction false} InsideRow(m: nat, j: nat, rowLen: nat)
    requires rowLen > 0 && RowBoundary(m, rowLen) && 0 < j < rowLen
    ensures !RowBoundary(m + j, rowLen)
    decreases m
  {
    if m > 0 {
      InsideRow(m - rowLen, j, rowLen);
      assert m + j - rowLen == m - rowLen + j;
    }
  }

  /** One row further on is again a row boundary. */
  lemma NextBoundary(m: nat, rowLen: nat)
    requires rowLen > 0 && RowBoundary(m, rowLen)
    ensures RowBoundary(m + rowLen, rowLen)
  {
    assert m + rowLen - rowLen == m;
  }

  /** Every RowOffset opens a row of the stream. */
  lemma {:induction false} RowOffsetIsBoundary(q: nat, width: nat)
    requires width > 0
    ensures RowBoundary(RowOffset(q, width), RowBytes(width))
  {
    if q > 0 {
      RowOffsetIsBoundary(q - 1, width);
      RowBoundsMono(q - 1, q, width);
      NextBoundary(RowOffset(q - 1, width), RowBytes(width));
    }
  }

  // ---------------------------------------------------------------------
  // The nested loops produce the flat stream

  /** The stream up to j bytes into the row that starts m bytes in is the
      stream before that row, the break that opens the row (unless it is the
      first) and the row's first j bytes as the inner loop prints them. */
  lemma {:induction false} StreamRow(data: seq<byte>, base: nat, rowLen: nat, m: nat, j: nat)
    requires rowLen > 0 && RowBoundary(m, rowLen) && j <= rowLen
    requires base + m + j <= |data|
    ensures Stream(data, base, rowLen, m + j)
         == Stream(data, base, rowLen, m)
            + (if m > 0 && j > 0 then [LineBreak] else [])
            + RowPrefix(data, base + m, base + m + j, 1 + m)
    decreases j, 1
  {
    if j == 0 {
      StreamRowEmpty(data, base, rowLen, m, j);
    } else if j == 1 {
      StreamRowFirst(data, base, rowLen, m, j);
    } else {
      StreamRowNext(data, base, rowLen, m, j);
    }
  }

  /** No byte of a row yet. */
  lemma StreamRowEmpty(data: seq<byte>, base: nat, rowLen: nat, m: nat, j: nat)
    requires rowLen > 0 && j == 0 && base + m <= |data|
    ensures Stream(data, base, rowLen, m + j)
         == Stream(data, base, rowLen, m) + (if m > 0 && j > 0 then [LineBreak] else [])
            + RowPrefix(data, base + m, base + m + j, 1 + m)
  {
    assert m + j == m;
  }

  /** The first byte of a row. */
  lemma StreamRowFirst(data: seq<byte>, base: nat, rowLen: nat, m: nat, j: nat)
    requires rowLen > 0 && RowBoundary(m, rowLen) && j == 1 && base + m + j <= |data|
    ensures Stream(data, base, rowLen, m + j)
         == Stream(data, base, rowLen, m) + (if m > 0 && j > 0 then [LineBreak] else [])
            + RowPrefix(data, base + m, base + m + j, 1 + m)
  {
    StreamStep(data, base, rowLen, m);
    RowPrefixFirstByte(data, base + m, 1 + m);
  }

  lemma RowPrefixFirstByte(data: seq<byte>, rowStart: nat, label0: nat)
    requires rowStart < |data|
    ensures RowPrefix(data, rowStart, rowStart + 1, label0) == [Cell(label0, data[rowStart])]
  {
    RowPrefixStep(data, rowStart, rowStart, label0);
  }

  /** A later byte of a row: the stream and the row grow by the same tokens. */
  lemma {:induction false} StreamRowNext(data: seq<byte>, base: nat, rowLen: nat, m: nat, j: nat)
    requires rowLen > 0 && RowBoundary(m, rowLen) && 1 < j <= rowLen && base + m + j <= |data|
    ensures Stream(data, base, rowLen, m + j)
         == Stream(data, base, rowLen, m)
            + (if m > 0 && j > 0 then [LineBreak] else [])
            + RowPrefix(data, base + m, base + m + j, 1 + m)
    decreases j, 0
  {
    StreamRow(data, base, rowLen, m, j - 1);
    StreamStepInside(data, base, rowLen, m, j);
    RowPrefixStepInside(data, base + m, j, 1 + m);
    ExtendRow(Stream(data, base, rowLen, m + j), Stream(data, base, rowLen, m + (j - 1)),
              RowPrefix(data, base + m, base + m + j, 1 + m), Stream(data, base, rowLen, m),
              m > 0 && j - 1 > 0, m > 0 && j > 0, RowPrefix(data, base + m, base + m + (j - 1), 1 + m),
              (if Aligned(base + m + (j - 1)) then [LineBreak] else []) + [Cell(1 + m + (j - 1), data[base + m + (j - 1)])]);
  }

  /** Sequence bookkeeping: appending the same tail to a row and to the
      stream that ends with it. */
  lemma ExtendRow(next: seq<Token>, prev: seq<Token>, line: seq<Token>, head: seq<Token>,
                  b1: bool, b2: bool, row: seq<Token>, tail: seq<Token>)
    requires b1 == b2 && prev == head + (if b1 then [LineBreak] else []) + row
    requires next == prev + tail && line == row + tail
    ensures next == head + (if b2 then [LineBreak] else []) + line
  {
  }

  /** StreamStep for byte j - 1 of the row that starts m bytes in, j > 1. */
  lemma StreamStepInside(data: seq<byte>, base: nat, rowLen: nat, m: nat, j: nat)
    requires rowLen > 0 && RowBoundary(m, rowLen) && 1 < j <= rowLen && base + m + j <= |data|
    ensures Stream(data, base, rowLen, m + j)
         == Stream(data, base, rowLen, m + (j - 1))
            + ((if Aligned(base + m + (j - 1)) then [LineBreak] else [])
               + [Cell(1 + m + (j - 1), data[base + m + (j - 1)])])
  {
    InsideRow(m, j - 1, rowLen);
    StreamStepAt(data, base, rowLen, m + (j - 1), m + j, base + m + (j - 1));
  }

  /** RowPrefixStep for byte j - 1 of a row, j > 1. */
  lemma RowPrefixStepInside(data: seq<byte>, rowStart: nat, j: nat, label0: nat)
    requires 1 < j && rowStart + j <= |data|
    ensures RowPrefix(data, rowStart, rowStart + j, label0)
         == RowPrefix(data, rowStart, rowStart + (j - 1), label0)
            + ((if Aligned(rowStart + (j - 1)) then [LineBreak] else [])
               + [Cell(label0 + (j - 1), data[rowStart + (j - 1)])])
  {
    RowPrefixStepAt(data, rowStart, rowStart + (j - 1), rowStart + j, label0, label0 + (j - 1));
  }

  /** StreamStep with the new length n and the byte's index i as parameters. */
  lemma StreamStepAt(data: seq<byte>, base: nat, rowLen: nat, k: nat, n: nat, i: nat)
    requires rowLen > 0 && n == k + 1 && i == base + k && i < |data|
    ensures Stream(data, base, rowLen, n)
         == Stream(data, base, rowLen, k)
            + (if k > 0 && (Aligned(i) || RowBoundary(k, rowLen)) then [LineBreak] else [])
            + [Cell(n, data[i])]
  {
    StreamStep(data, base, rowLen, k);
  }

  /** RowPrefixStep with the new end hi and the byte's label as parameters. */
  lemma RowPrefixStepAt(data: seq<byte>, rowStart: nat, i: nat, hi: nat, label0: nat, lab: nat)
    requires rowStart <= i < |data| && hi == i + 1 && lab == label0 + (i - rowStart)
    ensures RowPrefix(data, rowStart, hi, label0)
         == RowPrefix(data, rowStart, i, label0) + Separator(i, rowStart) + [Cell(lab, data[i])]
  {
    RowPrefixStep(data, rowStart, i, label0);
  }

  /** Stream unfolded once. */
  lemma StreamStep(data: seq<byte>, base: nat, rowLen: nat, k: nat)
    requires rowLen > 0 && base + k + 1 <= |data|
    ensures Stream(data, base, rowLen, k + 1)
         == Stream(data, base, rowLen, k)
            + (if BreakBefore(base, rowLen, k) then [LineBreak] else [])
            + [Cell(k + 1, data[base + k])]
  {
    assert k + 1 - 1 == k && base + (k + 1) - 1 == base + k;
  }

  /** RowPrefix unfolded once. */
  lemma RowPrefixStep(data: seq<byte>, rowStart: nat, i: nat, label0: nat)
    requires rowStart <= i < |data|
    ensures RowPrefix(data, rowStart, i + 1, label0)
         == RowPrefix(data, rowStart, i, label0) + Separator(i, rowStart)
            + [Cell(label0 + (i - rowStart), data[i])]
  {
    assert i + 1 - 1 == i;
  }

  /** Rows startRow..row-1 print the stream of their bytes and a final break. */
  lemma {:induction false} RowsAreStream(data: seq<byte>, startRow: nat, row: nat, width: nat)
    requires width > 0 && startRow < row && RowOffset(row, width) <= |data|
    ensures RowOffset(startRow, width) + RowOffset(row - startRow, width) == RowOffset(row, width)
    ensures RowsUpTo(data, startRow, row, width)
         == Stream(data, RowOffset(startRow, width), RowBytes(width),
                   RowOffset(row - startRow, width)) + [LineBreak]
    decreases row - startRow
  {
    var base, w2, q := RowOffset(startRow, width), RowBytes(width), row - 1 - startRow;
    var m, total := RowOffset(q, width), RowOffset(row - startRow, width);
    assert base + m == RowOffset(row - 1, width) && m + w2 == total && base + total == RowOffset(row, width)
           && (q > 0 <==> m > 0) by {
      RowBoundsMono(startRow, row, width);
      RowBoundsMono(startRow, row - 1, width);
      RowBoundsMono(q, q + 1, width);
      RowBoundsMono(0, q, width);
      assert q + 1 == row - startRow;
    }
    if q > 0 {
      RowsAreStream(data, startRow, row - 1, width);
    }
    RowsStreamStep(data, startRow, row, width, base, w2, m, total);
  }

  /** The induction step of RowsAreStream, with every offset named. */
  lemma RowsStreamStep(data: seq<byte>, startRow: nat, row: nat, width: nat,
                       base: nat, w2: nat, m: nat, total: nat)
    requires width > 0 && startRow < row && RowOffset(row, width) <= |data|
    requires base == RowOffset(startRow, width) && w2 == RowBytes(width)
    requires m == RowOffset(row - 1 - startRow, width) && total == RowOffset(row - startRow, width)
    requires base + m == RowOffset(row - 1, width) && m + w2 == total && base + total == RowOffset(row, width)
    requires row - 1 > startRow <==> m > 0
    requires m > 0 ==> RowsUpTo(data, startRow, row - 1, width) == Stream(data, base, w2, m) + [LineBreak]
    ensures RowsUpTo(data, startRow, row, width) == Stream(data, base, w2, total) + [LineBreak]
  {
    LastRowOfStream(data, startRow, row, width, base, w2, m, total);
    RowsStepAt(data, startRow, row, width, base + m, base + total, 1 + m);
    if m > 0 {
      Assemble(RowsUpTo(data, startRow, row, width), RowsUpTo(data, startRow, row - 1, width),
               Stream(data, base, w2, m), [LineBreak],
               RowPrefix(data, base + m, base + total, 1 + m), Stream(data, base, w2, total));
    } else {
      FirstRowOfRows(data, startRow, row, width, base, w2, m);
      Assemble(RowsUpTo(data, startRow, row, width), RowsUpTo(data, startRow, row - 1, width),
               Stream(data, base, w2, m), [],
               RowPrefix(data, base + m, base + total, 1 + m), Stream(data, base, w2, total));
    }
  }

  /** The last of the rows, as StreamRow gives it. */
  lemma LastRowOfStream(data: seq<byte>, startRow: nat, row: nat, width: nat,
                        base: nat, w2: nat, m: nat, total: nat)
    requires width > 0 && startRow < row
    requires w2 == RowBytes(width) && m == RowOffset(row - 1 - startRow, width)
    requires m + w2 == total && base + total <= |data|
    ensures Stream(data, base, w2, total)
         == Stream(data, base, w2, m) + (if m > 0 then [LineBreak] else [])
            + RowPrefix(data, base + m, base + total, 1 + m)
  {
    RowOffsetIsBoundary(row - 1 - startRow, width);
    StreamRow(data, base, w2, m, w2);
  }

  /** Before the first row nothing is printed. */
  lemma FirstRowOfRows(data: seq<byte>, startRow: nat, row: nat, width: nat, base: nat, w2: nat, m: nat)
    requires startRow < row && RowOffset(row - 1, width) <= |data| && !(row - 1 > startRow) && m == 0
    requires base + m <= |data| && w2 > 0
    ensures RowsUpTo(data, startRow, row - 1, width) == []
    ensures Stream(data, base, w2, m) == []
  {
  }

  /** Sequence bookkeeping for RowsStreamStep. */
  lemma Assemble(rows: seq<Token>, earlier: seq<Token>, before: seq<Token>, lead: seq<Token>,
                 line: seq<Token>, stream: seq<Token>)
    requires rows == earlier + line + [LineBreak] && earlier == before + lead
    requires stream == before + lead + line
    ensures rows == stream + [LineBreak]
  {
  }

  /** RowsUpTo unfolded once, with the row's bounds and first label given. */
  lemma RowsStepAt(data: seq<byte>, startRow: nat, row: nat, width: nat, lo: nat, hi: nat, label0: nat)
    requires startRow < row && RowOffset(row, width) <= |data|
    requires lo == RowOffset(row - 1, width) && hi == RowOffset(row, width)
    requires label0 == 1 + RowOffset(row - 1 - startRow, width)
    ensures lo <= hi
    ensures RowsUpTo(data, startRow, row, width)
         == RowsUpTo(data, startRow, row - 1, width) + RowPrefix(data, lo, hi, label0) + [LineBreak]
  {
    RowBoundsMono(row - 1, row, width);
  }

  /** The dump, for a positive width and a non-empty row range, is the flat
      stream of its Count bytes followed by one line break. */
  lemma DumpIsStream(data: seq<byte>, startRow: nat, endRow: nat, width: nat)
    requires Readable(|data|, startRow, endRow, width)
    requires width > 0 && startRow <= endRow
    ensures RowOffset(startRow, width) + Count(startRow, endRow, width) <= |data|
    ensures Dump(data, startRow, endRow, width)
         == Stream(data, RowOffset(startRow, width), RowBytes(width),
                   Count(startRow, endRow, width)) + [LineBreak]
  {
    var base, w2, n := RowOffset(startRow, width), RowBytes(width), Count(startRow, endRow, width);
    assert n == RowOffset(endRow + 1 - startRow, width);
    RowsAreStream(data, startRow, endRow + 1, width);
    var st := Stream(data, base, w2, n);
    var rows := RowsUpTo(data, startRow, endRow + 1, width);
    assert rows == st + [LineBreak];
    assert Dump(data, startRow, endRow, width) == rows;
  }

  /** A zero width prints one empty line per row. */
  lemma {:induction false} RowsOfZeroWidth(data: seq<byte>, startRow: nat, row: nat)
    requires startRow <= row
    ensures RowsUpTo(data, startRow, row, 0) == seq(row - startRow, _ => LineBreak)
    decreases row - startRow
  {
    if row > startRow {
      RowsOfZeroWidth(data, startRow, row - 1);
    }
  }

  /** With width 0 the dump is one line break per requested row and no byte. */
  lemma DumpOfZeroWidth(data: seq<byte>, startRow: nat, endRow: nat)
    requires Readable(|data|, startRow, endRow, 0)
    ensures Count(startRow, endRow, 0) == 0
    ensures Dump(data, startRow, endRow, 0)
         == seq(if startRow <= endRow then endRow + 1 - startRow else 0, _ => LineBreak)
  {
    if startRow <= endRow {
      RowsOfZeroWidth(data, startRow, endRow + 1);
    }
  }

  // ---------------------------------------------------------------------
  // Labels, order and coverage

  /** Cells distributes over concatenation. */
  lemma {:induction false} CellsAppend(a: seq<Token>, b: seq<Token>)
    ensures Cells(a + b) == Cells(a) + Cells(b)
    decreases |b|
  {
    if b == [] {
      assert a + b == a;
    } else {
      var ab, b0 := a + b, b[..|b| - 1];
      assert ab[..|ab| - 1] == a + b0;
      assert ab[|ab| - 1] == b[|b| - 1];
      CellsAppend(a, b0);
    }
  }

  /** The bytes of the flat stream are labelled 1..k in buffer order. */
  lemma {:induction false} StreamCells(data: seq<byte>, base: nat, rowLen: nat, k: nat)
    requires rowLen > 0 && base + k <= |data|
    ensures Cells(Stream(data, base, rowLen, k)) == Labelled(data, base, k)
    decreases k
  {
    if k > 0 {
      var k0 := k - 1;
      StreamCells(data, base, rowLen, k0);
      StreamStep(data, base, rowLen, k0);
      LabelledStep(data, base, k0);
      var prev := Stream(data, base, rowLen, k0);
      var brk := if BreakBefore(base, rowLen, k0) then [LineBreak] else [];
      var last := [Cell(k0 + 1, data[base + k0])];
      CellsAppend(prev + brk, last);
      CellsAppend(prev, brk);
      assert Cells(brk) == [] by {
        if brk != [] {
          assert brk[..0] == [];
        }
      }
      assert Cells(last) == last by {
        assert last[..0] == [];
      }
      var next := Stream(data, base, rowLen, k0 + 1);
      assert Cells(next) == Labelled(data, base, k0) + last;
      assert k0 + 1 == k;
      assert Stream(data, base, rowLen, k) == next;
    }
  }

  /** Labelled unfolded once. */
  lemma LabelledStep(data: seq<byte>, base: nat, n: nat)
    requires base + n + 1 <= |data|
    ensures Labelled(data, base, n + 1) == Labelled(data, base, n) + [Cell(n + 1, data[base + n])]
  {
    assert n + 1 - 1 == n && base + (n + 1) - 1 == base + n;
  }

  /** Labelled, element by element: the i-th printed byte is the byte at
      buffer index base + i, with label i + 1. */
  lemma {:induction false} LabelledAt(data: seq<byte>, base: nat, n: nat, i: nat)
    requires i < n && base + n <= |data|
    ensures Labelled(data, base, n)[i] == Cell(i + 1, data[base + i])
    decreases n
  {
    if i < n - 1 {
      LabelledAt(data, base, n - 1, i);
    } else {
      assert base + n - 1 == base + i;
    }
  }

  /** A run of line breaks prints no byte. */
  lemma {:induction false} LineBreaksHaveNoCells(n: nat)
    ensures Cells(seq(n, _ => LineBreak)) == []
  {
    if n > 0 {
      var s := seq(n, _ => LineBreak);
      assert s[..n - 1] == seq(n - 1, _ => LineBreak);
      LineBreaksHaveNoCells(n - 1);
    }
  }

  /** DumpCells for a positive width and a non-empty row range. */
  lemma StreamDumpCells(data: seq<byte>, startRow: nat, endRow: nat, width: nat)
    requires Readable(|data|, startRow, endRow, width) && width > 0 && startRow <= endRow
    ensures RowOffset(startRow, width) + Count(startRow, endRow, width) <= |data|
    ensures Cells(Dump(data, startRow, endRow, width))
         == Labelled(data, RowOffset(startRow, width), Count(startRow, endRow, width))
  {
    var base, n := RowOffset(startRow, width), Count(startRow, endRow, width);
    DumpIsStream(data, startRow, endRow, width);
    var st := Stream(data, base, RowBytes(width), n);
    CellsAppend(st, [LineBreak]);
    assert Cells([LineBreak]) == [] by {
      assert [LineBreak][..0] == [];
    }
    StreamCells(data, base, RowBytes(width), n);
    var cs := Cells(st + [LineBreak]);
    assert cs == Cells(st);
    assert Cells(Dump(data, startRow, endRow, width)) == cs;
  }

  /** DumpCells for width 0. */
  lemma ZeroWidthDumpCells(data: seq<byte>, startRow: nat, endRow: nat)
    requires Readable(|data|, startRow, endRow, 0)
    ensures Count(startRow, endRow, 0) == 0
    ensures Cells(Dump(data, startRow, endRow, 0)) == []
  {
    DumpOfZeroWidth(data, startRow, endRow);
    var rows := if startRow <= endRow then endRow + 1 - startRow else 0;
    LineBreaksHaveNoCells(rows);
    var breaks := seq(rows, _ => LineBreak);
    assert Dump(data, startRow, endRow, 0) == breaks;
  }

  /** The bytes printed, line breaks aside, are exactly those of rows
      startRow..endRow in buffer order, labelled 1, 2, ..., Count. */
  lemma DumpCells(data: seq<byte>, startRow: nat, endRow: nat, width: nat)
    requires Readable(|data|, startRow, endRow, width)
    ensures Count(startRow, endRow, width) == 0
            || RowOffset(startRow, width) + Count(startRow, endRow, width) <= |data|
    ensures Cells(Dump(data, startRow, endRow, width))
         == Labelled(data, RowOffset(startRow, width), Count(startRow, endRow, width))
  {
    var base, n := RowOffset(startRow, width), Count(startRow, endRow, width);
    if startRow > endRow || width == 0 {
      var none := Labelled(data, base, 0);
      assert none == [];
      if startRow > endRow {
        assert Dump(data, startRow, endRow, width) == [];
        assert n == 0;
      } else {
        ZeroWidthDumpCells(data, startRow, endRow);
      }
    } else {
      StreamDumpCells(data, startRow, endRow, width);
    }
  }

  /** Every row ends with a break and every byte at a multiple of 16 that does
      not open the dump is preceded by one, so among any 16 consecutive bytes
      after the first at least one starts a new line: no line of the dump
      holds more than 16 bytes. */
  lemma LinesHoldAtMost16(base: nat, rowLen: nat, k: nat)
    requires rowLen > 0 && k > 0
    ensures exists j :: k <= j < k + 16 && BreakBefore(base, rowLen, j)
  {
    var j := k + (16 - (base + k) % 16) % 16;
    AlignedMod(base + j);
    assert BreakBefore(base, rowLen, j);
  }
}
