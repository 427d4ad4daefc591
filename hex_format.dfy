/** The text of the dump: printf("[%04d] %02X ", label, byte) for a printed
    byte and std::endl for a line break. The label is a uint32_t passed where
    %d expects an int, so it is printed as the 32-bit value read as signed. */
module HexFormat {
  import opened Bytes
  import opened HexDump

  /** 2^31: the first uint32_t value that %d shows as negative. */
  const IntLimit: nat := 0x8000_0000

  // ---------------------------------------------------------------------
  // Digits

  /** The decimal digit d. */
  function DigitChar(d: nat): (c: char)
    requires d < 10
    ensures '0' <= c <= '9'
  {
    (48 + d) as char
  }

  function DigitValue(c: char): nat
    requires '0' <= c <= '9'
  {
    c as nat - 48
  }

  predicate AllDigits(s: string)
  {
    forall i :: 0 <= i < |s| ==> '0' <= s[i] <= '9'
  }

  /** The value of a string of decimal digits, most significant first. */
  function ParseDecimal(s: string): nat
    requires AllDigits(s)
    decreases |s|
  {
    if s == [] then 0 else 10 * ParseDecimal(s[..|s| - 1]) + DigitValue(s[|s| - 1])
  }

  /** n in decimal without leading zeros ("0" for zero), as %d prints a
      non-negative int. */
  function Decimal(n: nat): (s: string)
    ensures |s| >= 1 && AllDigits(s)
    ensures |s| > 1 ==> s[0] != '0'
    decreases n
  {
    if n < 10 then [DigitChar(n)] else Decimal(n / 10) + [DigitChar(n % 10)]
  }

  /** s left-padded with '0' to at least w characters: the 0 flag and field width. */
  function ZeroPad(s: string, w: nat): (p: string)
    ensures |p| == if |s| >= w then |s| else w
    ensures p[|p| - |s|..] == s
    ensures forall i :: 0 <= i < |p| - |s| ==> p[i] == '0'
  {
    if |s| >= w then s else Zeros(w - |s|) + s
  }

  function Zeros(k: nat): (z: string)
    ensures |z| == k && forall i :: 0 <= i < k ==> z[i] == '0'
  {
    seq(k, _ => '0')
  }

  /** %04d of the label: the uint32_t value read as an int, then zero-padded
      to four characters, the sign counting towards the width. */
  function LabelText(v: u32): string
  {
    if v < IntLimit then ZeroPad(Decimal(v), 4)
    else ['-'] + ZeroPad(Decimal(Word - v), 3)
  }

  /** The hexadecimal digit d, upper case. */
  function HexDigit(d: nat): (c: char)
    requires d < 16
    ensures '0' <= c <= '9' || 'A' <= c <= 'F'
  {
    if d < 10 then (48 + d) as char else (55 + d) as char
  }

  function HexValue(c: char): nat
    requires '0' <= c <= '9' || 'A' <= c <= 'F'
  {
    if c <= '9' then c as nat - 48 else c as nat - 55
  }

  /** %02X of a byte. */
  function HexByte(b: byte): string
  {
    [HexDigit(b / 16), HexDigit(b % 16)]
  }

  // ---------------------------------------------------------------------
  // Tokens to text

  /** The text of one token. */
  function TokenText(t: Token): string
  {
    match t
    case Cell(position, value) =>
      "[" + LabelText(Wrap32(position)) + "] " + HexByte(value) + " "
    case LineBreak => "\n"
  }

  /** The text of a token sequence. */
  function Render(ts: seq<Token>): string
    decreases |ts|
  {
    if ts == [] then "" else Render(ts[..|ts| - 1]) + TokenText(ts[|ts| - 1])
  }

  // ---------------------------------------------------------------------
  // Properties

  /** Both digits of %02X are upper-case hexadecimal and read back as the byte. */
  lemma HexByteRoundTrip(b: byte)
    ensures |HexByte(b)| == 2
    ensures forall i :: 0 <= i < 2 ==> '0' <= HexByte(b)[i] <= '9' || 'A' <= HexByte(b)[i] <= 'F'
    ensures 16 * HexValue(HexByte(b)[0]) + HexValue(HexByte(b)[1]) == b
  {
  }

  /** Reading the last digit off a digit string. */
  lemma ParseSnoc(s: string, c: char)
    requires AllDigits(s) && '0' <= c <= '9'
    ensures AllDigits(s + [c])
    ensures ParseDecimal(s + [c]) == 10 * ParseDecimal(s) + DigitValue(c)
  {
    assert (s + [c])[..|s + [c]| - 1] == s;
  }

  /** Decimal is read back by ParseDecimal. */
  lemma {:induction false} DecimalRoundTrip(n: nat)
    ensures ParseDecimal(Decimal(n)) == n
    decreases n
  {
    if n < 10 {
      var s := [DigitChar(n)];
      assert s[..0] == [];
    } else {
      DecimalRoundTrip(n / 10);
      ParseSnoc(Decimal(n / 10), DigitChar(n % 10));
    }
  }

  /** Leading zeros do not change the value. */
  lemma {:induction false} ParseLeadingZero(s: string)
    requires AllDigits(s)
    ensures AllDigits(['0'] + s) && ParseDecimal(['0'] + s) == ParseDecimal(s)
    decreases |s|
  {
    if s == [] {
      assert (['0'] + s)[..0] == [];
    } else {
      var init := s[..|s| - 1];
      ParseLeadingZero(init);
      var z := ['0'] + s;
      assert z[..|z| - 1] == ['0'] + init;
      assert z[|z| - 1] == s[|s| - 1];
    }
  }

  /** Any number of leading zeros leaves the value unchanged. */
  lemma {:induction false} ParseZeros(k: nat, s: string)
    requires AllDigits(s)
    ensures AllDigits(Zeros(k) + s) && ParseDecimal(Zeros(k) + s) == ParseDecimal(s)
    decreases k
  {
    if k > 0 {
      var rest := Zeros(k - 1) + s;
      ParseZeros(k - 1, s);
      ParseLeadingZero(rest);
      assert Zeros(k) == ['0'] + Zeros(k - 1);
      assert Zeros(k) + s == ['0'] + rest;
    } else {
      assert Zeros(k) + s == s;
    }
  }

  /** Zero padding keeps the value. */
  lemma ZeroPadValue(s: string, w: nat)
    requires AllDigits(s)
    ensures AllDigits(ZeroPad(s, w)) && ParseDecimal(ZeroPad(s, w)) == ParseDecimal(s)
  {
    if |s| < w {
      ParseZeros(w - |s|, s);
    }
  }

  /** A label that %d shows as non-negative is at least four digits and reads
      back as the label. */
  lemma LabelRoundTrip(v: u32)
    requires v < IntLimit
    ensures |LabelText(v)| >= 4 && AllDigits(LabelText(v))
    ensures ParseDecimal(LabelText(v)) == v
  {
    DecimalRoundTrip(v);
    ZeroPadValue(Decimal(v), 4);
  }

  /** A label of 2^31 or more is shown as a negative number: a minus sign and
      at least three digits that read as 2^32 - v. */
  lemma NegativeLabel(v: u32)
    requires v >= IntLimit
    ensures |LabelText(v)| >= 4 && LabelText(v)[0] == '-'
    ensures AllDigits(LabelText(v)[1..])
    ensures ParseDecimal(LabelText(v)[1..]) == Word - v
  {
    DecimalRoundTrip(Word - v);
    ZeroPadValue(Decimal(Word - v), 3);
    assert LabelText(v)[1..] == ZeroPad(Decimal(Word - v), 3);
  }

  /** The label field holds digits and at most a leading minus sign. */
  lemma LabelNoNewline(v: u32)
    ensures |LabelText(v)| >= 4 && '\n' !in LabelText(v)
  {
    if v < IntLimit {
      PositiveLabelNoNewline(v);
    } else {
      NegativeLabelNoNewline(v);
    }
  }

  lemma PositiveLabelNoNewline(v: u32)
    requires v < IntLimit
    ensures |LabelText(v)| >= 4 && '\n' !in LabelText(v)
  {
    LabelRoundTrip(v);
    DigitsNoNewline(LabelText(v));
  }

  lemma NegativeLabelNoNewline(v: u32)
    requires v >= IntLimit
    ensures |LabelText(v)| >= 4 && '\n' !in LabelText(v)
  {
    NegativeLabel(v);
    var text := LabelText(v);
    DigitsNoNewline(text[1..]);
    SignedNoNewline(text);
  }

  lemma DigitsNoNewline(s: string)
    requires AllDigits(s)
    ensures '\n' !in s
  {
  }

  lemma SignedNoNewline(s: string)
    requires |s| >= 1 && s[0] == '-' && '\n' !in s[1..]
    ensures '\n' !in s
  {
    assert s == [s[0]] + s[1..];
  }

  /** A printed byte is "[", the label of at least four characters, "] ",
      the two hex digits and a space: at least ten characters and no line
      break. */
  lemma CellTextShape(position: nat, value: byte)
    ensures var t := TokenText(Cell(position, value));
            |t| == |LabelText(Wrap32(position))| + 6 >= 10 && '\n' !in t
    ensures var t := TokenText(Cell(position, value));
            |t| >= 10 && t[0] == '[' && t[1..|t| - 5] == LabelText(Wrap32(position))
            && t[|t| - 5..|t| - 3] == "] " && t[|t| - 3..|t| - 1] == HexByte(value) && t[|t| - 1] == ' '
  {
    var lab, hex := LabelText(Wrap32(position)), HexByte(value);
    LabelNoNewline(Wrap32(position));
    HexByteRoundTrip(value);
    assert '\n' !in hex;
    var t := TokenText(Cell(position, value));
    assert t == "[" + lab + "] " + hex + " ";
    CellTextParts(lab, hex);
  }

  /** The parts of "[" + lab + "] " + hex + " " for a two-character hex. */
  lemma CellTextParts(lab: string, hex: string)
    requires |hex| == 2 && '\n' !in lab && '\n' !in hex
    ensures var t := "[" + lab + "] " + hex + " ";
            |t| == |lab| + 6 && '\n' !in t && t[0] == '[' && t[1..|t| - 5] == lab
            && t[|t| - 5..|t| - 3] == "] " && t[|t| - 3..|t| - 1] == hex && t[|t| - 1] == ' '
  {
  }

  /** Render unfolded once, for s == ts + [t]. */
  lemma RenderStep(s: seq<Token>, ts: seq<Token>, t: Token)
    requires s == ts + [t]
    ensures Render(s) == Render(ts) + TokenText(t)
  {
    assert s[..|s| - 1] == ts && s[|s| - 1] == t;
  }

  /** Rendering is compositional. */
  lemma {:induction false} RenderAppend(a: seq<Token>, b: seq<Token>)
    ensures Render(a + b) == Render(a) + Render(b)
    decreases |b|
  {
    if b == [] {
      assert a + b == a;
    } else {
      var init, last := b[..|b| - 1], b[|b| - 1];
      assert b == init + [last];
      assert a + b == (a + init) + [last];
      RenderAppend(a, init);
      RenderStep(a + b, a + init, last);
      RenderStep(b, init, last);
      TextAssoc(Render(a + b), Render(a + init), Render(a), Render(init), Render(b), TokenText(last));
    }
  }

  /** String bookkeeping for RenderAppend. */
  lemma TextAssoc(ab: string, ai: string, ra: string, ri: string, rb: string, tail: string)
    requires ai == ra + ri && ab == ai + tail && rb == ri + tail
    ensures ab == ra + rb
  {
  }

  /** The number of line breaks among the tokens. */
  function Breaks(ts: seq<Token>): nat
    decreases |ts|
  {
    if ts == [] then 0 else Breaks(ts[..|ts| - 1]) + (if ts[|ts| - 1].LineBreak? then 1 else 0)
  }

  /** The number of newline characters in a text. */
  function Newlines(s: string): nat
    decreases |s|
  {
    if s == [] then 0 else Newlines(s[..|s| - 1]) + (if s[|s| - 1] == '\n' then 1 else 0)
  }

  lemma {:induction false} NewlinesAppend(a: string, b: string)
    ensures Newlines(a + b) == Newlines(a) + Newlines(b)
    decreases |b|
  {
    if b == [] {
      assert a + b == a;
    } else {
      var ab := a + b;
      assert ab[..|ab| - 1] == a + b[..|b| - 1];
      assert ab[|ab| - 1] == b[|b| - 1];
      NewlinesAppend(a, b[..|b| - 1]);
    }
  }

  lemma {:induction false} NoNewlines(s: string)
    requires '\n' !in s
    ensures Newlines(s) == 0
    decreases |s|
  {
    if s != [] {
      assert s[|s| - 1] != '\n';
      assert forall i :: 0 <= i < |s| - 1 ==> s[..|s| - 1][i] == s[i];
      NoNewlines(s[..|s| - 1]);
    }
  }

  /** The text has exactly one newline per LineBreak token: a printed byte
      never contains one. */
  lemma {:induction false} RenderNewlines(ts: seq<Token>)
    ensures Newlines(Render(ts)) == Breaks(ts)
    decreases |ts|
  {
    if ts != [] {
      var init, last := ts[..|ts| - 1], ts[|ts| - 1];
      RenderNewlines(init);
      NewlinesAppend(Render(init), TokenText(last));
      match last
      case Cell(position, value) =>
        CellTextShape(position, value);
        NoNewlines(TokenText(last));
      case LineBreak =>
        assert TokenText(last) == "\n";
        assert "\n"[..0] == "";
    }
  }
}
