/** PINs: 32-bit numbers written as eight upper-case hexadecimal digits. */
module Pins {

  const PIN_LEN: nat := 8
  const PIN_COUNT: nat := 0x1_0000_0000

  type Digit = d: int | 0 <= d < 16

  function UpperDigit(d: Digit): char {
    if d < 10 then '0' + d as char else 'A' + (d - 10) as char
  }

  function LowerDigit(d: Digit): char {
    if d < 10 then '0' + d as char else 'a' + (d - 10) as char
  }

  predicate IsUpperHex(c: char) {
    '0' <= c <= '9' || 'A' <= c <= 'F'
  }

  predicate IsUpperHexText(s: string) {
    forall c | c in s :: IsUpperHex(c)
  }

  function DigitValue(c: char): Digit
    requires IsUpperHex(c)
  {
    if c <= '9' then (c - '0') as int else (c - 'A') as int + 10
  }

  lemma DigitRoundTrip(d: Digit)
    ensures IsUpperHex(UpperDigit(d)) && DigitValue(UpperDigit(d)) == d
  {
  }

  lemma DigitUnique(c: char)
    requires IsUpperHex(c)
    ensures UpperDigit(DigitValue(c)) == c
  {
  }

  // ---------------------------------------------------------------- fixed width

  function Span(width: nat): (n: nat)
    ensures n > 0
  {
    if width == 0 then 1 else 16 * Span(width - 1)
  }

  function HexText(n: nat, width: nat): (s: string)
    ensures |s| == width
    decreases width
  {
    if width == 0 then "" else HexText(n / 16, width - 1) + [UpperDigit(n % 16)]
  }

  function HexValue(s: string): (n: nat)
    requires IsUpperHexText(s)
    ensures n < Span(|s|)
  {
    if s == "" then 0 else 16 * HexValue(s[..|s| - 1]) + DigitValue(s[|s| - 1])
  }

  lemma {:induction false} ValueOfText(n: nat, width: nat)
    requires n < Span(width)
    ensures IsUpperHexText(HexText(n, width)) && HexValue(HexText(n, width)) == n
    decreases width
  {
    if width > 0 {
      ValueOfText(n / 16, width - 1);
      DigitRoundTrip(n % 16);
      assert HexText(n, width)[..width - 1] == HexText(n / 16, width - 1);
    }
  }

  lemma TextSnoc(n: nat, d: Digit, width: nat)
    ensures HexText(16 * n + d, width + 1) == HexText(n, width) + [UpperDigit(d)]
  {
    assert (16 * n + d) / 16 == n && (16 * n + d) % 16 == d;
  }

  lemma ValueSnoc(front: string, c: char)
    requires IsUpperHexText(front) && IsUpperHex(c)
    ensures IsUpperHexText(front + [c]) && HexValue(front + [c]) == 16 * HexValue(front) + DigitValue(c)
  {
    var s := front + [c];
    assert s[..|s| - 1] == front;
  }

  lemma {:induction false} TextOfSnoc(front: string, c: char)
    requires IsUpperHexText(front) && IsUpperHex(c)
    requires HexText(HexValue(front), |front|) == front
    ensures IsUpperHexText(front + [c]) && HexText(HexValue(front + [c]), |front| + 1) == front + [c]
  {
    DigitUnique(c);
    ValueSnoc(front, c);
    TextSnoc(HexValue(front), DigitValue(c), |front|);
  }

  lemma {:induction false} TextOfValue(s: string)
    requires IsUpperHexText(s)
    ensures HexText(HexValue(s), |s|) == s
    decreases |s|
  {
    if s != "" {
      var front, c := s[..|s| - 1], s[|s| - 1];
      assert s == front + [c];
      TextOfValue(front);
      TextOfSnoc(front, c);
    }
  }

  lemma PinSpan()
    ensures Span(PIN_LEN) == PIN_COUNT
  {
    assert Span(2) == 256;
    assert Span(4) == 256 * Span(2);
    assert Span(6) == 256 * Span(4);
    assert Span(8) == 256 * Span(6);
  }

  function PinText(pin: nat): (s: string)
    ensures |s| == PIN_LEN
  {
    HexText(pin, PIN_LEN)
  }

  /** Numbers to PINs is one to one ... */
  lemma PinRoundTrip(pin: nat)
    requires pin < PIN_COUNT
    ensures IsUpperHexText(PinText(pin)) && HexValue(PinText(pin)) == pin
  {
    PinSpan();
    ValueOfText(pin, PIN_LEN);
  }

  /** ... and onto: every eight-digit text is the PIN of exactly one number. */
  lemma PinOnto(s: string)
    requires |s| == PIN_LEN && IsUpperHexText(s)
    ensures HexValue(s) < PIN_COUNT && PinText(HexValue(s)) == s
  {
    PinSpan();
    TextOfValue(s);
  }

  lemma PinInjective(a: nat, b: nat)
    requires a < PIN_COUNT && b < PIN_COUNT
    ensures PinText(a) == PinText(b) <==> a == b
  {
    PinRoundTrip(a);
    PinRoundTrip(b);
  }

  /** Digit by digit: the most significant first. */
  lemma {:induction false} DigitAt(n: nat, width: nat, k: nat)
    requires k < width
    ensures HexText(n, width)[k] == "0123456789ABCDEF"[(n / Span(width - 1 - k)) % 16]
    decreases width
  {
    if k == width - 1 {
      DigitInTable(n % 16);
    } else {
      DigitAt(n / 16, width - 1, k);
      DivideTwice(n, Span(width - 2 - k));
    }
  }

  lemma DivideTwice(n: nat, span: nat)
    requires span > 0
    ensures n / 16 / span == n / (16 * span)
  {
    var q, r := n / 16, n % 16;
    var a, b := q / span, q % span;
    assert n == 16 * (span * a + b) + r == (16 * span) * a + (16 * b + r);
    assert 16 * b + r < 16 * span;
    QuotientIs(n, 16 * span, a, 16 * b + r);
  }

  lemma QuotientIs(n: nat, d: nat, q: nat, r: nat)
    requires n == d * q + r && r < d
    ensures n / d == q
  {
    var q' := n / d;
    assert n == d * q' + n % d;
    if q' < q { TimesMonotone(d, q' + 1, q); }
    if q < q' { TimesMonotone(d, q + 1, q'); }
  }

  lemma TimesMonotone(d: nat, a: nat, b: nat)
    requires a <= b
    ensures d * a <= d * b
  {
  }

  lemma DigitInTable(d: Digit)
    ensures UpperDigit(d) == "0123456789ABCDEF"[d]
  {
  }

  /** The eight digits of a PIN. */
  lemma PinDigits(pin: nat, k: nat)
    requires pin < PIN_COUNT && k < 8
    ensures PinText(pin)[k] == "0123456789ABCDEF"[(pin / Span(7 - k)) % 16]
  {
    DigitAt(pin, PIN_LEN, k);
  }

  // ---------------------------------------------------------------- as the stream writes it

  /** std::hex without a width: no leading zeros. */
  function LowerHex(n: nat): (s: string)
    ensures 0 < |s|
  {
    if n < 16 then [LowerDigit(n)] else LowerHex(n / 16) + [LowerDigit(n % 16)]
  }

  /** std::setw with std::setfill('0'). */
  function Padded(s: string, width: nat): (r: string)
    ensures |s| <= width ==> |r| == width
  {
    if |s| < width then seq(width - |s|, _ => '0') + s else s
  }

  function ToUpper(c: char): char {
    if 'a' <= c <= 'z' then c - 'a' + 'A' else c
  }

  function Uppered(s: string): (r: string)
    ensures |r| == |s|
  {
    seq(|s|, i requires 0 <= i < |s| => ToUpper(s[i]))
  }

  lemma UpperOfLower(d: Digit)
    ensures ToUpper(LowerDigit(d)) == UpperDigit(d)
  {
  }

  lemma UpperedSnoc(s: string, d: Digit)
    ensures Uppered(s + [LowerDigit(d)]) == Uppered(s) + [UpperDigit(d)]
  {
    UpperOfLower(d);
  }

  lemma PaddedSnoc(s: string, c: char, width: nat)
    requires |s| < width
    ensures Padded(s + [c], width) == Padded(s, width - 1) + [c]
  {
  }

  /** Padding alone is the text of zero. */
  lemma {:induction false} HexZero(width: nat)
    ensures Uppered(Padded("", width)) == HexText(0, width)
    decreases width
  {
    if width > 0 {
      HexZero(width - 1);
      assert Padded("", width) == Padded("", width - 1) + [LowerDigit(0)];
      UpperedSnoc(Padded("", width - 1), 0);
    }
  }

  /** The stream's text, padded and raised to upper case, is the fixed-width text. */
  lemma {:induction false} StreamText(n: nat, width: nat)
    requires 0 < width && n < Span(width)
    ensures |LowerHex(n)| <= width
    ensures Uppered(Padded(LowerHex(n), width)) == HexText(n, width)
    decreases width
  {
    var m, d := n / 16, n % 16;
    var front := if n < 16 then "" else LowerHex(m);
    if n < 16 {
      HexZero(width - 1);
      assert front + [LowerDigit(d)] == LowerHex(n);
    } else {
      assert width > 1 by { assert Span(1) == 16; }
      StreamText(m, width - 1);
    }
    PaddedSnoc(front, LowerDigit(d), width);
    UpperedSnoc(Padded(front, width - 1), d);
  }

  /** std::transform with ::toupper, in place. */
  method UpperInPlace(chars: array<char>)
    modifies chars
    ensures chars[..] == Uppered(old(chars[..]))
  {
    for i := 0 to chars.Length
      invariant forall j :: 0 <= j < i ==> chars[j] == ToUpper(old(chars[j]))
      invariant forall j :: i <= j < chars.Length ==> chars[j] == old(chars[j])
    {
      chars[i] := ToUpper(chars[i]);
    }
  }

  /** `Bin::random_pin`, given the number that was drawn. */
  method RandomPin(pin: nat) returns (s: string)
    requires pin < PIN_COUNT
    ensures s == PinText(pin)
  {
    var text := Padded(LowerHex(pin), PIN_LEN);
    var chars := new char[|text|](i requires 0 <= i < |text| => text[i]);
    assert chars[..] == text;
    UpperInPlace(chars);
    s := chars[..];
    PinSpan();
    StreamText(pin, PIN_LEN);
  }
}
