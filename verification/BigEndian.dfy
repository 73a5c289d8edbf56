/** Byte strings and the fixed-width big-endian numbers of the MessagePack headers. */
module BigEndian {

  type Byte = b: int | 0 <= b < 256
  type Bytes = seq<Byte>

  const TWO_8 := 0x100
  const TWO_16 := 0x1_0000
  const TWO_32 := 0x1_0000_0000
  const TWO_64 := 0x1_0000_0000_0000_0000

  /** How many numbers `width` bytes can hold. */
  function Span(width: nat): (n: nat)
    ensures n > 0
  {
    if width == 0 then 1 else 256 * Span(width - 1)
  }

  lemma Spans()
    ensures Span(1) == TWO_8 && Span(2) == TWO_16 && Span(4) == TWO_32 && Span(8) == TWO_64
  {
    assert Span(2) == 256 * Span(1);
    assert Span(3) == 256 * Span(2);
    assert Span(4) == 256 * Span(3);
    assert Span(5) == 256 * Span(4);
    assert Span(6) == 256 * Span(5);
    assert Span(7) == 256 * Span(6);
    assert Span(8) == 256 * Span(7);
  }

  /** The low `width` bytes of `n`, most significant first. */
  function Write(n: nat, width: nat): (s: Bytes)
    ensures |s| == width
    decreases width
  {
    if width == 0 then [] else Write(n / 256, width - 1) + [n % 256]
  }

  function Read(s: Bytes): (n: nat)
    ensures n < Span(|s|)
  {
    if s == [] then 0 else 256 * Read(s[..|s| - 1]) + s[|s| - 1]
  }

  lemma {:induction false} ReadWrite(n: nat, width: nat)
    requires n < Span(width)
    ensures Read(Write(n, width)) == n
    decreases width
  {
    if width > 0 {
      var s := Write(n, width);
      assert s[..width - 1] == Write(n / 256, width - 1);
      ReadWrite(n / 256, width - 1);
    }
  }

  /** Every byte weighs 256 times the one after it. */
  lemma {:induction false} ReadFront(b: Byte, s: Bytes)
    ensures Read([b] + s) == b * Span(|s|) + Read(s)
    decreases |s|
  {
    if s == [] {
      assert [b] + s == [b] && [b][..0] == [];
    } else {
      var front, last := s[..|s| - 1], s[|s| - 1];
      ReadFront(b, front);
      assert ([b] + s)[..|s|] == [b] + front;
      Weigh(b, Span(|front|), Read(front), last);
    }
  }

  lemma Weigh(b: nat, span: nat, n: nat, last: nat)
    ensures 256 * (b * span + n) + last == b * (256 * span) + (256 * n + last)
  {
  }

  /** The numbers of one, two and four bytes. */
  lemma ReadShort(a: Byte, b: Byte, c: Byte, d: Byte)
    ensures Read([a]) == a
    ensures Read([a, b]) == 0x100 * a + b
    ensures Read([a, b, c, d]) == 0x100_0000 * a + 0x1_0000 * b + 0x100 * c + d
  {
    assert [a][..0] == [];
    assert [a, b][..1] == [a];
    assert [a, b, c][..2] == [a, b];
    assert [a, b, c, d][..3] == [a, b, c];
  }
}
