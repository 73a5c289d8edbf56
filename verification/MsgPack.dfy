/**
 The MessagePack format, as the packer writes it and the unpacker reads it.

 Every value starts with a head: one marker byte, for some markers followed by a
 big-endian number and an extension tag. A body of raw bytes or of nested values
 comes after it. Printing and parsing are split the same way.
 */
module MsgPack {
  import opened BigEndian

  datatype Value =
    | Nil
    | Boolean(b: bool)
    | Integer(n: int)
    | Float(bits: Bytes)
    | Str(text: Bytes)
    | Bin(data: Bytes)
    | Ext(tag: Byte, body: Bytes)
    | Array(items: seq<Value>)
    | Map(entries: seq<Entry>)

  datatype Entry = Entry(key: Value, val: Value)

  /** What the format can carry. */
  predicate Valid(v: Value) {
    match v
    case Nil => true
    case Boolean(_) => true
    case Integer(n) => -(TWO_64 / 2) <= n < TWO_64
    case Float(bits) => |bits| == 4 || |bits| == 8
    case Str(text) => |text| < TWO_32
    case Bin(data) => |data| < TWO_32
    case Ext(_, body) => |body| < TWO_32
    case Array(items) => |items| < TWO_32 && forall x | x in items :: Valid(x)
    case Map(entries) => |entries| < TWO_32 && forall e | e in entries :: Valid(e.key) && Valid(e.val)
  }

  // ---------------------------------------------------------------- heads

  datatype Head =
    | NilHead
    | BooleanHead(b: bool)
    | IntegerHead(n: int)
    | FloatHead(size: nat)
    | StrHead(size: nat)
    | BinHead(size: nat)
    | ExtHead(size: nat, tag: Byte)
    | ArrayHead(size: nat)
    | MapHead(size: nat)

  predicate ValidHead(h: Head) {
    match h
    case NilHead => true
    case BooleanHead(_) => true
    case IntegerHead(n) => -(TWO_64 / 2) <= n < TWO_64
    case FloatHead(size) => size == 4 || size == 8
    case StrHead(size) => size < TWO_32
    case BinHead(size) => size < TWO_32
    case ExtHead(size, _) => size < TWO_32
    case ArrayHead(size) => size < TWO_32
    case MapHead(size) => size < TWO_32
  }

  /** The integer format family: the packer takes the shortest form. */
  function WriteInteger(n: int): Bytes
    requires -(TWO_64 / 2) <= n < TWO_64
  {
    if n < -0x8000_0000 then [0xd3] + Write(n + TWO_64, 8)
    else if n < -0x8000 then [0xd2] + Write(n + TWO_32, 4)
    else if n < -0x80 then [0xd1] + Write(n + TWO_16, 2)
    else if n < -0x20 then [0xd0] + Write(n + TWO_8, 1)
    else if n < 0 then [n + TWO_8]
    else if n < 0x80 then [n]
    else if n < TWO_8 then [0xcc] + Write(n, 1)
    else if n < TWO_16 then [0xcd] + Write(n, 2)
    else if n < TWO_32 then [0xce] + Write(n, 4)
    else [0xcf] + Write(n, 8)
  }

  function WriteStrHead(size: nat): Bytes {
    if size < 0x20 then [0xa0 + size]
    else if size < TWO_8 then [0xd9] + Write(size, 1)
    else if size < TWO_16 then [0xda] + Write(size, 2)
    else [0xdb] + Write(size, 4)
  }

  function WriteBinHead(size: nat): Bytes {
    if size < TWO_8 then [0xc4] + Write(size, 1)
    else if size < TWO_16 then [0xc5] + Write(size, 2)
    else [0xc6] + Write(size, 4)
  }

  function WriteExtHead(size: nat, tag: Byte): Bytes {
    if size == 1 then [0xd4, tag]
    else if size == 2 then [0xd5, tag]
    else if size == 4 then [0xd6, tag]
    else if size == 8 then [0xd7, tag]
    else if size == 16 then [0xd8, tag]
    else if size < TWO_8 then [0xc7] + Write(size, 1) + [tag]
    else if size < TWO_16 then [0xc8] + Write(size, 2) + [tag]
    else [0xc9] + Write(size, 4) + [tag]
  }

  function WriteArrayHead(size: nat): Bytes {
    if size < 0x10 then [0x90 + size]
    else if size < TWO_16 then [0xdc] + Write(size, 2)
    else [0xdd] + Write(size, 4)
  }

  function WriteMapHead(size: nat): Bytes {
    if size < 0x10 then [0x80 + size]
    else if size < TWO_16 then [0xde] + Write(size, 2)
    else [0xdf] + Write(size, 4)
  }

  function WriteHead(h: Head): Bytes
    requires ValidHead(h)
  {
    match h
    case NilHead => [0xc0]
    case BooleanHead(b) => [if b then 0xc3 else 0xc2]
    case IntegerHead(n) => WriteInteger(n)
    case FloatHead(size) => [if size == 4 then 0xca else 0xcb]
    case StrHead(size) => WriteStrHead(size)
    case BinHead(size) => WriteBinHead(size)
    case ExtHead(size, tag) => WriteExtHead(size, tag)
    case ArrayHead(size) => WriteArrayHead(size)
    case MapHead(size) => WriteMapHead(size)
  }

  /** A parse consumes a prefix and leaves `rest`; `Bad` is the unpacker's error. */
  datatype Parsed<+T> = Bad | Got(value: T, rest: Bytes)

  datatype Family = StrFamily | BinFamily | ArrayFamily | MapFamily

  /** What a marker byte announces: the whole head, or where its number stands. */
  datatype Form =
    | Invalid
    | Whole(head: Head)
    | Unsigned(width: nat)
    | Signed(width: nat)
    | Sized(family: Family, width: nat)
    | FixedExt(size: nat)
    | SizedExt(width: nat)

  predicate ValidForm(form: Form) {
    match form
    case Invalid => true
    case Whole(head) => ValidHead(head)
    case FixedExt(size) => size < TWO_32
    case Unsigned(width) => width in {1, 2, 4, 8}
    case Signed(width) => width in {1, 2, 4, 8}
    case Sized(_, width) => width in {1, 2, 4}
    case SizedExt(width) => width in {1, 2, 4}
  }

  function FormOf(c: Byte): (form: Form)
    ensures ValidForm(form)
  {
    if c < 0x80 then Whole(IntegerHead(c))
    else if c < 0x90 then Whole(MapHead(c - 0x80))
    else if c < 0xa0 then Whole(ArrayHead(c - 0x90))
    else if c < 0xc0 then Whole(StrHead(c - 0xa0))
    else if c >= 0xe0 then Whole(IntegerHead(c - 0x100))
    else match c
      case 0xc0 => Whole(NilHead)
      case 0xc1 => Invalid
      case 0xc2 => Whole(BooleanHead(false))
      case 0xc3 => Whole(BooleanHead(true))
      case 0xc4 => Sized(BinFamily, 1)
      case 0xc5 => Sized(BinFamily, 2)
      case 0xc6 => Sized(BinFamily, 4)
      case 0xc7 => SizedExt(1)
      case 0xc8 => SizedExt(2)
      case 0xc9 => SizedExt(4)
      case 0xca => Whole(FloatHead(4))
      case 0xcb => Whole(FloatHead(8))
      case 0xcc => Unsigned(1)
      case 0xcd => Unsigned(2)
      case 0xce => Unsigned(4)
      case 0xcf => Unsigned(8)
      case 0xd0 => Signed(1)
      case 0xd1 => Signed(2)
      case 0xd2 => Signed(4)
      case 0xd3 => Signed(8)
      case 0xd4 => FixedExt(1)
      case 0xd5 => FixedExt(2)
      case 0xd6 => FixedExt(4)
      case 0xd7 => FixedExt(8)
      case 0xd8 => FixedExt(16)
      case 0xd9 => Sized(StrFamily, 1)
      case 0xda => Sized(StrFamily, 2)
      case 0xdb => Sized(StrFamily, 4)
      case 0xdc => Sized(ArrayFamily, 2)
      case 0xdd => Sized(ArrayFamily, 4)
      case 0xde => Sized(MapFamily, 2)
      case _ => Sized(MapFamily, 4)
  }

  function SizedHead(family: Family, size: nat): Head {
    match family
    case StrFamily => StrHead(size)
    case BinFamily => BinHead(size)
    case ArrayFamily => ArrayHead(size)
    case MapFamily => MapHead(size)
  }

  function ReadNumber(s: Bytes, width: nat): (r: Parsed<nat>)
    ensures r.Got? ==> |r.rest| == |s| - width && r.value < Span(width)
  {
    if width <= |s| then Got(Read(s[..width]), s[width..]) else Bad
  }

  /** Two's complement of `width` bytes. */
  function SignExtend(n: nat, width: nat): int {
    if 2 * n < Span(width) then n else n - Span(width)
  }

  function ReadTag(s: Bytes, size: nat): Parsed<Head> {
    if s == [] then Bad else Got(ExtHead(size, s[0]), s[1..])
  }

  /** The head announced by `form`; `s` is the input after the marker. */
  function ReadForm(form: Form, s: Bytes): (r: Parsed<Head>)
    requires ValidForm(form)
    ensures r.Got? ==> |r.rest| <= |s| && ValidHead(r.value)
  {
    Spans();
    match form
    case Invalid => Bad
    case Whole(head) => Got(head, s)
    case Unsigned(width) =>
      (match ReadNumber(s, width) case Bad => Bad case Got(n, rest) => Got(IntegerHead(n), rest))
    case Signed(width) =>
      (match ReadNumber(s, width) case Bad => Bad case Got(n, rest) => Got(IntegerHead(SignExtend(n, width)), rest))
    case Sized(family, width) =>
      (match ReadNumber(s, width) case Bad => Bad case Got(n, rest) => Got(SizedHead(family, n), rest))
    case FixedExt(size) => ReadTag(s, size)
    case SizedExt(width) =>
      (match ReadNumber(s, width) case Bad => Bad case Got(n, rest) => ReadTag(rest, n))
  }

  function ReadHead(s: Bytes): (r: Parsed<Head>)
    ensures r.Got? ==> |r.rest| < |s| && ValidHead(r.value)
  {
    if s == [] then Bad else ReadForm(FormOf(s[0]), s[1..])
  }

  lemma NumberRoundTrip(n: nat, width: nat, tail: Bytes)
    requires n < Span(width)
    ensures ReadNumber(Write(n, width) + tail, width) == Got(n, tail)
  {
    var s := Write(n, width);
    assert (s + tail)[..width] == s;
    assert (s + tail)[width..] == tail;
    ReadWrite(n, width);
  }

  /** Every head is read back exactly, whatever bytes follow it. */
  lemma HeadRoundTrip(h: Head, tail: Bytes)
    requires ValidHead(h)
    ensures ReadHead(WriteHead(h) + tail) == Got(h, tail)
  {
    match h {
      case NilHead => WholeRoundTrip(0xc0, h, tail);
      case BooleanHead(b) => WholeRoundTrip(if b then 0xc3 else 0xc2, h, tail);
      case FloatHead(size) => WholeRoundTrip(if size == 4 then 0xca else 0xcb, h, tail);
      case IntegerHead(n) => IntegerRoundTrip(n, tail);
      case ExtHead(size, tag) => ExtHeadRoundTrip(size, tag, tail);
      case StrHead(size) => StrHeadRoundTrip(size, tail);
      case BinHead(size) => BinHeadRoundTrip(size, tail);
      case ArrayHead(size) => ArrayHeadRoundTrip(size, tail);
      case MapHead(size) => MapHeadRoundTrip(size, tail);
    }
  }

  lemma StrHeadRoundTrip(size: nat, tail: Bytes)
    requires size < TWO_32
    ensures ReadHead(WriteStrHead(size) + tail) == Got(StrHead(size), tail)
  {
    if size < 0x20 { WholeRoundTrip(0xa0 + size, StrHead(size), tail); }
    else if size < TWO_8 { SizedRoundTrip(0xd9, StrFamily, size, 1, tail); }
    else if size < TWO_16 { SizedRoundTrip(0xda, StrFamily, size, 2, tail); }
    else { SizedRoundTrip(0xdb, StrFamily, size, 4, tail); }
  }

  lemma BinHeadRoundTrip(size: nat, tail: Bytes)
    requires size < TWO_32
    ensures ReadHead(WriteBinHead(size) + tail) == Got(BinHead(size), tail)
  {
    if size < TWO_8 { SizedRoundTrip(0xc4, BinFamily, size, 1, tail); }
    else if size < TWO_16 { SizedRoundTrip(0xc5, BinFamily, size, 2, tail); }
    else { SizedRoundTrip(0xc6, BinFamily, size, 4, tail); }
  }

  lemma ArrayHeadRoundTrip(size: nat, tail: Bytes)
    requires size < TWO_32
    ensures ReadHead(WriteArrayHead(size) + tail) == Got(ArrayHead(size), tail)
  {
    if size < 0x10 { WholeRoundTrip(0x90 + size, ArrayHead(size), tail); }
    else if size < TWO_16 { SizedRoundTrip(0xdc, ArrayFamily, size, 2, tail); }
    else { SizedRoundTrip(0xdd, ArrayFamily, size, 4, tail); }
  }

  lemma MapHeadRoundTrip(size: nat, tail: Bytes)
    requires size < TWO_32
    ensures ReadHead(WriteMapHead(size) + tail) == Got(MapHead(size), tail)
  {
    if size < 0x10 { WholeRoundTrip(0x80 + size, MapHead(size), tail); }
    else if size < TWO_16 { SizedRoundTrip(0xde, MapFamily, size, 2, tail); }
    else { SizedRoundTrip(0xdf, MapFamily, size, 4, tail); }
  }

  /** The markers that are a whole head by themselves. */
  lemma WholeRoundTrip(c: Byte, h: Head, tail: Bytes)
    requires FormOf(c) == Whole(h)
    ensures ReadHead([c] + tail) == Got(h, tail)
  {
    assert ([c] + tail)[1..] == tail;
  }

  lemma {:induction false} SizedRoundTrip(c: Byte, family: Family, size: nat, width: nat, tail: Bytes)
    requires FormOf(c) == Sized(family, width)
    requires (width == 1 ==> size < TWO_8) && (width == 2 ==> size < TWO_16) && size < TWO_32
    ensures ReadHead([c] + Write(size, width) + tail) == Got(SizedHead(family, size), tail)
  {
    Spans();
    assert ([c] + Write(size, width) + tail)[1..] == Write(size, width) + tail;
    NumberRoundTrip(size, width, tail);
  }

  lemma IntegerRoundTrip(n: int, tail: Bytes)
    requires -(TWO_64 / 2) <= n < TWO_64
    ensures ReadHead(WriteInteger(n) + tail) == Got(IntegerHead(n), tail)
  {
    if n < -0x20 {
      NegativeRoundTrip(n, tail);
    } else if n < 0x80 {
      WholeRoundTrip(if n < 0 then n + TWO_8 else n, IntegerHead(n), tail);
    } else {
      PositiveRoundTrip(n, tail);
    }
  }

  lemma {:induction false} NegativeRoundTrip(n: int, tail: Bytes)
    requires -(TWO_64 / 2) <= n < -0x20
    ensures ReadHead(WriteInteger(n) + tail) == Got(IntegerHead(n), tail)
  {
    Spans();
    if n < -0x8000_0000 { MarkedRoundTrip(0xd3, n + TWO_64, 8, tail); }
    else if n < -0x8000 { MarkedRoundTrip(0xd2, n + TWO_32, 4, tail); }
    else if n < -0x80 { MarkedRoundTrip(0xd1, n + TWO_16, 2, tail); }
    else { MarkedRoundTrip(0xd0, n + TWO_8, 1, tail); }
  }

  lemma {:induction false} PositiveRoundTrip(n: int, tail: Bytes)
    requires 0x80 <= n < TWO_64
    ensures ReadHead(WriteInteger(n) + tail) == Got(IntegerHead(n), tail)
  {
    Spans();
    if n < TWO_8 { MarkedRoundTrip(0xcc, n, 1, tail); }
    else if n < TWO_16 { MarkedRoundTrip(0xcd, n, 2, tail); }
    else if n < TWO_32 { MarkedRoundTrip(0xce, n, 4, tail); }
    else { MarkedRoundTrip(0xcf, n, 8, tail); }
  }

  lemma {:induction false} MarkedRoundTrip(c: Byte, n: nat, width: nat, tail: Bytes)
    requires n < Span(width)
    requires FormOf(c) == Unsigned(width) || FormOf(c) == Signed(width)
    ensures ReadHead([c] + Write(n, width) + tail)
         == Got(IntegerHead(if FormOf(c).Signed? then SignExtend(n, width) else n), tail)
  {
    assert ([c] + Write(n, width) + tail)[1..] == Write(n, width) + tail;
    NumberRoundTrip(n, width, tail);
  }

  lemma ExtHeadRoundTrip(size: nat, tag: Byte, tail: Bytes)
    requires size < TWO_32
    ensures ReadHead(WriteExtHead(size, tag) + tail) == Got(ExtHead(size, tag), tail)
  {
    if size == 1 { FixedExtRoundTrip(0xd4, 1, tag, tail); }
    else if size == 2 { FixedExtRoundTrip(0xd5, 2, tag, tail); }
    else if size == 4 { FixedExtRoundTrip(0xd6, 4, tag, tail); }
    else if size == 8 { FixedExtRoundTrip(0xd7, 8, tag, tail); }
    else if size == 16 { FixedExtRoundTrip(0xd8, 16, tag, tail); }
    else if size < TWO_8 { SizedExtRoundTrip(0xc7, size, 1, tag, tail); }
    else if size < TWO_16 { SizedExtRoundTrip(0xc8, size, 2, tag, tail); }
    else { SizedExtRoundTrip(0xc9, size, 4, tag, tail); }
  }

  lemma FixedExtRoundTrip(c: Byte, size: nat, tag: Byte, tail: Bytes)
    requires FormOf(c) == FixedExt(size)
    ensures ReadHead([c, tag] + tail) == Got(ExtHead(size, tag), tail)
  {
    var after := ([c, tag] + tail)[1..];
    assert after == [tag] + tail && after[1..] == tail;
  }

  lemma {:induction false} SizedExtRoundTrip(c: Byte, size: nat, width: nat, tag: Byte, tail: Bytes)
    requires FormOf(c) == SizedExt(width)
    requires (width == 1 ==> size < TWO_8) && (width == 2 ==> size < TWO_16) && size < TWO_32
    ensures ReadHead([c] + Write(size, width) + [tag] + tail) == Got(ExtHead(size, tag), tail)
  {
    Spans();
    var tagged := [tag] + tail;
    assert tagged[1..] == tail;
    assert ([c] + Write(size, width) + [tag] + tail)[1..] == Write(size, width) + tagged;
    NumberRoundTrip(size, width, tagged);
  }

  // ---------------------------------------------------------------- the table of the format

  /** Markers that stand alone. 0xc1 is never used. */
  lemma SingleMarkers(tail: Bytes)
    ensures ReadHead([]) == Bad && ReadHead([0xc1] + tail) == Bad
    ensures ReadHead([0xc0] + tail) == Got(NilHead, tail)
    ensures ReadHead([0xc2] + tail) == Got(BooleanHead(false), tail)
    ensures ReadHead([0xc3] + tail) == Got(BooleanHead(true), tail)
    ensures ReadHead([0xca] + tail) == Got(FloatHead(4), tail)
    ensures ReadHead([0xcb] + tail) == Got(FloatHead(8), tail)
  {
    WholeRoundTrip(0xc0, NilHead, tail);
    WholeRoundTrip(0xc2, BooleanHead(false), tail);
    WholeRoundTrip(0xc3, BooleanHead(true), tail);
    WholeRoundTrip(0xca, FloatHead(4), tail);
    WholeRoundTrip(0xcb, FloatHead(8), tail);
  }

  /** Markers that hold a small number themselves. */
  lemma FixMarkers(n: nat, tail: Bytes)
    ensures n < 0x80 ==> ReadHead([n] + tail) == Got(IntegerHead(n), tail)
    ensures n < 0x10 ==> ReadHead([0x80 + n] + tail) == Got(MapHead(n), tail)
    ensures n < 0x10 ==> ReadHead([0x90 + n] + tail) == Got(ArrayHead(n), tail)
    ensures n < 0x20 ==> ReadHead([0xa0 + n] + tail) == Got(StrHead(n), tail)
    ensures n < 0x20 ==> ReadHead([0xe0 + n] + tail) == Got(IntegerHead(n - 32), tail)
  {
    if n < 0x80 { WholeRoundTrip(n, IntegerHead(n), tail); }
    if n < 0x10 { WholeRoundTrip(0x80 + n, MapHead(n), tail); }
    if n < 0x10 { WholeRoundTrip(0x90 + n, ArrayHead(n), tail); }
    if n < 0x20 { WholeRoundTrip(0xa0 + n, StrHead(n), tail); }
    if n < 0x20 { WholeRoundTrip(0xe0 + n, IntegerHead(n - 32), tail); }
  }

  /** `c`, a number and the tail, as the reader sees it. */
  lemma {:induction false} AfterMarker(c: Byte, raw: Bytes, tail: Bytes)
    ensures ([c] + raw + tail)[1..] == raw + tail
    ensures ReadNumber(raw + tail, |raw|) == Got(Read(raw), tail)
  {
    assert (raw + tail)[..|raw|] == raw && (raw + tail)[|raw|..] == tail;
  }

  lemma {:induction false} SizedMarker(c: Byte, family: Family, raw: Bytes, tail: Bytes)
    requires FormOf(c) == Sized(family, |raw|)
    ensures ReadHead([c] + raw + tail) == Got(SizedHead(family, Read(raw)), tail)
  {
    AfterMarker(c, raw, tail);
  }

  lemma {:induction false} IntegerMarker(c: Byte, raw: Bytes, tail: Bytes)
    requires FormOf(c) == Unsigned(|raw|) || FormOf(c) == Signed(|raw|)
    ensures ReadHead([c] + raw + tail) ==
      Got(IntegerHead(if FormOf(c).Signed? then SignExtend(Read(raw), |raw|) else Read(raw)), tail)
  {
    AfterMarker(c, raw, tail);
  }

  lemma {:induction false} ExtMarker(c: Byte, raw: Bytes, tag: Byte, tail: Bytes)
    requires FormOf(c) == SizedExt(|raw|)
    ensures ReadHead([c] + raw + ([tag] + tail)) == Got(ExtHead(Read(raw), tag), tail)
  {
    assert ([tag] + tail)[1..] == tail;
    AfterMarker(c, raw, [tag] + tail);
  }

  /** The length of binary data and of strings, in one, two or four bytes. */
  lemma {:induction false} RawMarkers(raw: Bytes, tail: Bytes)
    ensures |raw| == 1 ==> ReadHead([0xc4] + raw + tail) == Got(BinHead(Read(raw)), tail)
    ensures |raw| == 2 ==> ReadHead([0xc5] + raw + tail) == Got(BinHead(Read(raw)), tail)
    ensures |raw| == 4 ==> ReadHead([0xc6] + raw + tail) == Got(BinHead(Read(raw)), tail)
    ensures |raw| == 1 ==> ReadHead([0xd9] + raw + tail) == Got(StrHead(Read(raw)), tail)
    ensures |raw| == 2 ==> ReadHead([0xda] + raw + tail) == Got(StrHead(Read(raw)), tail)
    ensures |raw| == 4 ==> ReadHead([0xdb] + raw + tail) == Got(StrHead(Read(raw)), tail)
  {
    if |raw| == 1 {
      SizedMarker(0xc4, BinFamily, raw, tail);
      SizedMarker(0xd9, StrFamily, raw, tail);
    } else if |raw| == 2 {
      SizedMarker(0xc5, BinFamily, raw, tail);
      SizedMarker(0xda, StrFamily, raw, tail);
    } else if |raw| == 4 {
      SizedMarker(0xc6, BinFamily, raw, tail);
      SizedMarker(0xdb, StrFamily, raw, tail);
    }
  }

  /** The number of items of an array and of entries of a map. */
  lemma {:induction false} ContainerMarkers(raw: Bytes, tail: Bytes)
    ensures |raw| == 2 ==> ReadHead([0xdc] + raw + tail) == Got(ArrayHead(Read(raw)), tail)
    ensures |raw| == 4 ==> ReadHead([0xdd] + raw + tail) == Got(ArrayHead(Read(raw)), tail)
    ensures |raw| == 2 ==> ReadHead([0xde] + raw + tail) == Got(MapHead(Read(raw)), tail)
    ensures |raw| == 4 ==> ReadHead([0xdf] + raw + tail) == Got(MapHead(Read(raw)), tail)
  {
    if |raw| == 2 {
      SizedMarker(0xdc, ArrayFamily, raw, tail);
      SizedMarker(0xde, MapFamily, raw, tail);
    } else if |raw| == 4 {
      SizedMarker(0xdd, ArrayFamily, raw, tail);
      SizedMarker(0xdf, MapFamily, raw, tail);
    }
  }

  /** Integers without a sign. */
  lemma {:induction false} UnsignedMarkers(raw: Bytes, tail: Bytes)
    ensures |raw| == 1 ==> ReadHead([0xcc] + raw + tail) == Got(IntegerHead(Read(raw)), tail)
    ensures |raw| == 2 ==> ReadHead([0xcd] + raw + tail) == Got(IntegerHead(Read(raw)), tail)
    ensures |raw| == 4 ==> ReadHead([0xce] + raw + tail) == Got(IntegerHead(Read(raw)), tail)
    ensures |raw| == 8 ==> ReadHead([0xcf] + raw + tail) == Got(IntegerHead(Read(raw)), tail)
  {
    if |raw| == 1 { IntegerMarker(0xcc, raw, tail); }
    else if |raw| == 2 { IntegerMarker(0xcd, raw, tail); }
    else if |raw| == 4 { IntegerMarker(0xce, raw, tail); }
    else if |raw| == 8 { IntegerMarker(0xcf, raw, tail); }
  }

  /** The highest byte counts as a number from -128 to 127. */
  lemma {:induction false} SignIsHighestBit(b: Byte, low: Bytes)
    ensures SignExtend(Read([b] + low), 1 + |low|)
         == (if b < 0x80 then b else b - 0x100) * Span(|low|) + Read(low)
  {
    ReadFront(b, low);
    SignedHalf(b, Span(|low|), Read(low));
    assert Span(1 + |low|) == 256 * Span(|low|);
  }

  lemma SignedHalf(b: Byte, span: nat, low: nat)
    requires low < span
    ensures 2 * (b * span + low) < 256 * span <==> b < 0x80
    ensures (b - 0x100) * span == b * span - 256 * span
  {
    if b < 0x80 {
      Scaled(b + 1, 0x80, span);
    } else {
      Scaled(0x80, b, span);
    }
  }

  lemma Scaled(a: nat, b: nat, span: nat)
    requires a <= b
    ensures a * span <= b * span
  {
  }

  lemma {:induction false} SignedMarker(c: Byte, b: Byte, low: Bytes, tail: Bytes)
    requires FormOf(c) == Signed(1 + |low|)
    ensures ReadHead([c] + ([b] + low) + tail) ==
      Got(IntegerHead((if b < 0x80 then b else b - 0x100) * Span(|low|) + Read(low)), tail)
  {
    SignIsHighestBit(b, low);
    IntegerMarker(c, [b] + low, tail);
  }

  /** Integers with a sign: two's complement, from their highest byte and the others. */
  lemma {:induction false} SignedMarkers(b: Byte, low: Bytes, tail: Bytes)
    ensures var n := (if b < 0x80 then b else b - 0x100) * Span(|low|) + Read(low);
      && (|low| == 0 ==> ReadHead([0xd0] + ([b] + low) + tail) == Got(IntegerHead(n), tail))
      && (|low| == 1 ==> ReadHead([0xd1] + ([b] + low) + tail) == Got(IntegerHead(n), tail))
      && (|low| == 3 ==> ReadHead([0xd2] + ([b] + low) + tail) == Got(IntegerHead(n), tail))
      && (|low| == 7 ==> ReadHead([0xd3] + ([b] + low) + tail) == Got(IntegerHead(n), tail))
  {
    if |low| == 0 { SignedMarker(0xd0, b, low, tail); }
    else if |low| == 1 { SignedMarker(0xd1, b, low, tail); }
    else if |low| == 3 { SignedMarker(0xd2, b, low, tail); }
    else if |low| == 7 { SignedMarker(0xd3, b, low, tail); }
  }

  /** Extensions of a size the marker holds, and then the tag. */
  lemma FixedExtMarkers(size: nat, tag: Byte, tail: Bytes)
    ensures size == 1 ==> ReadHead([0xd4, tag] + tail) == Got(ExtHead(size, tag), tail)
    ensures size == 2 ==> ReadHead([0xd5, tag] + tail) == Got(ExtHead(size, tag), tail)
    ensures size == 4 ==> ReadHead([0xd6, tag] + tail) == Got(ExtHead(size, tag), tail)
    ensures size == 8 ==> ReadHead([0xd7, tag] + tail) == Got(ExtHead(size, tag), tail)
    ensures size == 16 ==> ReadHead([0xd8, tag] + tail) == Got(ExtHead(size, tag), tail)
  {
    if size == 1 { FixedExtRoundTrip(0xd4, size, tag, tail); }
    else if size == 2 { FixedExtRoundTrip(0xd5, size, tag, tail); }
    else if size == 4 { FixedExtRoundTrip(0xd6, size, tag, tail); }
    else if size == 8 { FixedExtRoundTrip(0xd7, size, tag, tail); }
    else if size == 16 { FixedExtRoundTrip(0xd8, size, tag, tail); }
  }

  /** Extensions with the size between the marker and the tag. */
  lemma {:induction false} SizedExtMarkers(raw: Bytes, tag: Byte, tail: Bytes)
    ensures |raw| == 1 ==> ReadHead([0xc7] + raw + ([tag] + tail)) == Got(ExtHead(Read(raw), tag), tail)
    ensures |raw| == 2 ==> ReadHead([0xc8] + raw + ([tag] + tail)) == Got(ExtHead(Read(raw), tag), tail)
    ensures |raw| == 4 ==> ReadHead([0xc9] + raw + ([tag] + tail)) == Got(ExtHead(Read(raw), tag), tail)
  {
    if |raw| == 1 { ExtMarker(0xc7, raw, tag, tail); }
    else if |raw| == 2 { ExtMarker(0xc8, raw, tag, tail); }
    else if |raw| == 4 { ExtMarker(0xc9, raw, tag, tail); }
  }

  /** The head the packer puts before binary data: the shortest that holds the length. */
  lemma BinHeadBytes(size: nat)
    requires size < TWO_32
    ensures WriteBinHead(size) ==
      if size < 0x100 then [0xc4, size]
      else if size < 0x1_0000 then [0xc5, size / 0x100, size % 0x100]
      else [0xc6, size / 0x100_0000, size / 0x1_0000 % 0x100, size / 0x100 % 0x100, size % 0x100]
  {
    var a := size / 0x100;
    var b := a / 0x100;
    assert b == size / 0x1_0000 && b / 0x100 == size / 0x100_0000;
    WrittenOut(size, a, b, b / 0x100);
  }

  lemma {:induction false} WrittenOut(n: nat, a: nat, b: nat, c: nat)
    requires a == n / 0x100 && b == a / 0x100 && c == b / 0x100
    ensures Write(n, 1) == [n % 0x100]
    ensures Write(n, 2) == [a % 0x100, n % 0x100]
    ensures Write(n, 4) == [c % 0x100, b % 0x100, a % 0x100, n % 0x100]
  {
    assert Write(n, 2) == Write(a, 1) + [n % 256];
    assert Write(n, 4) == Write(a, 3) + [n % 256];
    assert Write(a, 3) == Write(b, 2) + [a % 256];
    assert Write(b, 2) == Write(c, 1) + [b % 256];
    assert Write(c, 1) == Write(c / 256, 0) + [c % 256];
  }

  // ---------------------------------------------------------------- values

  function HeadOf(v: Value): (h: Head)
    ensures Valid(v) ==> ValidHead(h)
  {
    match v
    case Nil => NilHead
    case Boolean(b) => BooleanHead(b)
    case Integer(n) => IntegerHead(n)
    case Float(bits) => FloatHead(|bits|)
    case Str(text) => StrHead(|text|)
    case Bin(data) => BinHead(|data|)
    case Ext(tag, body) => ExtHead(|body|, tag)
    case Array(items) => ArrayHead(|items|)
    case Map(entries) => MapHead(|entries|)
  }

  function Pack(v: Value): Bytes
    requires Valid(v)
    decreases v, 2
  {
    WriteHead(HeadOf(v)) + PackBody(v)
  }

  function PackBody(v: Value): Bytes
    requires Valid(v)
    decreases v, 1
  {
    match v
    case Nil => []
    case Boolean(_) => []
    case Integer(_) => []
    case Float(bits) => bits
    case Str(text) => text
    case Bin(data) => data
    case Ext(_, body) => body
    case Array(items) => PackItems(items)
    case Map(entries) => PackEntries(entries)
  }

  function PackItems(items: seq<Value>): Bytes
    requires forall x | x in items :: Valid(x)
    decreases items, 0
  {
    if items == [] then [] else Pack(items[0]) + PackItems(items[1..])
  }

  function PackEntries(entries: seq<Entry>): Bytes
    requires forall e | e in entries :: Valid(e.key) && Valid(e.val)
    decreases entries, 0
  {
    if entries == [] then [] else PackEntry(entries[0]) + PackEntries(entries[1..])
  }

  function PackEntry(e: Entry): Bytes
    requires Valid(e.key) && Valid(e.val)
    decreases e, 0
  {
    Pack(e.key) + Pack(e.val)
  }

  function TakeRaw(s: Bytes, size: nat): (r: Parsed<Bytes>)
    ensures r.Got? ==> |r.value| == size && |r.rest| == |s| - size
  {
    if size <= |s| then Got(s[..size], s[size..]) else Bad
  }

  /** The first value in `s`; the bytes after it are left over, not refused. */
  function Unpack(s: Bytes): (r: Parsed<Value>)
    ensures r.Got? ==> |r.rest| < |s| && Valid(r.value)
    decreases |s|, 0, 0
  {
    match ReadHead(s)
    case Bad => Bad
    case Got(h, rest) => UnpackBody(h, rest)
  }

  function UnpackBody(h: Head, s: Bytes): (r: Parsed<Value>)
    requires ValidHead(h)
    ensures r.Got? ==> |r.rest| <= |s| && Valid(r.value)
    decreases |s|, 2, 0
  {
    match h
    case NilHead => Got(Nil, s)
    case BooleanHead(b) => Got(Boolean(b), s)
    case IntegerHead(n) => Got(Integer(n), s)
    case FloatHead(size) =>
      (match TakeRaw(s, size) case Bad => Bad case Got(raw, rest) => Got(Float(raw), rest))
    case StrHead(size) =>
      (match TakeRaw(s, size) case Bad => Bad case Got(raw, rest) => Got(Str(raw), rest))
    case BinHead(size) =>
      (match TakeRaw(s, size) case Bad => Bad case Got(raw, rest) => Got(Bin(raw), rest))
    case ExtHead(size, tag) =>
      (match TakeRaw(s, size) case Bad => Bad case Got(raw, rest) => Got(Ext(tag, raw), rest))
    case ArrayHead(size) =>
      (match UnpackItems(s, size) case Bad => Bad case Got(items, rest) => Got(Array(items), rest))
    case MapHead(size) =>
      (match UnpackEntries(s, size) case Bad => Bad case Got(entries, rest) => Got(Map(entries), rest))
  }

  function UnpackItems(s: Bytes, count: nat): (r: Parsed<seq<Value>>)
    ensures r.Got? ==> |r.rest| <= |s| && |r.value| == count && forall x | x in r.value :: Valid(x)
    decreases |s|, 1, count
  {
    if count == 0 then Got([], s)
    else match Unpack(s)
      case Bad => Bad
      case Got(x, rest) =>
        match UnpackItems(rest, count - 1)
        case Bad => Bad
        case Got(xs, more) => Got([x] + xs, more)
  }

  function UnpackEntries(s: Bytes, count: nat): (r: Parsed<seq<Entry>>)
    ensures r.Got? ==>
      && |r.rest| <= |s|
      && |r.value| == count
      && forall e | e in r.value :: Valid(e.key) && Valid(e.val)
    decreases |s|, 1, count
  {
    if count == 0 then Got([], s)
    else match Unpack(s)
      case Bad => Bad
      case Got(key, afterKey) =>
        match Unpack(afterKey)
        case Bad => Bad
        case Got(val, afterVal) =>
          match UnpackEntries(afterVal, count - 1)
          case Bad => Bad
          case Got(es, more) => Got([Entry(key, val)] + es, more)
  }

  /** Round trip: what was packed is read back, and every trailing byte is left alone. */
  lemma {:induction false} UnpackPack(v: Value, tail: Bytes)
    requires Valid(v)
    ensures Unpack(Pack(v) + tail) == Got(v, tail)
    decreases v, 2
  {
    var rest := PackBody(v) + tail;
    Associate(WriteHead(HeadOf(v)), PackBody(v), tail);
    HeadRoundTrip(HeadOf(v), rest);
    BodyRoundTrip(v, tail);
  }

  lemma {:induction false} BodyRoundTrip(v: Value, tail: Bytes)
    requires Valid(v)
    ensures UnpackBody(HeadOf(v), PackBody(v) + tail) == Got(v, tail)
    decreases v, 1
  {
    match v {
      case Array(items) =>
        ItemsRoundTrip(items, tail);
        ArrayBody(items, PackItems(items) + tail);
      case Map(entries) =>
        EntriesRoundTrip(entries, tail);
        MapBody(entries, PackEntries(entries) + tail);
      case _ => FlatRoundTrip(v, tail);
    }
  }

  /** The body of an array is its items. */
  lemma ArrayBody(items: seq<Value>, s: Bytes)
    requires |items| < TWO_32
    requires UnpackItems(s, |items|).Got? && UnpackItems(s, |items|).value == items
    ensures UnpackBody(ArrayHead(|items|), s) == Got(Array(items), UnpackItems(s, |items|).rest)
  {
  }

  /** The body of a map is its entries. */
  lemma MapBody(entries: seq<Entry>, s: Bytes)
    requires |entries| < TWO_32
    requires UnpackEntries(s, |entries|).Got? && UnpackEntries(s, |entries|).value == entries
    ensures UnpackBody(MapHead(|entries|), s) == Got(Map(entries), UnpackEntries(s, |entries|).rest)
  {
  }

  lemma FlatRoundTrip(v: Value, tail: Bytes)
    requires Valid(v) && !v.Array? && !v.Map?
    ensures UnpackBody(HeadOf(v), PackBody(v) + tail) == Got(v, tail)
  {
    match v {
      case Nil => assert [] + tail == tail;
      case Boolean(_) => assert [] + tail == tail;
      case Integer(_) => assert [] + tail == tail;
      case Float(bits) => RawRoundTrip(bits, tail);
      case Str(text) => RawRoundTrip(text, tail);
      case Bin(data) => RawRoundTrip(data, tail);
      case Ext(_, body) => RawRoundTrip(body, tail);
    }
  }

  lemma RawRoundTrip(raw: Bytes, tail: Bytes)
    ensures TakeRaw(raw + tail, |raw|) == Got(raw, tail)
  {
    assert (raw + tail)[..|raw|] == raw && (raw + tail)[|raw|..] == tail;
  }

  lemma {:induction false} ItemsRoundTrip(items: seq<Value>, tail: Bytes)
    requires forall x | x in items :: Valid(x)
    ensures UnpackItems(PackItems(items) + tail, |items|) == Got(items, tail)
    decreases items, 0
  {
    if items == [] {
      assert PackItems(items) + tail == tail;
    } else {
      var more := PackItems(items[1..]) + tail;
      Associate(Pack(items[0]), PackItems(items[1..]), tail);
      UnpackPack(items[0], more);
      ItemsRoundTrip(items[1..], tail);
      ItemsStep(PackItems(items) + tail, more, items);
    }
  }

  /** One turn of the item loop. */
  lemma ItemsStep(s: Bytes, more: Bytes, items: seq<Value>)
    requires items != []
    requires Unpack(s) == Got(items[0], more)
    requires UnpackItems(more, |items| - 1).Got?
    requires UnpackItems(more, |items| - 1).value == items[1..]
    ensures UnpackItems(s, |items|) == Got(items, UnpackItems(more, |items| - 1).rest)
  {
    assert items == [items[0]] + items[1..];
  }

  lemma {:induction false} EntriesRoundTrip(entries: seq<Entry>, tail: Bytes)
    requires forall e | e in entries :: Valid(e.key) && Valid(e.val)
    ensures UnpackEntries(PackEntries(entries) + tail, |entries|) == Got(entries, tail)
    decreases entries, 0
  {
    if entries == [] {
      assert PackEntries(entries) + tail == tail;
    } else {
      var more := PackEntries(entries[1..]) + tail;
      Associate(PackEntry(entries[0]), PackEntries(entries[1..]), tail);
      EntryRoundTrip(entries[0], more);
      EntriesRoundTrip(entries[1..], tail);
      EntriesStep(PackEntries(entries) + tail, Pack(entries[0].val) + more, more, entries);
    }
  }

  /** One turn of the entry loop. */
  lemma EntriesStep(s: Bytes, afterKey: Bytes, afterVal: Bytes, entries: seq<Entry>)
    requires entries != []
    requires Unpack(s) == Got(entries[0].key, afterKey)
    requires Unpack(afterKey) == Got(entries[0].val, afterVal)
    requires UnpackEntries(afterVal, |entries| - 1).Got?
    requires UnpackEntries(afterVal, |entries| - 1).value == entries[1..]
    ensures UnpackEntries(s, |entries|) == Got(entries, UnpackEntries(afterVal, |entries| - 1).rest)
  {
    assert entries == [Entry(entries[0].key, entries[0].val)] + entries[1..];
  }

  lemma Associate(a: Bytes, b: Bytes, c: Bytes)
    ensures a + b + c == a + (b + c)
  {
  }

  lemma {:induction false} EntryRoundTrip(e: Entry, tail: Bytes)
    requires Valid(e.key) && Valid(e.val)
    ensures Unpack(PackEntry(e) + tail) == Got(e.key, Pack(e.val) + tail)
    ensures Unpack(Pack(e.val) + tail) == Got(e.val, tail)
    decreases e, 0
  {
    Associate(Pack(e.key), Pack(e.val), tail);
    UnpackPack(e.key, Pack(e.val) + tail);
    UnpackPack(e.val, tail);
  }

  // ---------------------------------------------------------------- consequences

  lemma {:induction false} NumberExtension(s: Bytes, width: nat, tail: Bytes)
    requires width <= |s|
    ensures ReadNumber(s + tail, width) == Got(Read(s[..width]), s[width..] + tail)
  {
    assert (s + tail)[..width] == s[..width];
    assert (s + tail)[width..] == s[width..] + tail;
  }

  lemma TagExtension(s: Bytes, size: nat, tail: Bytes)
    requires ReadTag(s, size).Got?
    ensures ReadTag(s + tail, size) == Got(ReadTag(s, size).value, ReadTag(s, size).rest + tail)
  {
    assert (s + tail)[1..] == s[1..] + tail;
  }

  lemma {:induction false} FormExtension(form: Form, s: Bytes, tail: Bytes)
    requires ValidForm(form) && ReadForm(form, s).Got?
    ensures ReadForm(form, s + tail) == Got(ReadForm(form, s).value, ReadForm(form, s).rest + tail)
  {
    match form {
      case Invalid =>
      case Whole(_) =>
      case Unsigned(width) => NumberExtension(s, width, tail);
      case Signed(width) => NumberExtension(s, width, tail);
      case Sized(_, width) => NumberExtension(s, width, tail);
      case FixedExt(size) => TagExtension(s, size, tail);
      case SizedExt(width) =>
        NumberExtension(s, width, tail);
        TagExtension(s[width..], Read(s[..width]), tail);
    }
  }

  lemma HeadExtension(s: Bytes, tail: Bytes)
    requires ReadHead(s).Got?
    ensures ReadHead(s + tail) == Got(ReadHead(s).value, ReadHead(s).rest + tail)
  {
    assert (s + tail)[1..] == s[1..] + tail;
    FormExtension(FormOf(s[0]), s[1..], tail);
  }

  /** Appending bytes to readable input, canonical or not, never changes the value read. */
  lemma {:induction false} UnpackExtension(s: Bytes, tail: Bytes)
    requires Unpack(s).Got?
    ensures Unpack(s + tail) == Got(Unpack(s).value, Unpack(s).rest + tail)
    decreases |s|, 0, 0
  {
    HeadExtension(s, tail);
    BodyExtension(ReadHead(s).value, ReadHead(s).rest, tail);
  }

  lemma {:induction false} BodyExtension(h: Head, s: Bytes, tail: Bytes)
    requires ValidHead(h) && UnpackBody(h, s).Got?
    ensures UnpackBody(h, s + tail) == Got(UnpackBody(h, s).value, UnpackBody(h, s).rest + tail)
    decreases |s|, 2, 0
  {
    match h {
      case ArrayHead(size) => ItemsExtension(s, size, tail);
      case MapHead(size) => EntriesExtension(s, size, tail);
      case NilHead =>
      case BooleanHead(_) =>
      case IntegerHead(_) =>
      case _ =>
        var size := h.size;
        assert (s + tail)[..size] == s[..size] && (s + tail)[size..] == s[size..] + tail;
    }
  }

  /** The first item read, and the others. */
  lemma {:induction false} FirstItem(s: Bytes, count: nat)
    requires count > 0 && UnpackItems(s, count).Got?
    ensures Unpack(s).Got?
    ensures var more := Unpack(s).rest;
      && UnpackItems(more, count - 1).Got?
      && UnpackItems(s, count).value == [Unpack(s).value] + UnpackItems(more, count - 1).value
      && UnpackItems(s, count).rest == UnpackItems(more, count - 1).rest
  {
  }

  lemma {:induction false} ItemsExtension(s: Bytes, count: nat, tail: Bytes)
    requires UnpackItems(s, count).Got?
    ensures UnpackItems(s + tail, count) == Got(UnpackItems(s, count).value, UnpackItems(s, count).rest + tail)
    decreases |s|, 1, count
  {
    if count > 0 {
      FirstItem(s, count);
      UnpackExtension(s, tail);
      var more := Unpack(s).rest;
      ItemsExtension(more, count - 1, tail);
      ItemsStep(s + tail, more + tail, UnpackItems(s, count).value);
    }
  }

  /** The first entry read, and the others. */
  lemma {:induction false} FirstEntry(s: Bytes, count: nat)
    requires count > 0 && UnpackEntries(s, count).Got?
    ensures Unpack(s).Got? && Unpack(Unpack(s).rest).Got?
    ensures var afterVal := Unpack(Unpack(s).rest).rest;
      && UnpackEntries(afterVal, count - 1).Got?
      && UnpackEntries(s, count).value
         == [Entry(Unpack(s).value, Unpack(Unpack(s).rest).value)] + UnpackEntries(afterVal, count - 1).value
      && UnpackEntries(s, count).rest == UnpackEntries(afterVal, count - 1).rest
  {
  }

  lemma {:induction false} EntriesUnfold(
      s: Bytes, count: nat, key: Value, afterKey: Bytes, val: Value, afterVal: Bytes)
    requires count > 0 && Unpack(s) == Got(key, afterKey) && Unpack(afterKey) == Got(val, afterVal)
    requires UnpackEntries(afterVal, count - 1).Got?
    ensures UnpackEntries(s, count) ==
      Got([Entry(key, val)] + UnpackEntries(afterVal, count - 1).value, UnpackEntries(afterVal, count - 1).rest)
  {
  }

  lemma {:induction false} EntriesExtension(s: Bytes, count: nat, tail: Bytes)
    requires UnpackEntries(s, count).Got?
    ensures UnpackEntries(s + tail, count) == Got(UnpackEntries(s, count).value, UnpackEntries(s, count).rest + tail)
    decreases |s|, 1, count
  {
    if count > 0 {
      FirstEntry(s, count);
      var key, afterKey := Unpack(s).value, Unpack(s).rest;
      var val, afterVal := Unpack(afterKey).value, Unpack(afterKey).rest;
      UnpackExtension(s, tail);
      UnpackExtension(afterKey, tail);
      EntriesExtension(afterVal, count - 1, tail);
      EntriesUnfold(s + tail, count, key, afterKey + tail, val, afterVal + tail);
    }
  }

  lemma {:induction false} SomethingLeft(front: Bytes, back: Bytes)
    requires Unpack(front).Got? && back != []
    ensures Unpack(front + back).Got? && Unpack(front + back).rest != []
  {
    UnpackExtension(front, back);
  }

  /** Input that is one whole value is refused as soon as its end is missing. */
  lemma {:induction false} PrefixRefused(s: Bytes, cut: nat)
    requires Unpack(s).Got? && Unpack(s).rest == [] && cut < |s|
    ensures Unpack(s[..cut]).Bad?
  {
    var front, back := s[..cut], s[cut..];
    assert front + back == s && back != [];
    if Unpack(front).Got? {
      SomethingLeft(front, back);
    }
  }

  /** No packed value is cut short unnoticed. */
  lemma {:induction false} TruncationRefused(v: Value, cut: nat)
    requires Valid(v) && cut < |Pack(v)|
    ensures Unpack(Pack(v)[..cut]).Bad?
  {
    UnpackPack(v, []);
    assert Pack(v) + [] == Pack(v);
    PrefixRefused(Pack(v), cut);
  }

  /** How many raw bytes a value itself carries. */
  function Payload(v: Value): nat {
    match v
    case Nil => 0
    case Boolean(_) => 0
    case Integer(_) => 0
    case Float(bits) => |bits|
    case Str(text) => |text|
    case Bin(data) => |data|
    case Ext(_, body) => |body|
    case Array(_) => 0
    case Map(_) => 0
  }

  /** Raw bytes found inside a map are fewer than the bytes they were read from. */
  lemma {:induction false} EntriesShorter(s: Bytes, count: nat)
    requires UnpackEntries(s, count).Got?
    ensures forall e | e in UnpackEntries(s, count).value :: Payload(e.val) < |s|
    decreases |s|, count
  {
    if count > 0 {
      var afterKey := Unpack(s).rest;
      var afterVal := Unpack(afterKey).rest;
      PayloadShorter(afterKey);
      EntriesShorter(afterVal, count - 1);
      FirstEntry(s, count);
    }
  }

  lemma PayloadShorter(s: Bytes)
    requires Unpack(s).Got?
    ensures Payload(Unpack(s).value) < |s|
  {
    BodyPayload(ReadHead(s).value, ReadHead(s).rest);
  }

  lemma BodyPayload(h: Head, s: Bytes)
    requires ValidHead(h) && UnpackBody(h, s).Got?
    ensures Payload(UnpackBody(h, s).value) <= |s|
    ensures UnpackBody(h, s).value.Map? <==> h.MapHead?
  {
  }

  /** Only the markers of the map format family announce a map. */
  predicate MapMarker(c: Byte) {
    0x80 <= c < 0x90 || c == 0xde || c == 0xdf
  }

  lemma MapsAreMarked(s: Bytes)
    requires Unpack(s).Got?
    ensures Unpack(s).value.Map? <==> MapMarker(s[0])
  {
    HeadIsMarked(FormOf(s[0]), s[0], s[1..]);
    BodyPayload(ReadHead(s).value, ReadHead(s).rest);
  }

  lemma HeadIsMarked(form: Form, c: Byte, s: Bytes)
    requires form == FormOf(c) && ReadForm(form, s).Got?
    ensures ReadForm(form, s).value.MapHead? <==> MapMarker(c)
  {
  }
}
