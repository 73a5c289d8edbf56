/** `Bin::Packet`: the three-entry MessagePack map that is stored under a code. */
module Packets {
  import opened BigEndian
  import opened MsgPack
  import opened Outcomes

  const PROTO_VERSION: nat := 0

  // The keys "v", "data" and "signature" in ASCII.
  const KEY_VERSION: Bytes := [0x76]
  const KEY_DATA: Bytes := [0x64, 0x61, 0x74, 0x61]
  const KEY_SIGNATURE: Bytes := [0x73, 0x69, 0x67, 0x6e, 0x61, 0x74, 0x75, 0x72, 0x65]

  /** The two fields of a packet. */
  datatype Fields = Fields(data: Bytes, signature: Bytes)

  /** The packer counts bytes in 32 bits and raises above that. */
  predicate Fits(f: Fields) {
    |f.data| < TWO_32 && |f.signature| < TWO_32
  }

  /** The MessagePack value a packet stands for. */
  function AsValue(f: Fields): (v: Value)
    ensures Fits(f) ==> Valid(v)
  {
    var version := Entry(Str(KEY_VERSION), Integer(PROTO_VERSION));
    var data := Entry(Str(KEY_DATA), Bin(f.data));
    var signature := Entry(Str(KEY_SIGNATURE), Bin(f.signature));
    MapOfThree(version, data, signature);
    Map([version, data, signature])
  }

  lemma MapOfThree(a: Entry, b: Entry, c: Entry)
    ensures Valid(a.key) && Valid(a.val) && Valid(b.key) && Valid(b.val) && Valid(c.key) && Valid(c.val)
      ==> Valid(Map([a, b, c]))
  {
    var es := [a, b, c];
    assert forall e | e in es :: e == a || e == b || e == c;
  }

  function Wire(f: Fields): Bytes
    requires Fits(f)
  {
    Pack(AsValue(f))
  }

  // ---------------------------------------------------------------- reading

  /** The value of the first entry whose key is the string `key`. */
  function Lookup(entries: seq<Entry>, key: Bytes): Option<Value> {
    if entries == [] then None
    else if entries[0].key == Str(key) then Some(entries[0].val)
    else Lookup(entries[1..], key)
  }

  /** Conversion to a byte vector takes binary data and strings. */
  function AsBytes(v: Value): Result<Bytes> {
    match v
    case Bin(data) => Ok(data)
    case Str(text) => Ok(text)
    case _ => Threw(TypeError)
  }

  /** A field that is absent reads as empty. */
  function Field(entries: seq<Entry>, key: Bytes): Result<Bytes> {
    match Lookup(entries, key)
    case None => Ok([])
    case Some(v) => AsBytes(v)
  }

  function ReadEntries(entries: seq<Entry>): Result<Fields> {
    match Field(entries, KEY_DATA)
    case Threw(e) => Threw(e)
    case Ok(data) =>
      match Field(entries, KEY_SIGNATURE)
      case Threw(e) => Threw(e)
      case Ok(signature) => Ok(Fields(data, signature))
  }

  /** The packet in a stored blob. */
  function ReadPacket(blob: Bytes): Result<Fields> {
    match Unpack(blob)
    case Bad => Threw(UnpackError)
    case Got(v, _) => if v.Map? then ReadEntries(v.entries) else Threw(TypeError)
  }

  /** `entries[i]` is the first entry with key `key`. */
  predicate FirstAt(entries: seq<Entry>, key: Bytes, i: nat) {
    && i < |entries|
    && entries[i].key == Str(key)
    && forall j :: 0 <= j < i ==> entries[j].key != Str(key)
  }

  lemma {:induction false} LookupIsFirst(entries: seq<Entry>, key: Bytes, i: nat)
    requires FirstAt(entries, key, i)
    ensures Lookup(entries, key) == Some(entries[i].val)
  {
    if i > 0 {
      LookupIsFirst(entries[1..], key, i - 1);
    }
  }

  lemma {:induction false} LookupMisses(entries: seq<Entry>, key: Bytes)
    requires forall e | e in entries :: e.key != Str(key)
    ensures Lookup(entries, key) == None
  {
    if entries != [] {
      LookupMisses(entries[1..], key);
    }
  }

  /** `findMapValue`: an index loop over the entries. */
  method FindMapValue(v: Value, key: Bytes) returns (r: Result<Option<Value>>)
    ensures !v.Map? ==> r == Threw(TypeError)
    ensures v.Map? ==> r == Ok(Lookup(v.entries, key))
    ensures v.Map? && r.value.None? ==> forall e | e in v.entries :: e.key != Str(key)
    ensures v.Map? && r.value.Some? ==>
      exists i: nat :: FirstAt(v.entries, key, i) && r.value.value == v.entries[i].val
  {
    if !v.Map? {
      return Threw(TypeError);
    }
    var entries := v.entries;
    var i := 0;
    while i < |entries|
      invariant i <= |entries|
      invariant forall j :: 0 <= j < i ==> entries[j].key != Str(key)
    {
      var o := entries[i];
      if o.key.Str? && o.key.text == key {
        assert FirstAt(entries, key, i);
        LookupIsFirst(entries, key, i);
        return Ok(Some(o.val));
      }
      i := i + 1;
    }
    LookupMisses(entries, key);
    return Ok(None);
  }

  /** `Bin::Packet` itself. */
  class Packet {
    var data: Bytes
    var signature: Bytes

    ghost function View(): Fields
      reads this
    {
      Fields(data, signature)
    }

    constructor ()
      ensures View() == Fields([], [])
    {
      data, signature := [], [];
    }

    /** Appends piece by piece to a buffer; the result is the packed map. */
    method Serialize() returns (r: Result<Bytes>)
      ensures Fits(View()) ==> r == Ok(Wire(View()))
      ensures !Fits(View()) ==> r == Threw(SizeOverflow)
    {
      var buffer: Bytes := WriteMapHead(3);
      buffer := buffer + Pack(Str(KEY_VERSION));
      buffer := buffer + Pack(Integer(PROTO_VERSION));
      buffer := buffer + Pack(Str(KEY_DATA));
      if |data| >= TWO_32 {
        return Threw(SizeOverflow);
      }
      buffer := buffer + Pack(Bin(data));
      buffer := buffer + Pack(Str(KEY_SIGNATURE));
      if |signature| >= TWO_32 {
        return Threw(SizeOverflow);
      }
      buffer := buffer + Pack(Bin(signature));
      WireLayout(View());
      return Ok(buffer);
    }

    /**
     Refills the fields. The fields are cleared one at a time, so an exception
     leaves exactly the part that was reached.
     */
    method Deserialize(buffer: Bytes) returns (r: Result<()>)
      modifies this
      ensures r.Ok? <==> ReadPacket(buffer).Ok?
      ensures r.Ok? ==> View() == ReadPacket(buffer).value
      ensures r.Threw? ==> r.error == ReadPacket(buffer).error
      ensures r == Threw(UnpackError) ==> View() == old(View())
      ensures r == Threw(TypeError) ==>
        var v := Unpack(buffer).value;
        if v.Map? && Field(v.entries, KEY_DATA).Ok?
        then data == Field(v.entries, KEY_DATA).value && signature == []
        else data == [] && signature == old(signature)
    {
      var unpacked := Unpack(buffer);
      if unpacked.Bad? {
        return Threw(UnpackError);
      }
      var root := unpacked.value;
      data := [];
      var d := FindMapValue(root, KEY_DATA);
      if d.Threw? {
        return Threw(d.error);
      }
      if d.value.Some? {
        var converted := AsBytes(d.value.value);
        if converted.Threw? {
          return Threw(converted.error);
        }
        data := converted.value;
      }
      signature := [];
      var s := FindMapValue(root, KEY_SIGNATURE);
      if s.value.Some? {
        var converted := AsBytes(s.value.value);
        if converted.Threw? {
          return Threw(converted.error);
        }
        signature := converted.value;
      }
      return Ok(());
    }
  }

  // ---------------------------------------------------------------- the wire format

  /** The packed map, written out. */
  lemma WireLayout(f: Fields)
    requires Fits(f)
    ensures Wire(f) ==
      WriteMapHead(3)
      + Pack(Str(KEY_VERSION)) + Pack(Integer(PROTO_VERSION))
      + Pack(Str(KEY_DATA)) + Pack(Bin(f.data))
      + Pack(Str(KEY_SIGNATURE)) + Pack(Bin(f.signature))
  {
    var es := AsValue(f).entries;
    ThreeEntries(es[0], es[1], es[2]);
  }

  lemma {:induction false} ThreeEntries(a: Entry, b: Entry, c: Entry)
    requires Valid(a.key) && Valid(a.val) && Valid(b.key) && Valid(b.val) && Valid(c.key) && Valid(c.val)
    ensures Valid(Map([a, b, c]))
    ensures Pack(Map([a, b, c])) ==
      WriteMapHead(3) + Pack(a.key) + Pack(a.val) + Pack(b.key) + Pack(b.val) + Pack(c.key) + Pack(c.val)
  {
    var es := [a, b, c];
    PackedMap(es);
    assert es[1..] == [b, c] && [b, c][1..] == [c] && [c][1..] == [];
    PackedEntries(es);
    PackedEntries([b, c]);
    PackedEntries([c]);
    Regroup(WriteMapHead(3), Pack(a.key), Pack(a.val), Pack(b.key), Pack(b.val), Pack(c.key), Pack(c.val));
  }

  lemma Regroup(h: Bytes, p: Bytes, q: Bytes, r: Bytes, s: Bytes, t: Bytes, u: Bytes)
    ensures h + (p + q + (r + s + (t + u + []))) == h + p + q + r + s + t + u
  {
  }

  lemma {:induction false} PackedMap(entries: seq<Entry>)
    requires Valid(Map(entries))
    ensures Pack(Map(entries)) == WriteMapHead(|entries|) + PackEntries(entries)
  {
  }

  lemma {:induction false} PackedEntries(entries: seq<Entry>)
    requires entries != [] && forall e | e in entries :: Valid(e.key) && Valid(e.val)
    ensures PackEntries(entries) == Pack(entries[0].key) + Pack(entries[0].val) + PackEntries(entries[1..])
  {
  }

  /** The packed map byte for byte. */
  lemma WireBytes(f: Fields)
    requires Fits(f)
    ensures Wire(f) ==
      [0x83] + ([0xa1] + KEY_VERSION) + [0x00]
      + ([0xa4] + KEY_DATA) + (WriteBinHead(|f.data|) + f.data)
      + ([0xa9] + KEY_SIGNATURE) + (WriteBinHead(|f.signature|) + f.signature)
  {
    WireLayout(f);
    PackedShort(KEY_VERSION);
    PackedShort(KEY_DATA);
    PackedShort(KEY_SIGNATURE);
    PackedZero();
    PackedBin(f.data);
    PackedBin(f.signature);
  }

  lemma PackedShort(text: Bytes)
    requires |text| < 0x20
    ensures Pack(Str(text)) == [0xa0 + |text|] + text
  {
  }

  lemma PackedZero()
    ensures Pack(Integer(0)) == [0x00]
  {
  }

  lemma PackedBin(data: Bytes)
    requires |data| < TWO_32
    ensures Pack(Bin(data)) == WriteBinHead(|data|) + data
  {
  }

  /** Every packet the packer accepts is read back, whatever follows it. */
  lemma PacketRoundTrip(f: Fields, tail: Bytes)
    requires Fits(f)
    ensures ReadPacket(Wire(f) + tail) == Ok(f)
  {
    UnpackPack(AsValue(f), tail);
    var es := AsValue(f).entries;
    LookupIsFirst(es, KEY_DATA, 1);
    LookupIsFirst(es, KEY_SIGNATURE, 2);
  }

  /** Two packets never share their bytes, not even as one being a prefix of the other. */
  lemma WireIsPrefixFree(f: Fields, g: Fields, tail: Bytes)
    requires Fits(f) && Fits(g) && Wire(f) + tail == Wire(g)
    ensures f == g && tail == []
  {
    PacketRoundTrip(f, tail);
    PacketRoundTrip(g, []);
    assert Wire(g) + [] == Wire(g);
  }

  /** A packet cut short is never taken for a packet, nor for a legacy blob. */
  lemma TruncatedPacket(f: Fields, cut: nat)
    requires Fits(f) && cut < |Wire(f)|
    ensures ReadPacket(Wire(f)[..cut]) == Threw(UnpackError)
  {
    TruncationRefused(AsValue(f), cut);
  }

  /** Bytes in front of binary data of the given length. */
  function BinOverhead(size: nat): nat {
    if size < TWO_8 then 2 else if size < TWO_16 then 3 else 5
  }

  lemma WireSize(f: Fields)
    requires Fits(f)
    ensures |Wire(f)| == |f.data| + |f.signature| + 19 + BinOverhead(|f.data|) + BinOverhead(|f.signature|)
  {
    WireLayout(f);
    assert |Pack(Str(KEY_VERSION))| == 2;
    assert |Pack(Str(KEY_DATA))| == 5;
    assert |Pack(Str(KEY_SIGNATURE))| == 10;
    assert |Pack(Bin(f.data))| == |f.data| + BinOverhead(|f.data|);
    assert |Pack(Bin(f.signature))| == |f.signature| + BinOverhead(|f.signature|);
  }

  /** dht::MAX_VALUE_SIZE */
  const MAX_VALUE_SIZE: nat := 0x1_0000

  /** `Bin::data_from_stream` keeps the first bytes of its input, up to the limit. */
  function DataFromStream(input: Bytes): (data: Bytes)
    ensures data <= input
    ensures |data| == MAX_VALUE_SIZE || (data == input && |input| < MAX_VALUE_SIZE)
  {
    if |input| < MAX_VALUE_SIZE then input else input[..MAX_VALUE_SIZE]
  }

  /** An unsigned packet stays within the DHT's limit exactly up to 65512 input bytes. */
  lemma PlainPacketFitsValue(input: Bytes)
    ensures Fits(Fields(DataFromStream(input), []))
    ensures |Wire(Fields(DataFromStream(input), []))| <= MAX_VALUE_SIZE <==> |input| <= 65512
  {
    WireSize(Fields(DataFromStream(input), []));
  }

  // ---------------------------------------------------------------- what is read, entry by entry

  /** `raw` is the byte string under the key: of the first entry that has it, or empty without one. */
  ghost predicate HeldUnder(entries: seq<Entry>, key: Bytes, raw: Bytes) {
    && (forall i: nat :: FirstAt(entries, key, i) ==> entries[i].val == Bin(raw) || entries[i].val == Str(raw))
    && ((forall e :: e in entries ==> e.key != Str(key)) ==> raw == [])
  }

  lemma FieldIsHeld(entries: seq<Entry>, key: Bytes)
    requires Field(entries, key).Ok?
    ensures HeldUnder(entries, key, Field(entries, key).value)
  {
    forall i: nat | FirstAt(entries, key, i)
      ensures Lookup(entries, key) == Some(entries[i].val)
    {
      LookupIsFirst(entries, key, i);
    }
    if forall e :: e in entries ==> e.key != Str(key) {
      LookupMisses(entries, key);
    }
  }

  /** Both fields of a packet are what the map holds under the keys "data" and "signature". */
  lemma ReadFields(blob: Bytes, f: Fields)
    requires ReadPacket(blob) == Ok(f)
    ensures HeldUnder(Unpack(blob).value.entries, [0x64, 0x61, 0x74, 0x61], f.data)
    ensures HeldUnder(
      Unpack(blob).value.entries, [0x73, 0x69, 0x67, 0x6e, 0x61, 0x74, 0x75, 0x72, 0x65], f.signature)
  {
    FieldIsHeld(Unpack(blob).value.entries, KEY_DATA);
    FieldIsHeld(Unpack(blob).value.entries, KEY_SIGNATURE);
  }

  /** A short string and what follows it. */
  lemma ShortAhead(text: Bytes, rest: Bytes)
    requires |text| < 0x20
    ensures Unpack([0xa0 + |text|] + (text + rest)) == Got(Str(text), rest)
  {
    FixMarkers(|text|, text + rest);
    RawRoundTrip(text, rest);
  }

  /** Binary data with its length in one, two or four bytes, needed or not, and what follows it. */
  lemma {:induction false} BinAhead(length: Bytes, data: Bytes, rest: Bytes)
    requires |length| in {1, 2, 4} && Read(length) == |data|
    ensures Unpack(BinMarked(length) + (data + rest)) == Got(Bin(data), rest)
  {
    RawMarkers(length, data + rest);
    RawRoundTrip(data, rest);
  }

  function BinMarked(length: Bytes): Bytes {
    [if |length| == 1 then 0xc4 else if |length| == 2 then 0xc5 else 0xc6] + length
  }

  lemma {:induction false} OneEntry(s: Bytes, key: Value, afterKey: Bytes, val: Value, rest: Bytes)
    requires Unpack(s) == Got(key, afterKey) && Unpack(afterKey) == Got(val, rest)
    ensures Unpack([0x81] + s) == Got(Map([Entry(key, val)]), rest)
  {
    LastEntry(s, key, afterKey, val, rest);
    FixMarkers(1, s);
    MapBody([Entry(key, val)], s);
    AfterHead([0x81] + s, MapHead(1), s);
  }

  lemma {:induction false} AfterHead(s: Bytes, h: Head, rest: Bytes)
    requires ReadHead(s) == Got(h, rest)
    ensures Unpack(s) == UnpackBody(h, rest)
  {
  }

  lemma {:induction false} LastEntry(s: Bytes, key: Value, afterKey: Bytes, val: Value, rest: Bytes)
    requires Unpack(s) == Got(key, afterKey) && Unpack(afterKey) == Got(val, rest)
    ensures UnpackEntries(s, 1) == Got([Entry(key, val)], rest)
  {
    NoEntries(rest);
    EntriesStep(s, afterKey, rest, [Entry(key, val)]);
  }

  lemma NoEntries(s: Bytes)
    ensures UnpackEntries(s, 0) == Got([], s)
  {
  }

  /** A map that holds nothing but data is a packet without a signature. */
  lemma {:induction false} DataAlone(length: Bytes, data: Bytes, tail: Bytes)
    requires |length| in {1, 2, 4} && Read(length) == |data|
    ensures ReadPacket([0x81] + ([0xa4] + ([0x64, 0x61, 0x74, 0x61] + (BinMarked(length) + (data + tail)))))
         == Ok(Fields(data, []))
  {
    var blob := BinMarked(length) + (data + tail);
    ShortAhead(KEY_DATA, blob);
    BinAhead(length, data, tail);
    OneEntry([0xa4] + (KEY_DATA + blob), Str(KEY_DATA), blob, Bin(data), tail);
    OnlyData([Entry(Str(KEY_DATA), Bin(data))], data);
  }

  lemma {:induction false} OnlyData(entries: seq<Entry>, data: Bytes)
    requires entries == [Entry(Str(KEY_DATA), Bin(data))]
    ensures ReadEntries(entries) == Ok(Fields(data, []))
  {
    LookupIsFirst(entries, KEY_DATA, 0);
    LookupMisses(entries, KEY_SIGNATURE);
  }

  // ---------------------------------------------------------------- tolerance of the reader

  predicate Known(e: Entry) {
    e.key == Str(KEY_DATA) || e.key == Str(KEY_SIGNATURE)
  }

  /** The entries a reader looks at, in order. */
  function KnownEntries(entries: seq<Entry>): (r: seq<Entry>)
    ensures forall e :: e in r <==> e in entries && Known(e)
  {
    if entries == [] then []
    else (if Known(entries[0]) then [entries[0]] else []) + KnownEntries(entries[1..])
  }

  lemma {:induction false} LookupInKnown(entries: seq<Entry>, key: Bytes)
    requires key == KEY_DATA || key == KEY_SIGNATURE
    ensures Lookup(KnownEntries(entries), key) == Lookup(entries, key)
  {
    if entries != [] {
      LookupInKnown(entries[1..], key);
      var rest := KnownEntries(entries[1..]);
      if Known(entries[0]) {
        assert KnownEntries(entries)[1..] == rest;
      } else {
        assert KnownEntries(entries) == rest;
      }
    }
  }

  /** At most one entry has this key. */
  predicate Single(entries: seq<Entry>, key: Bytes) {
    forall i, j :: 0 <= i < j < |entries| ==> entries[i].key != Str(key) || entries[j].key != Str(key)
  }

  lemma LookupMember(entries: seq<Entry>, e: Entry, key: Bytes)
    requires e in entries && e.key == Str(key) && Single(entries, key)
    ensures Lookup(entries, key) == Some(e.val)
  {
    var i :| 0 <= i < |entries| && entries[i] == e;
    LookupIsFirst(entries, key, i);
  }

  lemma {:induction false} LookupFound(entries: seq<Entry>, key: Bytes)
    requires Lookup(entries, key).Some?
    ensures Entry(Str(key), Lookup(entries, key).value) in entries
  {
    if entries[0].key != Str(key) {
      LookupFound(entries[1..], key);
    }
  }

  lemma LookupPermuted(es: seq<Entry>, fs: seq<Entry>, key: Bytes)
    requires multiset(es) == multiset(fs) && Single(es, key)
    ensures Lookup(es, key) == Lookup(fs, key)
  {
    assert forall e :: e in es <==> e in multiset(es);
    assert forall e :: e in fs <==> e in multiset(fs);
    if Lookup(fs, key).Some? {
      LookupFound(fs, key);
      LookupMember(es, Entry(Str(key), Lookup(fs, key).value), key);
    } else if Lookup(es, key).Some? {
      LookupFound(es, key);
      var e := Entry(Str(key), Lookup(es, key).value);
      var i :| 0 <= i < |fs| && fs[i] == e;
      LookupSomewhere(fs, key, i);
    }
  }

  lemma {:induction false} LookupSomewhere(entries: seq<Entry>, key: Bytes, i: nat)
    requires i < |entries| && entries[i].key == Str(key)
    ensures Lookup(entries, key).Some?
  {
    if entries[0].key != Str(key) {
      LookupSomewhere(entries[1..], key, i - 1);
    }
  }

  /** Entries with other keys, wherever they stand and however many, change nothing. */
  lemma ForeignEntriesIgnored(es: seq<Entry>, fs: seq<Entry>)
    requires KnownEntries(es) == KnownEntries(fs)
    ensures ReadEntries(es) == ReadEntries(fs)
  {
    LookupInKnown(es, KEY_DATA);
    LookupInKnown(fs, KEY_DATA);
    LookupInKnown(es, KEY_SIGNATURE);
    LookupInKnown(fs, KEY_SIGNATURE);
  }

  /**
   Two blobs, however they encode their maps and whatever trails them, hold the same
   packet when their known entries are the same up to order and no known key repeats.
   */
  lemma ReaderTolerance(a: Bytes, b: Bytes)
    requires Unpack(a).Got? && Unpack(a).value.Map?
    requires Unpack(b).Got? && Unpack(b).value.Map?
    requires multiset(KnownEntries(Unpack(a).value.entries)) == multiset(KnownEntries(Unpack(b).value.entries))
    requires Single(KnownEntries(Unpack(a).value.entries), KEY_DATA)
    requires Single(KnownEntries(Unpack(a).value.entries), KEY_SIGNATURE)
    ensures ReadPacket(a) == ReadPacket(b)
  {
    EntriesTolerance(Unpack(a).value.entries, Unpack(b).value.entries);
  }

  lemma EntriesTolerance(es: seq<Entry>, fs: seq<Entry>)
    requires multiset(KnownEntries(es)) == multiset(KnownEntries(fs))
    requires Single(KnownEntries(es), KEY_DATA) && Single(KnownEntries(es), KEY_SIGNATURE)
    ensures ReadEntries(es) == ReadEntries(fs)
  {
    LookupTolerance(es, fs, KEY_DATA);
    LookupTolerance(es, fs, KEY_SIGNATURE);
  }

  lemma LookupTolerance(es: seq<Entry>, fs: seq<Entry>, key: Bytes)
    requires key == KEY_DATA || key == KEY_SIGNATURE
    requires multiset(KnownEntries(es)) == multiset(KnownEntries(fs)) && Single(KnownEntries(es), key)
    ensures Lookup(es, key) == Lookup(fs, key)
  {
    LookupInKnown(es, key);
    LookupInKnown(fs, key);
    LookupPermuted(KnownEntries(es), KnownEntries(fs), key);
  }

  /** With a repeated key the earlier entry wins. */
  lemma {:induction false} FirstEntryWins(es: seq<Entry>, fs: seq<Entry>, key: Bytes)
    ensures Lookup(es + fs, key) == if Lookup(es, key).Some? then Lookup(es, key) else Lookup(fs, key)
  {
    if es == [] {
      assert es + fs == fs;
    } else {
      assert (es + fs)[1..] == es[1..] + fs;
      FirstEntryWins(es[1..], fs, key);
    }
  }

  // ---------------------------------------------------------------- blobs that are not packets

  /** Whatever is read out of a blob is shorter than the blob. */
  lemma FieldsShorter(blob: Bytes)
    requires ReadPacket(blob).Ok?
    ensures |ReadPacket(blob).value.data| < |blob|
  {
    var h := ReadHead(blob);
    BodyPayload(h.value, h.rest);
    var entries := Unpack(blob).value.entries;
    EntriesShorter(h.rest, h.value.size);
    if Lookup(entries, KEY_DATA).Some? {
      LookupFound(entries, KEY_DATA);
      var e := Entry(Str(KEY_DATA), Lookup(entries, KEY_DATA).value);
      assert e in entries;
    }
  }

  /** The first value under the key, if there is one, is binary data or a string. */
  ghost predicate BytesUnder(entries: seq<Entry>, key: Bytes) {
    forall i: nat :: FirstAt(entries, key, i) ==> entries[i].val.Bin? || entries[i].val.Str?
  }

  /** A map whose known entries, where they are present, are byte strings. */
  ghost predicate HoldsPacket(v: Value) {
    v.Map? && BytesUnder(v.entries, KEY_DATA) && BytesUnder(v.entries, KEY_SIGNATURE)
  }

  lemma {:induction false} LookupIndex(entries: seq<Entry>, key: Bytes) returns (i: nat)
    requires Lookup(entries, key).Some?
    ensures FirstAt(entries, key, i) && Lookup(entries, key) == Some(entries[i].val)
  {
    if entries[0].key == Str(key) {
      i := 0;
    } else {
      i := LookupIndex(entries[1..], key);
      i := i + 1;
    }
  }

  lemma FieldIffBytes(entries: seq<Entry>, key: Bytes)
    ensures Field(entries, key).Ok? <==> BytesUnder(entries, key)
    ensures Field(entries, key).Threw? ==> Field(entries, key).error == TypeError
  {
    forall i: nat | FirstAt(entries, key, i)
      ensures Lookup(entries, key) == Some(entries[i].val)
    {
      LookupIsFirst(entries, key, i);
    }
    if Lookup(entries, key).Some? {
      var i := LookupIndex(entries, key);
    }
  }

  /** A blob is read as a packet, raises a type error or an unpack error by what its value is. */
  lemma ReadIffHeld(blob: Bytes)
    ensures ReadPacket(blob).Ok? <==> Unpack(blob).Got? && HoldsPacket(Unpack(blob).value)
    ensures ReadPacket(blob) == Threw(TypeError) <==> Unpack(blob).Got? && !HoldsPacket(Unpack(blob).value)
    ensures ReadPacket(blob) == Threw(UnpackError) <==> Unpack(blob).Bad?
  {
    if Unpack(blob).Got? && Unpack(blob).value.Map? {
      var entries := Unpack(blob).value.entries;
      FieldIffBytes(entries, KEY_DATA);
      FieldIffBytes(entries, KEY_SIGNATURE);
    }
  }

  /** A complete value that does not start with a map marker is told apart as no packet. */
  lemma UnmarkedIsNoPacket(blob: Bytes)
    requires blob != [] && !MapMarker(blob[0]) && Unpack(blob).Got?
    ensures ReadPacket(blob) == Threw(TypeError)
  {
    MapsAreMarked(blob);
  }

  /** Text starts with a byte below 0x80, which is a complete small integer. */
  lemma AsciiIsNoPacket(blob: Bytes)
    requires blob != [] && blob[0] < 0x80
    ensures ReadPacket(blob) == Threw(TypeError)
  {
    assert ReadHead(blob) == Got(IntegerHead(blob[0]), blob[1..]);
    assert Unpack(blob) == UnpackBody(IntegerHead(blob[0]), blob[1..]) == Got(Integer(blob[0]), blob[1..]);
  }
}
