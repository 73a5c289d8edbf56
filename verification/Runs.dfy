/**
 Pasting and getting as a whole: any number of pastes by any number of clients into one
 store, and what a reader then gets under a code.
 */
module Runs {
  import opened BigEndian
  import opened MsgPack
  import opened Outcomes
  import opened Packets
  import opened Pins
  import opened Uris
  import opened Ciphers
  import opened Bins

  /** A paste by a client whose configured key is `keyId`. */
  datatype Event = Event(keyId: string, request: Request)

  function Run(store: Store, events: seq<Event>): Store
    decreases |events|
  {
    if events == [] then store
    else Run(StoreAfter(store, events[0].keyId, events[0].request), events[1..])
  }

  ghost predicate Draws(events: seq<Event>, codeDraw: nat) {
    exists x :: x in events && x.request.codeDraw == codeDraw
  }

  ghost predicate ValidEvents(events: seq<Event>) {
    forall x :: x in events ==> ValidRequest(x.request)
  }

  lemma {:induction false} RunAppend(store: Store, a: seq<Event>, b: seq<Event>)
    ensures Run(store, a + b) == Run(Run(store, a), b)
    decreases |a|
  {
    if a == [] {
      assert a + b == b;
    } else {
      assert (a + b)[1..] == a[1..] + b;
      RunAppend(StoreAfter(store, a[0].keyId, a[0].request), a[1..], b);
    }
  }

  /** Pastes under other codes leave a code's values alone. */
  lemma {:induction false} OtherCodesKeep(store: Store, events: seq<Event>, codeDraw: nat)
    requires ValidEvents(events) && codeDraw < PIN_COUNT && !Draws(events, codeDraw)
    ensures At(Run(store, events), PinText(codeDraw)) == At(store, PinText(codeDraw))
    decreases |events|
  {
    if events != [] {
      var x := events[0];
      assert x in events;
      PinInjective(x.request.codeDraw, codeDraw);
      OtherCodesKeep(StoreAfter(store, x.keyId, x.request), events[1..], codeDraw);
    }
  }

  /** A run with one paste singled out. */
  datatype History = History(store: Store, before: seq<Event>, paste: Event, after: seq<Event>) {

    function Request(): Request {
      paste.request
    }

    /** The store at the end. */
    function Final(): Store {
      Run(store, before + [paste] + after)
    }

    function Packet(): Result<Fields> {
      Sealed(paste.keyId, paste.request)
    }

    function Mode(): Mode {
      ModeOf(paste.keyId, paste.request)
    }

    /** What the paste returned. */
    function Returned(): Result<string> {
      PasteResult(paste.keyId, paste.request)
    }

    /** No other paste of the run uses its code, and nothing was there before. */
    ghost predicate Lone() {
      && ValidEvents(before) && ValidEvents(after) && ValidRequest(paste.request)
      && !Draws(before, paste.request.codeDraw) && !Draws(after, paste.request.codeDraw)
      && At(store, Code(paste.request)) == []
    }
  }

  /**
   However often the blob was stored, over HTTP, by the node or by both, all values under
   the code are the one packet, so order and duplicates do not matter.
   */
  lemma AllValuesSame(h: History)
    requires h.Lone()
    ensures BlobOf(h.paste.keyId, h.paste.request).Ok? ==>
      At(h.Final(), Code(h.paste.request))
        == Repeated(BlobOf(h.paste.keyId, h.paste.request).value, Copies(h.paste.request.transport))
    ensures BlobOf(h.paste.keyId, h.paste.request).Threw? ==> At(h.Final(), Code(h.paste.request)) == []
  {
    var x := h.paste;
    var s1 := Run(h.store, h.before);
    var s2 := StoreAfter(s1, x.keyId, x.request);
    RunAppend(h.store, h.before + [x], h.after);
    RunAppend(h.store, h.before, [x]);
    assert [x][1..] == [];
    assert Run(s1, [x]) == s2;
    OtherCodesKeep(h.store, h.before, x.request.codeDraw);
    OtherCodesKeep(s2, h.after, x.request.codeDraw);
  }

  /** Asked for the location part of a text's code, some transport answers. */
  predicate Served(store: Store, text: string, s: Serving) {
    var code := CodeFromUri(text);
    |code| >= 2 * CODE_PASS_OFFSET && Fetched(store, LocationOf(code), s) != []
  }

  lemma FetchedFromStore(store: Store, code: string, s: Serving)
    ensures Fetched(store, code, s) == [] || Fetched(store, code, s) in At(store, code)
  {
    var node := NodeAnswer(store, code, s.node);
    if node != [] {
      assert node[0] in node;
    }
  }

  lemma FullCodeSplits(q: Request)
    requires ValidRequest(q)
    ensures IsUpperHexText(FullCode(q)) && IsUpperHexText(Code(q))
    ensures |FullCode(q)| >= 2 * CODE_PASS_OFFSET
    ensures LocationOf(FullCode(q)) == Code(q) && PasswordOfCode(FullCode(q)) == PasswordPart(q)
    ensures |FullCode(q)| == PIN_WITH_PASS_LEN <==> q.params.Some? && q.params.value.AesParameters?
    ensures |FullCode(q)| == |Code(q)| || |FullCode(q)| == PIN_WITH_PASS_LEN
  {
    PinRoundTrip(q.codeDraw);
    PinRoundTrip(q.passwordDraw);
  }

  /**
   The code that a getter cuts out of any accepted text locates the pasted blob, and so do the
   eight digits alone. Whichever transport stored it and whichever answers, it is what is fetched.
   */
  lemma GetterFindsBlob(h: History, text: string, s: Serving)
    requires h.Lone() && Served(h.Final(), text, s)
    requires Writes(text, FullCode(h.paste.request)) || Writes(text, Code(h.paste.request))
    ensures BlobOf(h.paste.keyId, h.paste.request)
         == Ok(Fetched(h.Final(), LocationOf(CodeFromUri(text)), s))
  {
    var q := h.paste.request;
    FullCodeSplits(q);
    if Writes(text, FullCode(q)) {
      WrittenCode(text, FullCode(q));
    } else {
      WrittenCode(text, Code(q));
      assert LocationOf(Code(q)) == Code(q);
    }
    AllValuesSame(h);
    FetchedFromStore(h.Final(), Code(q), s);
  }

  /** What was reported stored is served wherever the proxy answers with a first value. */
  lemma ReportedIsServed(h: History)
    requires h.Lone() && Honest(h.paste.request.transport)
    requires h.Returned().Ok? && h.Returned().value != ""
    ensures Served(h.Final(), h.Returned().value, Serving(Some(0), []))
    ensures Served(h.Final(), h.Returned().value, Serving(None, [0]))
  {
    var q := h.paste.request;
    AllValuesSame(h);
    FullCodeSplits(q);
    UriIsWritten(FullCode(q));
    WrittenCode(h.Returned().value, FullCode(q));
    ReadBack(Sealed(h.paste.keyId, q).value);
    FirstValueServed(h.Final(), Code(q));
  }

  lemma FirstValueServed(store: Store, code: string)
    requires At(store, code) != []
    ensures Fetched(store, code, Serving(Some(0), [])) == At(store, code)[0]
    ensures Fetched(store, code, Serving(None, [0])) == At(store, code)[0]
  {
    assert [0][..0] == [];
    assert NodeAnswer(store, code, [0]) == [At(store, code)[0]];
  }

  lemma ReadBack(f: Fields)
    requires Fits(f)
    ensures Wire(f) != [] && ReadPacket(Wire(f)) == Ok(f)
  {
    WireSize(f);
    PacketRoundTrip(f, []);
    assert Wire(f) + [] == Wire(f);
  }

  /** Getting is opening the sealed packet, for every way to write the code. */
  lemma GetOpensPacket(h: History, e: Engine, text: string, noDecrypt: bool, s: Serving)
    requires h.Lone() && Served(h.Final(), text, s) && Writes(text, FullCode(h.paste.request))
    ensures h.Packet().Ok?
    ensures |FullCode(h.paste.request)| >= 2 * CODE_PASS_OFFSET
    ensures GetResult(e, h.Final(), text, noDecrypt, s)
         == Ok(OpenPacket(e, h.Packet().value, FullCode(h.paste.request), noDecrypt))
  {
    GetterFindsBlob(h, text, s);
    FullCodeSplits(h.paste.request);
    WrittenCode(text, FullCode(h.paste.request));
    ReadBack(h.Packet().value);
  }

  // ---------------------------------------------------------------- sealing and opening agree

  /** The scheme variable is set, or by chance does not mean AES. */
  predicate SchemeSet(q: Request) {
    q.params.Some? || q.unset != AesScheme
  }

  /** The cipher a mode encrypts with. */
  function Encrypts(m: Mode): Scheme {
    match m
    case Plain => NoScheme
    case Signed => NoScheme
    case AesSealed(_) => AesScheme
    case PgpSealed(_, _) => GpgScheme
  }

  function SchemeOf(c: Option<Cipher>): Scheme {
    match c
    case None => NoScheme
    case Some(Aes) => AesScheme
    case Some(Gpg(_, _)) => GpgScheme
  }

  /** The classifier tells GPG cipher text from everything else that is stored. */
  predicate Classified(e: Engine, f: Fields, m: Mode) {
    e.pgpEncrypted(f.data) <==> m.PgpSealed?
  }

  /** The reader's cipher is the writer's exactly where the classifier tells what was stored. */
  lemma SchemeAgreement(keyId: string, q: Request, f: Fields, r: Engine)
    requires ValidRequest(q) && SchemeSet(q) && Sealed(keyId, q) == Ok(f)
    ensures SchemeOf(ByBlob(r, f.data, FullCode(q))) == Encrypts(ModeOf(keyId, q))
      <==> Classified(r, f, ModeOf(keyId, q))
    ensures |FullCode(q)| >= 2 * CODE_PASS_OFFSET
    ensures ModeOf(keyId, q).AesSealed? ==> ModeOf(keyId, q).password == PasswordOfCode(FullCode(q))
    ensures ModeOf(keyId, q).Signed? ==>
      exists k :: q.engine.key(keyId) == Some(k) && q.engine.pgpSign(k, f.data, q.salt) == Some(f.signature)
  {
    FullCodeSplits(q);
  }

  /** GPG encryption adds a zero byte that no reader takes away. */
  function Expected(m: Mode, data: Bytes): Bytes {
    if m.PgpSealed? then data + [0] else data
  }

  /** The reader holds the secret half of some recipient's key. */
  ghost predicate IsRecipient(w: Engine, r: Engine, m: Mode) {
    m.PgpSealed? ==> exists i, k :: 0 <= i < |m.recipients| && w.key(m.recipients[i]) == Some(k) && r.holds(k)
  }

  /** The reader's engine makes of a packet what the writer's engine was given. */
  predicate Reopens(r: Engine, f: Fields, m: Mode, data: Bytes) {
    match m
    case Plain => f == Fields(data, [])
    case Signed => f.data == data && r.pgpVerify(f.signature, data)
    case AesSealed(password) => f.signature == [] && r.aesOpen(f.data, password) == Some(data)
    case PgpSealed(_, _) => f.signature == [] && r.pgpOpen(f.data) == Some(data + [0])
  }

  lemma SealedReopens(keyId: string, q: Request, f: Fields, r: Engine)
    requires Sealed(keyId, q) == Ok(f)
    requires Compatible(q.engine, r) && IsRecipient(q.engine, r, ModeOf(keyId, q))
    ensures Reopens(r, f, ModeOf(keyId, q), q.data)
  {
    match ModeOf(keyId, q) {
      case Plain =>
      case Signed => SignedVerifies(keyId, q, f, r);
      case AesSealed(password) => AesOpens(q, f, r, password);
      case PgpSealed(recipients, sign) => PgpOpens(keyId, q, f, r, recipients, sign);
    }
  }

  /** Reading the packet with the wrong cipher does not give the expected bytes either. */
  predicate Apart(r: Engine, f: Fields, m: Mode, data: Bytes) {
    if m.PgpSealed? then f.data != data + [0] else r.pgpOpen(f.data) != Some(data)
  }

  lemma SealedApart(keyId: string, q: Request, f: Fields, r: Engine)
    requires Sealed(keyId, q) == Ok(f) && Reopens(r, f, ModeOf(keyId, q), q.data)
    requires Compatible(q.engine, r) && Separate(q.engine, r)
    ensures Apart(r, f, ModeOf(keyId, q), q.data)
  {
    match ModeOf(keyId, q) {
      case Plain =>
      case Signed =>
      case AesSealed(password) => AesOpens(q, f, r, password);
      case PgpSealed(_, _) =>
    }
  }

  lemma OpenReopened(r: Engine, f: Fields, m: Mode, data: Bytes, code: string)
    requires Reopens(r, f, m, data) && |code| >= 2 * CODE_PASS_OFFSET
    requires if m.AesSealed? then |code| == PIN_WITH_PASS_LEN && PasswordOfCode(code) == m.password else |code| == 8
    ensures Classified(r, f, m) ==> OpenPacket(r, f, code, false) == Output(true, Expected(m, data))
    ensures !Classified(r, f, m) && Apart(r, f, m, data) ==>
      OpenPacket(r, f, code, false) != Output(true, Expected(m, data))
  {
  }

  /** Opening undoes sealing exactly where the classifier tells what was stored. */
  lemma OpenUndoesSeal(keyId: string, q: Request, f: Fields, r: Engine)
    requires ValidRequest(q) && SchemeSet(q) && Sealed(keyId, q) == Ok(f)
    requires Compatible(q.engine, r) && IsRecipient(q.engine, r, ModeOf(keyId, q))
    ensures |FullCode(q)| >= 2 * CODE_PASS_OFFSET
    ensures var m := ModeOf(keyId, q);
      && (Classified(r, f, m) ==> OpenPacket(r, f, FullCode(q), false) == Output(true, Expected(m, q.data)))
      && (!Classified(r, f, m) && Separate(q.engine, r) ==>
            OpenPacket(r, f, FullCode(q), false) != Output(true, Expected(m, q.data)))
  {
    SealedReopens(keyId, q, f, r);
    FullCodeSplits(q);
    if Separate(q.engine, r) {
      SealedApart(keyId, q, f, r);
    }
    OpenReopened(r, f, ModeOf(keyId, q), q.data, FullCode(q));
  }

  lemma SignedVerifies(keyId: string, q: Request, f: Fields, r: Engine)
    requires SignedFields(keyId, q) == Ok(f) && Compatible(q.engine, r)
    ensures f.data == q.data && r.pgpVerify(f.signature, f.data)
  {
  }

  lemma AesOpens(q: Request, f: Fields, r: Engine, password: string)
    requires AesFields(q, password) == Ok(f) && Compatible(q.engine, r)
    ensures r.aesOpen(f.data, password) == Some(q.data)
    ensures f.signature == [] && Some(f.data) == q.engine.aesSeal(q.data, password, q.salt)
  {
  }

  lemma PgpOpens(
      keyId: string, q: Request, f: Fields, r: Engine, recipients: seq<string>, sign: bool)
    requires PgpFields(keyId, q, recipients, sign) == Ok(f) && Compatible(q.engine, r)
    requires IsRecipient(q.engine, r, PgpSealed(recipients, sign))
    ensures r.pgpOpen(f.data) == Some(q.data + [0]) && f.signature == []
  {
    var signer := if sign then q.engine.key(keyId) else None;
    var keys := KeysOf(q.engine, recipients).value;
    var i, k :| 0 <= i < |recipients| && q.engine.key(recipients[i]) == Some(k) && r.holds(k);
    assert keys[i] == k;
    assert q.engine.pgpSeal(keys, signer, q.data + [0], q.salt).Some?;
  }

  /** A reader of the paste: asks with an accepted text, is answered, and has the keys. */
  ghost predicate Reader(h: History, r: Engine, text: string, s: Serving) {
    && h.Lone() && SchemeSet(h.paste.request)
    && Served(h.Final(), text, s) && Writes(text, FullCode(h.paste.request))
    && Compatible(h.paste.request.engine, r) && IsRecipient(h.paste.request.engine, r, h.Mode())
  }

  /**
   End to end: after any run in which no other paste uses the code, a reader gets the pasted
   bytes (and one zero byte after GPG encryption), whichever transport stored them and whichever
   answers, exactly where the stored data classifies as PGP cipher text if and only if the paste
   was GPG encrypted.
   */
  lemma EndToEnd(h: History, r: Engine, text: string, s: Serving)
    requires Reader(h, r, text, s)
    ensures h.Packet().Ok?
    ensures Classified(r, h.Packet().value, h.Mode()) ==>
      GetResult(r, h.Final(), text, false, s) == Ok(Output(true, Expected(h.Mode(), h.paste.request.data)))
    ensures !Classified(r, h.Packet().value, h.Mode()) && Separate(h.paste.request.engine, r) ==>
      GetResult(r, h.Final(), text, false, s) != Ok(Output(true, Expected(h.Mode(), h.paste.request.data)))
  {
    GetOpensPacket(h, r, text, false, s);
    OpenUndoesSeal(h.paste.keyId, h.paste.request, h.Packet().value, r);
  }

  /** The returned URI is one of the accepted texts. */
  lemma UriRoundTrip(h: History, r: Engine, s: Serving)
    requires h.Returned().Ok? && h.Returned().value != ""
    requires h.Lone() && SchemeSet(h.paste.request) && Served(h.Final(), h.Returned().value, s)
    requires Compatible(h.paste.request.engine, r) && IsRecipient(h.paste.request.engine, r, h.Mode())
    requires Classified(r, h.Packet().value, h.Mode())
    ensures GetResult(r, h.Final(), h.Returned().value, false, s)
         == Ok(Output(true, Expected(h.Mode(), h.paste.request.data)))
  {
    UriIsWritten(FullCode(h.paste.request));
    EndToEnd(h, r, h.Returned().value, s);
  }

  /** Well classified data comes back as it was pasted exactly where it was not GPG encrypted. */
  lemma UnchangedIffNotPgpSealed(h: History, r: Engine, text: string, s: Serving)
    requires Reader(h, r, text, s) && h.Packet().Ok? && Classified(r, h.Packet().value, h.Mode())
    ensures GetResult(r, h.Final(), text, false, s) == Ok(Output(true, h.paste.request.data))
      <==> !h.Mode().PgpSealed?
    ensures h.Mode().PgpSealed? ==>
      GetResult(r, h.Final(), text, false, s) == Ok(Output(true, h.paste.request.data + [0]))
  {
    EndToEnd(h, r, text, s);
    assert |h.paste.request.data + [0]| == |h.paste.request.data| + 1;
  }

  lemma LonePacket(q: Request)
    requires Capable(q.engine) && |q.data| < 0x1000 && SchemeSet(q)
    requires q.params.Some? ==>
      q.params.value.GpgParameters? && |q.params.value.recipients| == 1 && !q.params.value.sign
    requires forall ks, s, p, n :: |q.engine.pgpSeal(ks, s, p, n).value| == |p| + 1
    ensures Sealed("", q).Ok? && Fits(Sealed("", q).value)
    ensures IsRecipient(q.engine, q.engine, ModeOf("", q))
  {
    if q.params.Some? {
      var id := q.params.value.recipients[0];
      assert q.params.value.recipients == [id];
      assert q.engine.key(id) == Some(id) && q.engine.holds(id);
      assert ModeOf("", q) == PgpSealed([id], false);
    }
  }

  /** A capable client without a configured key, alone with its paste. */
  lemma LonePaste(e: Engine, data: Bytes, params: Option<Parameters>) returns (h: History)
    requires Capable(e) && Compatible(e, e)
    requires |data| < 0x1000
    requires params.Some? ==>
      params.value.GpgParameters? && |params.value.recipients| == 1 && !params.value.sign
    requires forall ks, s, p, n :: e.pgpSeal(ks, s, p, n).Some? ==> |e.pgpSeal(ks, s, p, n).value| == |p| + 1
    ensures h.Lone() && h.paste.keyId == "" && SchemeSet(h.paste.request)
    ensures h.paste.request.engine == e && h.paste.request.data == data && h.paste.request.params == params
    ensures h.Packet().Ok? && h.Returned() == Ok(PREFIX + FullCode(h.paste.request))
    ensures Reader(h, e, h.Returned().value, Serving(Some(0), []))
  {
    var q := Request(e, data, params, NoScheme, 0, 0, 0, Transport(true, true, false, false));
    h := History(map[], [], Event("", q), []);
    LonePacket(q);
    UriIsWritten(FullCode(q));
    ReportedIsServed(h);
  }

  lemma PgpClassified(keyId: string, q: Request)
    requires Sealed(keyId, q).Ok? && ModeOf(keyId, q).PgpSealed? && Discerning(q.engine)
    ensures q.engine.pgpEncrypted(Sealed(keyId, q).value.data)
  {
    var m := ModeOf(keyId, q);
    var keys := KeysOf(q.engine, m.recipients).value;
    var signer := if m.sign then q.engine.key(keyId) else None;
    assert q.engine.pgpSeal(keys, signer, q.data + [0], q.salt).Some?;
  }

  /** A run in which a GPG-encrypted paste of nothing comes back as a zero byte. */
  lemma ZeroByteRun() returns (h: History, r: Engine, s: Serving)
    ensures Reader(h, r, PREFIX + FullCode(h.paste.request), s) && h.Mode().PgpSealed? && h.Packet().Ok?
    ensures Classified(r, h.Packet().value, h.Mode())
    ensures h.paste.request.data == []
    ensures GetResult(r, h.Final(), PREFIX + FullCode(h.paste.request), false, s) == Ok(Output(true, [0]))
  {
    r := MarkingEngine();
    s := Serving(Some(0), []);
    h := LonePaste(r, [], Some(GpgParameters("", ["recipient"], false, false)));
    PgpClassified(h.paste.keyId, h.paste.request);
    UnchangedIffNotPgpSealed(h, r, PREFIX + FullCode(h.paste.request), s);
    assert h.paste.request.data + [0] == [0];
  }

  /** An unencrypted paste comes back exactly where its own bytes are no PGP cipher text. */
  lemma ClearPasteComesBackIff(h: History, r: Engine, text: string, s: Serving)
    requires Reader(h, r, text, s) && Separate(h.paste.request.engine, r)
    requires h.Mode().Plain? || h.Mode().Signed?
    ensures GetResult(r, h.Final(), text, false, s) == Ok(Output(true, h.paste.request.data))
      <==> !r.pgpEncrypted(h.paste.request.data)
  {
    EndToEnd(h, r, text, s);
    ClearPacket(h.paste.keyId, h.paste.request);
  }

  lemma ClearPacket(keyId: string, q: Request)
    requires (ModeOf(keyId, q).Plain? || ModeOf(keyId, q).Signed?) && Sealed(keyId, q).Ok?
    ensures Sealed(keyId, q).value.data == q.data
  {
  }

  /** Pasted PGP cipher text is decrypted, or the getter fails. */
  lemma PastedCipherText(h: History, r: Engine, text: string, s: Serving)
    requires Reader(h, r, text, s)
    requires h.Mode().Plain? || h.Mode().Signed?
    requires r.pgpEncrypted(h.paste.request.data)
    ensures GetResult(r, h.Final(), text, false, s) == Ok(
      match r.pgpOpen(h.paste.request.data) case None => FAILURE case Some(plain) => Output(true, plain))
  {
    GetOpensPacket(h, r, text, false, s);
    ClearPacket(h.paste.keyId, h.paste.request);
  }

  /** A run in which a plain paste of such data cannot be got. */
  lemma CipherTextRun() returns (h: History, r: Engine, s: Serving)
    ensures Reader(h, r, PREFIX + FullCode(h.paste.request), s) && h.paste.request.params == None
    ensures GetResult(r, h.Final(), PREFIX + FullCode(h.paste.request), false, s) == Ok(FAILURE)
  {
    r := MarkingEngine();
    s := Serving(Some(0), []);
    h := LonePaste(r, [1], None);
    PastedCipherText(h, r, PREFIX + FullCode(h.paste.request), s);
  }

  /**
   From an input stream: its first 65536 bytes come back, so all of them exactly where there are
   no more than that.
   */
  lemma StreamRoundTrip(h: History, r: Engine, text: string, s: Serving, input: Bytes)
    requires Reader(h, r, text, s) && h.Packet().Ok? && Classified(r, h.Packet().value, h.Mode())
    requires !h.Mode().PgpSealed? && h.paste.request.data == DataFromStream(input)
    ensures GetResult(r, h.Final(), text, false, s)
         == Ok(Output(true, if |input| <= MAX_VALUE_SIZE then input else input[..MAX_VALUE_SIZE]))
    ensures GetResult(r, h.Final(), text, false, s) == Ok(Output(true, input)) <==> |input| <= MAX_VALUE_SIZE
  {
    UnchangedIffNotPgpSealed(h, r, text, s);
    assert |input| == MAX_VALUE_SIZE ==> input[..MAX_VALUE_SIZE] == input;
  }

  /** Without decryption the stored data comes back: cipher text as such, other data as pasted. */
  lemma NoDecryptReturnsStored(h: History, r: Engine, text: string, s: Serving)
    requires h.Lone() && Compatible(h.paste.request.engine, r)
    requires Served(h.Final(), text, s) && Writes(text, FullCode(h.paste.request))
    ensures h.Packet().Ok?
    ensures GetResult(r, h.Final(), text, true, s) == Ok(Output(true, h.Packet().value.data))
  {
    GetOpensPacket(h, r, text, true, s);
    SignatureHolds(h.paste.keyId, h.paste.request, h.Packet().value, r);
  }

  /** The location code alone finds an AES paste, and prints its cipher text as a success. */
  lemma AesWithoutPassword(h: History, r: Engine, text: string, noDecrypt: bool, s: Serving)
    requires h.Lone() && Compatible(h.paste.request.engine, r) && h.Mode().AesSealed?
    requires Served(h.Final(), text, s) && Writes(text, Code(h.paste.request))
    requires h.Packet().Ok? && !r.pgpEncrypted(h.Packet().value.data)
    ensures GetResult(r, h.Final(), text, noDecrypt, s) == Ok(Output(true, h.Packet().value.data))
    ensures IsCipherText(h.paste.keyId, h.paste.request, h.Packet().value)
  {
    var q := h.paste.request;
    GetterFindsBlob(h, text, s);
    FullCodeSplits(q);
    WrittenCode(text, Code(q));
    ReadBack(h.Packet().value);
    AesOpens(q, h.Packet().value, r, h.Mode().password);
  }

  lemma SignatureHolds(keyId: string, q: Request, f: Fields, r: Engine)
    requires Sealed(keyId, q) == Ok(f) && Compatible(q.engine, r)
    ensures f.signature == [] || r.pgpVerify(f.signature, f.data)
  {
    if ModeOf(keyId, q).Signed? {
      SignedVerifies(keyId, q, f, r);
    }
  }

  /** Who includes the own key as a recipient can read the own GPG paste. */
  lemma SelfRecipientReads(keyId: string, q: Request, f: Fields)
    requires ValidRequest(q) && Sealed(keyId, q) == Ok(f) && Compatible(q.engine, q.engine)
    requires ModeOf(keyId, q).PgpSealed? && q.params.value.selfRecipient && keyId != ""
    requires forall k :: q.engine.key(keyId) == Some(k) ==> q.engine.holds(k)
    requires q.engine.pgpEncrypted(f.data)
    ensures OpenPacket(q.engine, f, FullCode(q), false) == Output(true, q.data + [0])
  {
    var m := ModeOf(keyId, q);
    var n := |m.recipients| - 1;
    assert m.recipients[n] == keyId;
    assert q.engine.key(keyId).Some?;
    OpenUndoesSeal(keyId, q, f, q.engine);
  }

  // ---------------------------------------------------------------- what one paste makes and answers

  /** Without parameters the data is stored as it is. */
  lemma PlainPacket(keyId: string, q: Request)
    requires q.params.None? && SchemeSet(q)
    ensures Sealed(keyId, q) == Ok(Fields(q.data, []))
  {
  }

  /** With AES it is what the engine makes of the data and of the password in the code. */
  lemma AesPacket(keyId: string, q: Request, f: Fields)
    requires q.params.Some? && q.params.value.AesParameters?
    ensures Sealed(keyId, q) == Ok(f) <==> exists c ::
      && q.engine.aesSeal(q.data, PinText(q.passwordDraw), q.salt) == Some(c)
      && f == Fields(if c == [] then q.data else c, [])
    ensures Sealed(keyId, q).Threw? ==> Sealed(keyId, q).error == CryptoError
    ensures FullCode(q) == PinText(q.codeDraw) + PinText(q.passwordDraw)
  {
    var sealed := q.engine.aesSeal(q.data, PinText(q.passwordDraw), q.salt);
    assert sealed.Some? ==> sealed == Some(sealed.value);
  }

  /** The keys of all recipients, and the own key behind them where it is to be included. */
  ghost predicate SealingKeys(keyId: string, e: Engine, p: Parameters, keys: seq<Key>)
    requires p.GpgParameters?
  {
    && |keys| == |p.recipients| + (if p.selfRecipient && keyId != "" then 1 else 0)
    && (forall i :: 0 <= i < |p.recipients| ==> e.key(p.recipients[i]) == Some(keys[i]))
    && (p.selfRecipient && keyId != "" ==> e.key(keyId) == Some(keys[|p.recipients|]))
  }

  /**
   With GPG recipients it is what the engine makes of the data and a zero byte, for the keys of
   all recipients and of the own key where that is to be included, signed with the own key where
   that is wanted and configured, with another zero byte behind. Otherwise the paste raises.
   */
  lemma PgpPacket(keyId: string, q: Request, f: Fields)
    requires q.params.Some? && q.params.value.GpgParameters? && q.params.value.recipients != []
    ensures var p := q.params.value;
      Sealed(keyId, q) == Ok(f) <==>
        && (keyId != "" ==> q.engine.key(keyId).Some?)
        && exists keys, c ::
          && SealingKeys(keyId, q.engine, p, keys)
          && q.engine.pgpSeal(
               keys, if p.sign && keyId != "" then q.engine.key(keyId) else None, q.data + [0], q.salt) == Some(c)
          && f == Fields(c + [0], [])
  {
    var p := q.params.value;
    var own := p.selfRecipient && keyId != "";
    var all := if own then p.recipients + [keyId] else p.recipients;
    SealedForRecipients(keyId, q);
    if keyId != "" ==> q.engine.key(keyId).Some? {
      PgpFieldsIff(keyId, q, all, p.sign && keyId != "", f);
      forall keys: seq<Key>
        ensures KeysFor(q.engine, all, keys) <==> SealingKeys(keyId, q.engine, p, keys)
      {
        KeysWithOwn(q.engine, p.recipients, own, keyId, keys);
      }
    }
  }

  /** GPG pastes to recipients raise nothing but GPG errors. */
  lemma SealedForRecipients(keyId: string, q: Request)
    requires q.params.Some? && q.params.value.GpgParameters? && q.params.value.recipients != []
    ensures keyId != "" && q.engine.key(keyId).None? ==> Sealed(keyId, q) == Threw(GpgError)
    ensures (keyId != "" ==> q.engine.key(keyId).Some?) ==>
      var p := q.params.value;
      var all := if p.selfRecipient && keyId != "" then p.recipients + [keyId] else p.recipients;
      Sealed(keyId, q) == PgpFields(keyId, q, all, p.sign && keyId != "")
    ensures Sealed(keyId, q).Threw? ==> Sealed(keyId, q).error == GpgError
  {
  }

  lemma KeysWithOwn(e: Engine, recipients: seq<string>, own: bool, keyId: string, keys: seq<Key>)
    ensures KeysFor(e, if own then recipients + [keyId] else recipients, keys) <==>
      && |keys| == |recipients| + (if own then 1 else 0)
      && (forall i :: 0 <= i < |recipients| ==> e.key(recipients[i]) == Some(keys[i]))
      && (own ==> e.key(keyId) == Some(keys[|recipients|]))
  {
    if own {
      var all := recipients + [keyId];
      assert forall i :: 0 <= i < |recipients| ==> all[i] == recipients[i];
      assert all[|recipients|] == keyId;
    }
  }

  lemma PgpFieldsIff(keyId: string, q: Request, recipients: seq<string>, sign: bool, f: Fields)
    ensures PgpFields(keyId, q, recipients, sign) == Ok(f) <==> exists keys, c ::
      && KeysFor(q.engine, recipients, keys)
      && q.engine.pgpSeal(keys, if sign then q.engine.key(keyId) else None, q.data + [0], q.salt) == Some(c)
      && f == Fields(c + [0], [])
  {
    var signer := if sign then q.engine.key(keyId) else None;
    if PgpFields(keyId, q, recipients, sign) == Ok(f) {
      var keys := KeysOf(q.engine, recipients).value;
      var c := q.engine.pgpSeal(keys, signer, q.data + [0], q.salt).value;
      assert KeysFor(q.engine, recipients, keys);
      assert q.engine.pgpSeal(keys, signer, q.data + [0], q.salt) == Some(c);
    }
    forall keys | KeysFor(q.engine, recipients, keys)
      ensures KeysOf(q.engine, recipients) == Ok(keys)
    {
      KeysAreOne(q.engine, recipients, keys);
    }
  }

  /** With GPG and no recipients the data stays clear, and is signed where that is wanted and configured. */
  lemma ClearGpgPacket(keyId: string, q: Request)
    requires q.params.Some? && q.params.value.GpgParameters? && q.params.value.recipients == []
    ensures Sealed(keyId, q) ==
      if keyId == "" then Ok(Fields(q.data, []))
      else if q.engine.key(keyId).None? then Threw(GpgError)
      else if !q.params.value.sign then Ok(Fields(q.data, []))
      else match q.engine.pgpSign(q.engine.key(keyId).value, q.data, q.salt)
        case None => Threw(GpgError)
        case Some(signature) => Ok(Fields(q.data, signature))
  {
  }

  /**
   What a paste does: it raises and stores nothing where there is no packet or the packet is too
   large; else it stores the packed packet once for each transport that keeps it, and returns the
   URI exactly where one of them reports success.
   */
  lemma PasteOutcome(store: Store, keyId: string, q: Request)
    ensures PasteResult(keyId, q).Ok? <==> Sealed(keyId, q).Ok? && Fits(Sealed(keyId, q).value)
    ensures PasteResult(keyId, q).Threw? ==> StoreAfter(store, keyId, q) == store
    ensures Sealed(keyId, q).Threw? ==> PasteResult(keyId, q) == Threw(Sealed(keyId, q).error)
    ensures Sealed(keyId, q).Ok? && PasteResult(keyId, q).Threw? ==> PasteResult(keyId, q) == Threw(SizeOverflow)
    ensures PasteResult(keyId, q).Ok? ==>
      var t := q.transport;
      && (PasteResult(keyId, q) == Ok("dpaste:" + FullCode(q)) <==> t.httpOk || t.nodeOk)
      && (PasteResult(keyId, q) == Ok("") <==> !t.httpOk && !t.nodeOk)
    ensures PasteResult(keyId, q).Ok? ==>
      var t := q.transport;
      var copies := (if t.httpStored then 1 else 0) + (if !t.httpOk && t.nodeStored then 1 else 0);
      var had, has := At(store, Code(q)), At(StoreAfter(store, keyId, q), Code(q));
      && |has| == |had| + copies
      && has[..|had|] == had
      && (forall i :: |had| <= i < |has| ==> has[i] == Wire(Sealed(keyId, q).value))
    ensures forall code :: code != Code(q) ==> At(StoreAfter(store, keyId, q), code) == At(store, code)
  {
    if PasteResult(keyId, q).Ok? {
      var copies := Repeated(Wire(Sealed(keyId, q).value), Copies(q.transport));
      assert |"dpaste:" + FullCode(q)| > 0;
      assert forall i :: 0 <= i < |copies| ==> copies[i] in copies;
    }
  }

  /**
   Over a run: the user is given the URI exactly where a transport reports success, and what is
   given is served.
   */
  lemma ReturnedUriIff(h: History)
    requires h.Lone() && h.Packet().Ok? && Fits(h.Packet().value)
    ensures var t := h.paste.request.transport;
      && (h.Returned() == Ok("dpaste:" + FullCode(h.paste.request)) <==> t.httpOk || t.nodeOk)
      && (h.Returned() == Ok("") <==> !t.httpOk && !t.nodeOk)
      && (Honest(t) && (t.httpOk || t.nodeOk) ==>
            Served(h.Final(), "dpaste:" + FullCode(h.paste.request), Serving(Some(0), [])))
  {
    PasteOutcome(h.store, h.paste.keyId, h.paste.request);
    assert |"dpaste:" + FullCode(h.paste.request)| > 0;
    var t := h.paste.request.transport;
    if Honest(t) && (t.httpOk || t.nodeOk) {
      ReportedIsServed(h);
    }
  }

  // ---------------------------------------------------------------- what one get answers

  /** The transports answer the getter of this text with a packet. */
  ghost predicate Finds(store: Store, text: string, s: Serving, f: Fields) {
    var code := CodeFromUri(text);
    |code| >= 8 && Fetched(store, code[..8], s) != [] && ReadPacket(Fetched(store, code[..8], s)) == Ok(f)
  }

  /** A packet that is taken for clear comes back exactly where it is unsigned or its signature verifies. */
  lemma GetClear(e: Engine, store: Store, text: string, noDecrypt: bool, s: Serving, f: Fields)
    requires Finds(store, text, s, f)
    requires !e.pgpEncrypted(f.data) && |CodeFromUri(text)| != 16
    ensures GetResult(e, store, text, noDecrypt, s) == Ok(Output(true, f.data))
      <==> f.signature == [] || e.pgpVerify(f.signature, f.data)
    ensures f.signature != [] && !e.pgpVerify(f.signature, f.data) ==>
      GetResult(e, store, text, noDecrypt, s) == Ok(Output(false, []))
  {
  }

  /** A packet that is taken for cipher text is opened, or is the failure of the getter. */
  lemma GetSealed(e: Engine, store: Store, text: string, s: Serving, f: Fields)
    requires Finds(store, text, s, f)
    requires e.pgpEncrypted(f.data) || |CodeFromUri(text)| == 16
    ensures var plain :=
        if e.pgpEncrypted(f.data) then e.pgpOpen(f.data) else e.aesOpen(f.data, CodeFromUri(text)[8..]);
      && (plain.Some? ==> GetResult(e, store, text, false, s) == Ok(Output(true, plain.value)))
      && (plain.None? ==> GetResult(e, store, text, false, s) == Ok(Output(false, [])))
    ensures GetResult(e, store, text, true, s) == Ok(Output(true, f.data))
  {
  }

  /** Without a value a getter succeeds with nothing; a code that is too short raises. */
  lemma GetNothing(e: Engine, store: Store, text: string, noDecrypt: bool, s: Serving)
    ensures |CodeFromUri(text)| < 8 ==> GetResult(e, store, text, noDecrypt, s) == Threw(OutOfRange)
    ensures |CodeFromUri(text)| >= 8 && At(store, CodeFromUri(text)[..8]) == [] ==>
      GetResult(e, store, text, noDecrypt, s) == Ok(Output(true, []))
  {
    if |CodeFromUri(text)| >= 8 && At(store, CodeFromUri(text)[..8]) == [] {
      NothingThere(store, CodeFromUri(text)[..8], s);
    }
  }

  // ---------------------------------------------------------------- no silent plain text

  /**
   Where a paste is to be encrypted, either nothing is stored at all, or every value that is
   stored holds the engine's own cipher text and no signature.
   */
  lemma NoSilentPlaintext(store: Store, keyId: string, q: Request)
    requires Encrypts(ModeOf(keyId, q)) != NoScheme
    requires forall p, pw, n :: q.engine.aesSeal(p, pw, n) != Some([])
    ensures PasteResult(keyId, q).Threw? ==> StoreAfter(store, keyId, q) == store
    ensures PasteResult(keyId, q).Ok? ==> exists f ::
      && Fits(f)
      && IsCipherText(keyId, q, f)
      && At(StoreAfter(store, keyId, q), Code(q)) == At(store, Code(q)) + Repeated(Wire(f), Copies(q.transport))
  {
    if PasteResult(keyId, q).Ok? {
      var f := Sealed(keyId, q).value;
      assert IsCipherText(keyId, q, f);
    }
  }

  /** The packet is what one of the engines made of the data, and nothing else. */
  predicate IsCipherText(keyId: string, q: Request, f: Fields) {
    && f.signature == []
    && match ModeOf(keyId, q)
       case AesSealed(password) => q.engine.aesSeal(q.data, password, q.salt) == Some(f.data)
       case PgpSealed(recipients, sign) =>
         var signer := if sign then q.engine.key(keyId) else None;
         (match EngineCipherText(q.engine, recipients, signer, q.data + [0], q.salt)
          case Threw(_) => false
          case Ok(ct) => f.data == ct + [0])
       case _ => false
  }

  /** Nothing depends on the recipient flag that a sign-only request leaves uninitialised. */
  lemma SelfFlagIrrelevantWithoutRecipients(keyId: string, q: Request, self: bool)
    requires q.params.Some? && q.params.value.GpgParameters? && q.params.value.recipients == []
    ensures var q' := q.(params := Some(q.params.value.(selfRecipient := self)));
      && Sealed(keyId, q') == Sealed(keyId, q)
      && PasteResult(keyId, q') == PasteResult(keyId, q)
      && forall store :: StoreAfter(store, keyId, q') == StoreAfter(store, keyId, q)
  {
  }

  /** A reader of an unencrypted paste without parameters gets the pasted bytes. */
  ghost predicate PlainComesBack(q: Request, e: Engine) {
    && |FullCode(q)| >= 2 * CODE_PASS_OFFSET
    && (Sealed("", q).Ok? && !e.pgpEncrypted(Sealed("", q).value.data) ==>
          OpenPacket(e, Sealed("", q).value, FullCode(q), false) == Output(true, q.data))
  }

  ghost predicate PlainRequest(q: Request, unset: Scheme, e: Engine) {
    ValidRequest(q) && q.params.None? && q.unset == unset && Compatible(q.engine, e)
  }

  /**
   A paste without parameters leaves the scheme variable uninitialised. It works for all
   engines and data exactly where that memory does not read as AES.
   */
  lemma PlainPasteNeedsSchemeSet(unset: Scheme)
    ensures (forall q, e :: PlainRequest(q, unset, e) ==> PlainComesBack(q, e)) <==> unset != AesScheme
  {
    if unset == AesScheme {
      var e := MarkingEngine();
      var q := Request(e, [], None, unset, 0, 0, 0, Transport(true, true, true, true));
      assert PlainRequest(q, unset, e);
      assert e.aesSeal(q.data, "", 0).Some? && e.aesSeal(q.data, "", 0).value != q.data;
      assert !PlainComesBack(q, e) by { AesOpens(q, Sealed("", q).value, e, ""); }
    } else {
      forall q, e | PlainRequest(q, unset, e)
        ensures PlainComesBack(q, e)
      {
        FullCodeSplits(q);
      }
    }
  }

  // ---------------------------------------------------------------- blobs of older versions

  /**
   A stored blob that is not of this program's format comes back byte for byte, with and
   without decryption, exactly where it starts with a whole MessagePack value that is no packet.
   */
  lemma LegacyBlob(e: Engine, blob: Bytes, code: string)
    requires blob != [] && |code| >= 2 * CODE_PASS_OFFSET
    ensures (forall noDecrypt :: Opened(e, blob, code, noDecrypt) == Ok(Output(true, blob)))
      <==> Unpack(blob).Got? && !HoldsPacket(Unpack(blob).value)
  {
    ReadIffHeld(blob);
    if ReadPacket(blob).Ok? {
      FieldsShorter(blob);
    }
    if ReadPacket(blob) != Threw(TypeError) {
      assert Opened(e, blob, code, true) != Ok(Output(true, blob));
    }
  }

  /** The getter of a code under which there are only copies of such a blob. */
  ghost predicate OnlyBlob(store: Store, text: string, s: Serving, blob: Bytes) {
    Served(store, text, s) && forall b :: b in At(store, LocationOf(CodeFromUri(text))) ==> b == blob
  }

  /** Every blob that starts with a whole value other than a map is got byte for byte. */
  lemma LegacyUnmarked(
      e: Engine, store: Store, text: string, noDecrypt: bool, s: Serving, blob: Bytes)
    requires OnlyBlob(store, text, s, blob)
    requires blob != [] && !MapMarker(blob[0]) && Unpack(blob).Got?
    ensures GetResult(e, store, text, noDecrypt, s) == Ok(Output(true, blob))
  {
    FetchedFromStore(store, LocationOf(CodeFromUri(text)), s);
    UnmarkedIsNoPacket(blob);
  }

  /** In particular where it starts with an ASCII character. */
  lemma LegacyText(
      e: Engine, store: Store, text: string, noDecrypt: bool, s: Serving, blob: Bytes)
    requires OnlyBlob(store, text, s, blob)
    requires blob != [] && blob[0] < 0x80
    ensures GetResult(e, store, text, noDecrypt, s) == Ok(Output(true, blob))
  {
    AsciiIsNoPacket(blob);
    LegacyUnmarked(e, store, text, noDecrypt, s, blob);
  }

  /** A blob that is no complete value ends the getter with an exception, and nothing else does. */
  lemma LegacyRaises(
      e: Engine, store: Store, text: string, noDecrypt: bool, s: Serving, blob: Bytes)
    requires OnlyBlob(store, text, s, blob)
    ensures GetResult(e, store, text, noDecrypt, s).Threw? <==> Unpack(blob).Bad?
  {
    FetchedFromStore(store, LocationOf(CodeFromUri(text)), s);
    ReadIffHeld(blob);
  }

  /** Such as the single byte 0xd9, which announces a string. */
  lemma LegacyCounterexample(e: Engine, code: string)
    requires |code| >= 2 * CODE_PASS_OFFSET
    ensures Opened(e, [0xd9], code, false) == Threw(UnpackError)
  {
    var blob: Bytes := [0xd9];
    assert blob[1..] == [];
    assert ReadNumber([], 1) == Bad;
    assert ReadHead(blob) == Bad;
    assert Unpack(blob) == Bad;
  }
}
