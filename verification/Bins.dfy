/**
 `Bin`: pasting a value under a fresh code and getting it back.

 The HTTP proxy and the local node reach the same store, under the same hash of the
 location code. What they do with a request is an input: a put may be stored or not and
 reported or not, and a get may be answered by nothing or by stored values.
 */
module Bins {
  import opened BigEndian
  import opened Outcomes
  import opened Packets
  import opened Pins
  import opened Uris
  import opened Ciphers
  import Config

  // ---------------------------------------------------------------- the store

  /** The values under each location code, in any order. */
  type Store = map<string, seq<Bytes>>

  function At(store: Store, code: string): seq<Bytes> {
    if code in store then store[code] else []
  }

  function Repeated(blob: Bytes, copies: nat): (r: seq<Bytes>)
    ensures |r| == copies && forall b :: b in r ==> b == blob
  {
    seq(copies, _ => blob)
  }

  function PutCopies(store: Store, code: string, blob: Bytes, copies: nat): (s: Store)
    ensures At(s, code) == At(store, code) + Repeated(blob, copies)
    ensures forall c :: c != code ==> At(s, c) == At(store, c)
  {
    if copies == 0 then store else store[code := At(store, code) + Repeated(blob, copies)]
  }

  /** What became of a put: over HTTP and, where that reported failure, by the node. */
  datatype Transport = Transport(httpStored: bool, httpOk: bool, nodeStored: bool, nodeOk: bool)

  /** A success report is true. A failure report need not be. */
  predicate Honest(t: Transport) {
    (t.httpOk ==> t.httpStored) && (t.nodeOk ==> t.nodeStored)
  }

  function Copies(t: Transport): nat {
    (if t.httpStored then 1 else 0) + (if !t.httpOk && t.nodeStored then 1 else 0)
  }

  predicate Reported(t: Transport) {
    t.httpOk || t.nodeOk
  }

  lemma TwoPuts(store: Store, code: string, blob: Bytes, t: Transport)
    ensures var s1 := if t.httpStored then PutCopies(store, code, blob, 1) else store;
      var s2 := if !t.httpOk && t.nodeStored then PutCopies(s1, code, blob, 1) else s1;
      s2 == PutCopies(store, code, blob, Copies(t))
  {
    assert Repeated(blob, 2) == Repeated(blob, 1) + Repeated(blob, 1);
    var once := PutCopies(store, code, blob, 1);
    assert At(once, code) + Repeated(blob, 1) == At(store, code) + Repeated(blob, 2);
  }

  // ---------------------------------------------------------------- preparing a packet

  /** One paste: what the user asks for, what is drawn at random, what the transports do. */
  datatype Request = Request(
    engine: Engine,
    data: Bytes,
    params: Option<Parameters>,
    unset: Scheme,        // what the uninitialised scheme variable holds
    codeDraw: nat,
    passwordDraw: nat,
    salt: nat,
    transport: Transport)

  predicate ValidRequest(q: Request) {
    q.codeDraw < PIN_COUNT && q.passwordDraw < PIN_COUNT
  }

  /** How a paste is protected. */
  datatype Mode =
    | Plain
    | Signed
    | AesSealed(password: string)
    | PgpSealed(recipients: seq<string>, sign: bool)

  /**
   The mode that parameters and configured key stand for. Without parameters the scheme
   is never set, so that whatever its memory holds decides.
   */
  function ModeOf(keyId: string, q: Request): Mode {
    match q.params
    case None => if q.unset == AesScheme then AesSealed("") else Plain
    case Some(AesParameters(_)) => AesSealed(PinText(q.passwordDraw))
    case Some(GpgParameters(id, recipients, self, sign)) =>
      if recipients != [] then
        PgpSealed(if self && keyId != "" then recipients + [keyId] else recipients, sign && keyId != "")
      else if sign && keyId != "" then Signed
      else Plain
  }

  /** A configured key that cannot be found makes every GPG request fail. */
  predicate KeyMissing(keyId: string, q: Request) {
    q.params.Some? && q.params.value.GpgParameters? && keyId != "" && q.engine.key(keyId).None?
  }

  /** The packet that a mode calls for. */
  function Sealed(keyId: string, q: Request): Result<Fields> {
    if KeyMissing(keyId, q) then Threw(GpgError)
    else match ModeOf(keyId, q)
      case Plain => Ok(Fields(q.data, []))
      case Signed => SignedFields(keyId, q)
      case AesSealed(password) => AesFields(q, password)
      case PgpSealed(recipients, sign) => PgpFields(keyId, q, recipients, sign)
  }

  function SignedFields(keyId: string, q: Request): Result<Fields> {
    match q.engine.key(keyId)
    case None => Threw(GpgError)
    case Some(k) =>
      match q.engine.pgpSign(k, q.data, q.salt)
      case None => Threw(GpgError)
      case Some(signature) => Ok(Fields(q.data, signature))
  }

  /** An engine that answers with nothing at all would have the plain text stored. */
  function AesFields(q: Request, password: string): Result<Fields> {
    match AesCipherText(q.engine, q.data, password, q.salt)
    case Threw(x) => Threw(x)
    case Ok(ct) => Ok(Fields(if ct == [] then q.data else ct, []))
  }

  /** A zero byte is sealed behind the data, and another one follows the cipher text. */
  function PgpFields(keyId: string, q: Request, recipients: seq<string>, sign: bool): Result<Fields> {
    match EngineCipherText(q.engine, recipients, if sign then q.engine.key(keyId) else None, q.data + [0], q.salt)
    case Threw(x) => Threw(x)
    case Ok(ct) => Ok(Fields(ct + [0], []))
  }

  /** A GPG request seen from the cipher object that serves it. */
  lemma SealedByGpg(keyId: string, q: Request)
    requires q.params.Some? && q.params.value.GpgParameters?
    ensures NewGpg(q.engine, keyId).Threw? ==> Sealed(keyId, q) == Threw(GpgError)
    ensures NewGpg(q.engine, keyId).Ok? ==>
      var p, keys := q.params.value, NewGpg(q.engine, keyId).value.signingKeys;
      && (p.recipients != [] ==>
            var signer := if p.sign && keyId != "" then Some(keys[0]) else None;
            var ct := EngineCipherText(q.engine, AllRecipients(keyId, p), signer, q.data + [0], q.salt);
            Sealed(keyId, q) == match ct case Threw(x) => Threw(x) case Ok(text) => Ok(Fields(text + [0], [])))
      && (p.recipients == [] && p.sign && keyId != "" ==>
            var signature := q.engine.pgpSign(keys[0], q.data, q.salt);
            Sealed(keyId, q) == match signature case None => Threw(GpgError) case Some(s) => Ok(Fields(q.data, s)))
      && (p.recipients == [] && !(p.sign && keyId != "") ==> Sealed(keyId, q) == Ok(Fields(q.data, [])))
  {
  }

  /** The password that goes into the code. */
  function PasswordPart(q: Request): string {
    if q.params.Some? && q.params.value.AesParameters? then PinText(q.passwordDraw) else ""
  }

  function Code(q: Request): string {
    PinText(q.codeDraw)
  }

  /** Location code and password. */
  function FullCode(q: Request): string {
    Code(q) + PasswordPart(q)
  }

  // ---------------------------------------------------------------- pasting

  /** The bytes to be stored. */
  function BlobOf(keyId: string, q: Request): Result<Bytes> {
    match Sealed(keyId, q)
    case Threw(x) => Threw(x)
    case Ok(f) => WireOf(f)
  }

  function WireOf(f: Fields): Result<Bytes> {
    if Fits(f) then Ok(Wire(f)) else Threw(SizeOverflow)
  }

  function StoreAfter(store: Store, keyId: string, q: Request): Store {
    match BlobOf(keyId, q)
    case Threw(_) => store
    case Ok(blob) => PutCopies(store, Code(q), blob, Copies(q.transport))
  }

  /** The URI to be printed, empty for failure. */
  function PasteResult(keyId: string, q: Request): Result<string> {
    match BlobOf(keyId, q)
    case Threw(x) => Threw(x)
    case Ok(_) => Ok(if Reported(q.transport) then PREFIX + FullCode(q) else "")
  }

  lemma Regrouped(a: string, b: string, c: string)
    ensures a + b + c == a + (b + c)
  {
  }

  // ---------------------------------------------------------------- getting

  const CODE_PASS_OFFSET: nat := 4

  /** The part of a code that locates the value. */
  function LocationOf(code: string): string
    requires |code| >= 2 * CODE_PASS_OFFSET
  {
    code[..2 * CODE_PASS_OFFSET]
  }

  /** The rest of it. */
  function PasswordOfCode(code: string): string
    requires |code| >= 2 * CODE_PASS_OFFSET
  {
    code[2 * CODE_PASS_OFFSET..]
  }

  /**
   Which of the values under the code that they are asked for the transports answer with:
   none or one for the proxy, any in any order for the node. A pick beyond the values there
   is answered by nothing.
   */
  datatype Serving = Serving(http: Option<nat>, node: seq<nat>)

  function HttpAnswer(store: Store, code: string, pick: Option<nat>): (answer: Bytes)
    ensures answer == [] || answer in At(store, code)
  {
    if pick.Some? && pick.value < |At(store, code)| then At(store, code)[pick.value] else []
  }

  function NodeAnswer(store: Store, code: string, picks: seq<nat>): (answer: seq<Bytes>)
    ensures forall b :: b in answer ==> b in At(store, code)
  {
    if picks == [] then []
    else
      var n := |picks| - 1;
      NodeAnswer(store, code, picks[..n]) + (if picks[n] < |At(store, code)| then [At(store, code)[picks[n]]] else [])
  }

  /** The blob a getter works on: HTTP's answer, else the node's first value. */
  function Fetched(store: Store, code: string, s: Serving): Bytes {
    var http, node := HttpAnswer(store, code, s.http), NodeAnswer(store, code, s.node);
    if http != [] then http else if node != [] then node[0] else []
  }

  /** Success flag and output. */
  datatype Output = Output(ok: bool, data: Bytes)

  const FAILURE := Output(false, [])

  function OpenPacket(e: Engine, f: Fields, code: string, noDecrypt: bool): Output
    requires |code| >= 2 * CODE_PASS_OFFSET
  {
    match ByBlob(e, f.data, code)
    case Some(cipher) =>
      if noDecrypt then Output(true, f.data)
      else
        (match ProcessCipherText(e, cipher, f.data, PasswordOfCode(code))
         case Threw(_) => FAILURE
         case Ok(plain) => Output(true, plain))
    case None =>
      if f.signature == [] || e.pgpVerify(f.signature, f.data) then Output(true, f.data) else FAILURE
  }

  /** What a getter makes of a blob. Anything that is no packet is taken as it is. */
  function Opened(e: Engine, blob: Bytes, code: string, noDecrypt: bool): Result<Output>
    requires |code| >= 2 * CODE_PASS_OFFSET
  {
    if blob == [] then Ok(Output(true, []))
    else match ReadPacket(blob)
      case Ok(f) => Ok(OpenPacket(e, f, code, noDecrypt))
      case Threw(x) => if x == TypeError then Ok(Output(true, blob)) else Threw(x)
  }

  function GetResult(e: Engine, store: Store, uri: string, noDecrypt: bool, s: Serving): Result<Output> {
    var code := CodeFromUri(uri);
    if |code| < 2 * CODE_PASS_OFFSET then Threw(OutOfRange)
    else Opened(e, Fetched(store, LocationOf(code), s), code, noDecrypt)
  }

  /** A non-empty value that the proxy answers with is taken, whatever the node would answer. */
  lemma ProxyFirst(store: Store, code: string, s: Serving)
    requires s.http.Some? && s.http.value < |At(store, code)| && At(store, code)[s.http.value] != []
    ensures Fetched(store, code, s) == At(store, code)[s.http.value]
  {
  }

  /** Else it is the first value that the node finds. */
  lemma NodeFront(store: Store, code: string, s: Serving, k: nat)
    requires s.http.Some? ==> s.http.value >= |At(store, code)| || At(store, code)[s.http.value] == []
    requires k < |s.node| && s.node[k] < |At(store, code)|
    requires forall i :: 0 <= i < k ==> s.node[i] >= |At(store, code)|
    ensures Fetched(store, code, s) == At(store, code)[s.node[k]]
  {
    FirstAnswer(store, code, s.node, k);
  }

  lemma {:induction false} FirstAnswer(store: Store, code: string, picks: seq<nat>, k: nat)
    requires k < |picks| && picks[k] < |At(store, code)|
    requires forall i :: 0 <= i < k ==> picks[i] >= |At(store, code)|
    ensures NodeAnswer(store, code, picks) != [] && NodeAnswer(store, code, picks)[0] == At(store, code)[picks[k]]
    decreases |picks|
  {
    var front := picks[..|picks| - 1];
    LastPick(store, code, picks);
    if k < |front| {
      FirstAnswer(store, code, front, k);
    } else {
      NoAnswer(store, code, front);
    }
  }

  lemma LastPick(store: Store, code: string, picks: seq<nat>)
    requires picks != []
    ensures var n, values := |picks| - 1, At(store, code);
      NodeAnswer(store, code, picks)
      == NodeAnswer(store, code, picks[..n]) + (if picks[n] < |values| then [values[picks[n]]] else [])
  {
  }

  lemma {:induction false} NoAnswer(store: Store, code: string, picks: seq<nat>)
    requires forall i :: 0 <= i < |picks| ==> picks[i] >= |At(store, code)|
    ensures NodeAnswer(store, code, picks) == []
    decreases |picks|
  {
    if picks != [] {
      NoAnswer(store, code, picks[..|picks| - 1]);
    }
  }

  /** Where there is no value under the code, nothing is fetched. */
  lemma NothingThere(store: Store, code: string, s: Serving)
    requires At(store, code) == []
    ensures Fetched(store, code, s) == []
  {
    NoAnswer(store, code, s.node);
  }

  // ---------------------------------------------------------------- the object

  /** The store behind the proxy and the node. */
  class Network {
    var store: Store

    constructor ()
      ensures store == map[]
    {
      store := map[];
    }

    /** Either transport: keeps the value or not, and says something about it. */
    method Put(code: string, blob: Bytes, stored: bool, ok: bool) returns (success: bool)
      modifies this
      ensures success == ok
      ensures store == if stored then PutCopies(old(store), code, blob, 1) else old(store)
    {
      if stored {
        store := PutCopies(store, code, blob, 1);
      }
      success := ok;
    }

    /** `HttpClient::get`: one of the values under the code, or nothing. */
    method HttpGet(code: string, pick: Option<nat>) returns (answer: Bytes)
      ensures answer == HttpAnswer(store, code, pick)
    {
      answer := [];
      if code in store && pick.Some? && pick.value < |store[code]| {
        answer := store[code][pick.value];
      }
    }

    /** `Node::get`: the values that were found under the code. */
    method NodeGet(code: string, picks: seq<nat>) returns (blobs: seq<Bytes>)
      ensures blobs == NodeAnswer(store, code, picks)
    {
      blobs := [];
      var values := At(store, code);
      var i := 0;
      while i < |picks|
        invariant i <= |picks| && blobs == NodeAnswer(store, code, picks[..i])
      {
        assert picks[..i + 1][..i] == picks[..i];
        if picks[i] < |values| {
          blobs := blobs + [values[picks[i]]];
        }
        i := i + 1;
      }
      assert picks[..i] == picks;
    }
  }

  class Bin {
    var conf: Config.Settings
    const network: Network

    ghost predicate Valid()
      reads this
    {
      Config.Sound(conf)
    }

    /** `file` is the text of the user's configuration file, if there is one. */
    constructor (network: Network, userConfigDir: string, file: Option<string>)
      ensures Valid() && this.network == network
      ensures conf == if file.Some? then Config.LoadText(Config.DEFAULTS, file.value) else Config.DEFAULTS
    {
      var configFile := new Config.ConfigurationFile("", userConfigDir);
      var status := configFile.Load(file);
      this.network := network;
      this.conf := configFile.config;
    }

    /** `Bin::prepare_data`: step by step over the cipher objects. */
    method PrepareData(q: Request) returns (r: Result<(Fields, string)>)
      requires Valid() && ValidRequest(q)
      ensures r ==
        match Sealed(conf["pgp_key_id"], q)
        case Threw(x) => Threw(x)
        case Ok(f) => Ok((f, PasswordPart(q)))
    {
      var p := new Packet();
      var password := "";
      var params := q.params;
      var init: Option<Parameters> := None;
      var scheme := q.unset;
      var toSign := false;
      if params.Some? && params.value.GpgParameters? {
        var keyId := conf["pgp_key_id"];
        toSign := params.value.sign && keyId != "";
        scheme := GpgScheme;
        init := Some(GpgParameters(keyId, [], false, false));
        SealedByGpg(keyId, q);
      } else if params.Some? {
        scheme := AesScheme;
        password := RandomPin(q.passwordDraw);
        params := Some(AesParameters(password));
      }
      var cipher := ByScheme(q.engine, scheme, init);
      if cipher.Threw? {
        return Threw(cipher.error);
      }
      if cipher.value.None? {
        p.data := p.data + q.data;
        assert p.data == q.data;
        return Ok((Fields(p.data, p.signature), password));
      }
      var c := cipher.value.value;
      var cipherText := ProcessPlainText(q.engine, c, q.data, params, q.salt);
      if cipherText.Threw? {
        return Threw(cipherText.error);
      }
      if cipherText.value == [] {
        p.data := p.data + q.data;
        assert p.data == q.data;
        if toSign {
          var signature := q.engine.pgpSign(c.signingKeys[0], p.data, q.salt);
          if signature.None? {
            return Threw(GpgError);
          }
          p.signature := signature.value;
        }
      } else {
        p.data := cipherText.value;
      }
      return Ok((Fields(p.data, p.signature), password));
    }

    /** `Bin::paste` */
    method Paste(q: Request) returns (r: Result<string>)
      requires Valid() && ValidRequest(q)
      modifies network
      ensures conf == old(conf)
      ensures network.store == StoreAfter(old(network.store), conf["pgp_key_id"], q)
      ensures r == PasteResult(conf["pgp_key_id"], q)
    {
      var code := RandomPin(q.codeDraw);
      var prepared := PrepareData(q);
      if prepared.Threw? {
        return Threw(prepared.error);
      }
      var blob := Serialized(prepared.value.0);
      if blob.Threw? {
        return Threw(blob.error);
      }
      var success := Publish(code, blob.value, q.transport);
      Regrouped(PREFIX, code, prepared.value.1);
      return Ok(if success then PREFIX + code + prepared.value.1 else "");
    }

    /** `Packet::serialize` of a prepared packet. */
    method Serialized(f: Fields) returns (blob: Result<Bytes>)
      ensures blob == WireOf(f)
    {
      var p := new Packet();
      p.data, p.signature := f.data, f.signature;
      blob := p.Serialize();
    }

    /** The proxy is tried first; the node is asked where it reports failure. */
    method Publish(code: string, blob: Bytes, t: Transport) returns (success: bool)
      modifies network
      ensures network.store == PutCopies(old(network.store), code, blob, Copies(t))
      ensures success == Reported(t)
    {
      TwoPuts(network.store, code, blob, t);
      success := network.Put(code, blob, t.httpStored, t.httpOk);
      if !success {
        success := network.Put(code, blob, t.nodeStored, t.nodeOk);
      }
    }

    /** `Bin::paste` of an input stream. */
    method PasteStream(input: Bytes, q: Request) returns (r: Result<string>)
      requires Valid() && ValidRequest(q)
      modifies network
      ensures conf == old(conf)
      ensures var streamed := q.(data := DataFromStream(input));
        && network.store == StoreAfter(old(network.store), conf["pgp_key_id"], streamed)
        && r == PasteResult(conf["pgp_key_id"], streamed)
    {
      r := Paste(q.(data := DataFromStream(input)));
    }

    /** `Bin::get`; `s` says how the transports answer what they are asked for. */
    method Get(e: Engine, uri: string, noDecrypt: bool, s: Serving) returns (r: Result<Output>)
      ensures r == GetResult(e, network.store, uri, noDecrypt, s)
    {
      var code := CodeFromUri(uri);
      var offset := CODE_PASS_OFFSET * 2;
      if |code| < offset {
        return Threw(OutOfRange);
      }
      var location := code[..offset];
      var password := code[offset..];
      var data := network.HttpGet(location, s.http);
      if data == [] {
        var values := network.NodeGet(location, s.node);
        if values != [] {
          data := values[0];
        }
      }
      if data != [] {
        var p := new Packet();
        var parsed := p.Deserialize(data);
        if parsed == Threw(TypeError) {
          return Ok(Output(true, data));
        }
        if parsed.Threw? {
          return Threw(parsed.error);
        }
        var cipher := ByBlob(e, p.data, code);
        if cipher.Some? && !noDecrypt {
          var plain := ProcessCipherText(e, cipher.value, p.data, password);
          if plain.Threw? {
            return Ok(FAILURE);
          }
          data := plain.value;
        } else {
          data := p.data;
        }
        if !(cipher.Some? || p.signature == []) {
          if !e.pgpVerify(p.signature, data) {
            return Ok(FAILURE);
          }
        }
      }
      return Ok(Output(true, data));
    }
  }
}
