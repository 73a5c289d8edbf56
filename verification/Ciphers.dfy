/**
 The ciphers: which one is chosen, and what they do around the two crypto engines.
 The engines themselves (GpgME and OpenDHT's AES-GCM) are parameters.
 */
module Ciphers {
  import opened BigEndian
  import opened Outcomes

  type Key = string

  /** One machine's crypto libraries and keyring. `None` stands for an engine error. */
  datatype Engine = Engine(
    key: string -> Option<Key>,                                  // look a key up by its ID
    holds: Key -> bool,                                          // the secret half is in the keyring
    aesSeal: (Bytes, string, nat) -> Option<Bytes>,              // plain text, password, randomness
    aesOpen: (Bytes, string) -> Option<Bytes>,
    pgpSeal: (seq<Key>, Option<Key>, Bytes, nat) -> Option<Bytes>, // recipients, signer, plain text, randomness
    pgpOpen: Bytes -> Option<Bytes>,
    pgpSign: (Key, Bytes, nat) -> Option<Bytes>,
    pgpVerify: (Bytes, Bytes) -> bool,                           // signature, signed bytes
    pgpEncrypted: Bytes -> bool)                                 // the classifier of GpgME::Data

  /** What the writer's engine seals and signs, the reader's engine opens and verifies. */
  ghost predicate Compatible(w: Engine, r: Engine) {
    && (forall p, pw, n :: w.aesSeal(p, pw, n).Some? ==>
          w.aesSeal(p, pw, n).value != [] && r.aesOpen(w.aesSeal(p, pw, n).value, pw) == Some(p))
    && (forall ks, s, p, n :: w.pgpSeal(ks, s, p, n).Some? && (exists k :: k in ks && r.holds(k)) ==>
          r.pgpOpen(w.pgpSeal(ks, s, p, n).value + [0]) == Some(p))
    && (forall k, d, n :: w.pgpSign(k, d, n).Some? ==>
          w.pgpSign(k, d, n).value != [] && r.pgpVerify(w.pgpSign(k, d, n).value, d))
  }

  /**
   Decryption never answers with what it was asked to decrypt, and the reader's GPG engine
   does not happen to open the writer's AES cipher text.
   */
  ghost predicate Separate(w: Engine, r: Engine) {
    && (forall c :: r.pgpOpen(c) != Some(c))
    && (forall p, pw, n :: w.aesSeal(p, pw, n).Some? ==> r.pgpOpen(w.aesSeal(p, pw, n).value) != Some(p))
  }

  /** The engine finds every key and never fails to seal or sign. */
  ghost predicate Capable(e: Engine) {
    && (forall id :: e.key(id) == Some(id) && e.holds(id))
    && (forall p, pw, n :: e.aesSeal(p, pw, n).Some?)
    && (forall ks, s, p, n :: e.pgpSeal(ks, s, p, n).Some?)
    && (forall k, d, n :: e.pgpSign(k, d, n).Some?)
  }

  /** The classifier knows the engine's own GPG cipher text and takes nothing else it makes for that. */
  ghost predicate Discerning(e: Engine) {
    && (forall ks, s, p, n :: e.pgpSeal(ks, s, p, n).Some? ==> e.pgpEncrypted(e.pgpSeal(ks, s, p, n).value + [0]))
    && (forall p, pw, n :: e.aesSeal(p, pw, n).Some? ==> !e.pgpEncrypted(e.aesSeal(p, pw, n).value))
  }

  /** All laws can be met together: by an engine that only marks what it seals. */
  lemma MarkingEngine() returns (e: Engine)
    ensures Capable(e) && Compatible(e, e) && Separate(e, e) && Discerning(e)
    ensures forall p, pw, n :: e.aesSeal(p, pw, n) != Some(p)
    ensures forall b: Bytes :: e.pgpEncrypted(b) <==> b != [] && b[0] == 1
    ensures forall ks, s, p, n :: e.pgpSeal(ks, s, p, n).Some? ==> |e.pgpSeal(ks, s, p, n).value| == |p| + 1
    ensures e.pgpOpen([1]) == None
  {
    e := Engine(
      id => Some(id),
      k => true,
      (p: Bytes, pw, n) => Some([2] + p),
      (c: Bytes, pw) => if c == [] then None else Some(c[1..]),
      (ks, s, p: Bytes, n) => Some([1] + p),
      (c: Bytes) => if |c| < 2 then None else Some(c[1..|c| - 1]),
      (k, d, n) => Some([3]),
      (s, d) => true,
      (b: Bytes) => b != [] && b[0] == 1);
    forall p: Bytes, pw: string, n: nat
      ensures e.aesSeal(p, pw, n).value != p
      ensures e.aesOpen(e.aesSeal(p, pw, n).value, pw) == Some(p)
      ensures e.pgpOpen(e.aesSeal(p, pw, n).value) != Some(p)
    {
      var c: Bytes := [2] + p;
      assert |c| == |p| + 1 && c[1..] == p;
    }
    forall c: Bytes
      ensures e.pgpOpen(c) != Some(c)
    {
      assert |c| >= 2 ==> |c[1..|c| - 1]| < |c|;
    }
    forall ks: seq<Key>, s: Option<Key>, p: Bytes, n: nat
      ensures e.pgpOpen(e.pgpSeal(ks, s, p, n).value + [0]) == Some(p)
    {
      var c: Bytes := [1] + p + [0];
      assert c[1..|c| - 1] == p;
    }
  }

  // ---------------------------------------------------------------- choosing a cipher

  datatype Scheme = NoScheme | GpgScheme | AesScheme

  datatype Parameters =
    | GpgParameters(keyId: string, recipients: seq<string>, selfRecipient: bool, sign: bool)
    | AesParameters(password: string)

  /** A cipher object. A GPG one has looked its signing key up when it was made. */
  datatype Cipher = Gpg(signer: string, signingKeys: seq<Key>) | Aes

  const PIN_WITH_PASS_LEN: nat := 16

  function NewGpg(e: Engine, signer: string): (r: Result<Cipher>)
    ensures r.Ok? ==> r.value.Gpg? && (r.value.signer == "" <==> r.value.signingKeys == [])
  {
    if signer == "" then Ok(Gpg("", []))
    else match e.key(signer)
      case None => Threw(GpgError)
      case Some(k) => Ok(Gpg(signer, [k]))
  }

  /** `Cipher::get` for a reader: from the stored data and the length of the PIN. */
  function ByBlob(e: Engine, data: Bytes, pin: string): Option<Cipher> {
    if e.pgpEncrypted(data) then Some(Gpg("", []))
    else if |pin| == PIN_WITH_PASS_LEN then Some(Aes)
    else None
  }

  /**
   `Cipher::get` for a writer: from the scheme and the initial parameters. A GPG cipher has a
   signing key exactly where it has a signer, so "sign, but no key" does not occur.
   */
  function ByScheme(e: Engine, scheme: Scheme, init: Option<Parameters>): (r: Result<Option<Cipher>>)
    ensures r.Ok? && r.value.Some? && r.value.value.Gpg? ==>
      (r.value.value.signer == "" <==> r.value.value.signingKeys == [])
    ensures r.Threw? ==> init.Some? && init.value.GpgParameters? && e.key(init.value.keyId) == None
  {
    match scheme
    case AesScheme => Ok(Some(Aes))
    case NoScheme => Ok(None)
    case GpgScheme =>
      var signer := if init.Some? && init.value.GpgParameters? then init.value.keyId else "";
      match NewGpg(e, signer)
      case Threw(x) => Threw(x)
      case Ok(c) => Ok(Some(c))
  }

  // ---------------------------------------------------------------- engine data

  const BUFLEN: nat := 1024

  /** GpgME::Data: bytes and a position. */
  class GpgData {
    const content: Bytes
    var pos: nat

    ghost predicate Valid()
      reads this
    {
      pos <= |content|
    }

    constructor (content: Bytes)
      ensures this.content == content && pos == |content| && Valid()
    {
      this.content := content;
      pos := |content|;
    }

    method Rewind()
      modifies this
      ensures pos == 0 && Valid()
    {
      pos := 0;
    }

    /** At most `limit` bytes from the position on; none at the end. */
    method Read(limit: nat) returns (chunk: Bytes)
      requires Valid() && limit > 0
      modifies this
      ensures Valid() && pos == old(pos) + |chunk| && |chunk| <= limit
      ensures chunk == content[old(pos)..pos]
      ensures chunk == [] <==> old(pos) == |content|
    {
      var n := if |content| - pos < limit then |content| - pos else limit;
      chunk := content[pos..pos + n];
      pos := pos + n;
    }
  }

  /** `dataToVector` collects all of the data, wherever its position was. */
  method DataToVector(d: GpgData) returns (v: Bytes)
    modifies d
    ensures v == d.content
  {
    d.Rewind();
    v := [];
    var chunk := d.Read(BUFLEN);
    while chunk != []
      invariant d.Valid()
      invariant v + chunk == d.content[..d.pos]
      invariant chunk == [] ==> d.pos == |d.content|
      decreases |d.content| - d.pos, |chunk|
    {
      v := v + chunk;
      chunk := d.Read(BUFLEN);
    }
  }

  // ---------------------------------------------------------------- GPG encryption

  /** The keys of all recipients; a missing one raises. */
  function KeysOf(e: Engine, recipients: seq<string>): (r: Result<seq<Key>>)
    ensures r.Ok? ==> |r.value| == |recipients|
    ensures r.Ok? ==> forall i :: 0 <= i < |recipients| ==> e.key(recipients[i]) == Some(r.value[i])
    ensures r.Threw? ==> r.error == GpgError && exists i :: 0 <= i < |recipients| && e.key(recipients[i]) == None
  {
    if recipients == [] then Ok([])
    else
      var n := |recipients| - 1;
      match KeysOf(e, recipients[..n])
      case Threw(x) => Threw(x)
      case Ok(keys) =>
        match e.key(recipients[n])
        case None => Threw(GpgError)
        case Some(k) => Ok(keys + [k])
  }

  /** What the engine makes of a plain text for these recipients. */
  function EngineCipherText(e: Engine, recipients: seq<string>, signer: Option<Key>, plain: Bytes, salt: nat)
    : Result<Bytes>
  {
    match KeysOf(e, recipients)
    case Threw(x) => Threw(x)
    case Ok(keys) =>
      match e.pgpSeal(keys, signer, plain, salt)
      case None => Threw(GpgError)
      case Some(c) => Ok(c)
  }

  /** `keys` are the keys of all the recipients, in order. */
  ghost predicate KeysFor(e: Engine, recipients: seq<string>, keys: seq<Key>) {
    |keys| == |recipients| && forall i :: 0 <= i < |recipients| ==> e.key(recipients[i]) == Some(keys[i])
  }

  /** Every list of recipients whose keys are all there has one list of keys. */
  lemma KeysAreOne(e: Engine, recipients: seq<string>, keys: seq<Key>)
    requires KeysFor(e, recipients, keys)
    ensures KeysOf(e, recipients) == Ok(keys)
  {
    var r := KeysOf(e, recipients);
    if r.Ok? {
      assert keys == r.value;
    }
  }

  /**
   `GPG::encrypt` puts a zero byte behind the plain text and another behind the cipher text.
   The engine is asked with the keys of all recipients, and with the signing key where the text
   is to be signed.
   */
  method Encrypt(e: Engine, signingKeys: seq<Key>, recipients: seq<string>, plain: Bytes, sign: bool, salt: nat)
    returns (r: Result<Bytes>)
    ensures sign && signingKeys == [] ==> r == Ok([])
    ensures !(sign && signingKeys == []) ==>
      var c := EngineCipherText(e, recipients, if sign then Some(signingKeys[0]) else None, plain + [0], salt);
      r == match c case Threw(x) => Threw(x) case Ok(ct) => Ok(ct + [0])
    ensures !(sign && signingKeys == []) && r.Ok? ==> exists keys, c ::
      && KeysFor(e, recipients, keys)
      && e.pgpSeal(keys, if sign then Some(signingKeys[0]) else None, plain + [0], salt) == Some(c)
      && r == Ok(c + [0])
    ensures r.Threw? ==>
      || (exists i :: 0 <= i < |recipients| && e.key(recipients[i]) == None)
      || (exists keys :: KeysFor(e, recipients, keys)
            && e.pgpSeal(keys, if sign then Some(signingKeys[0]) else None, plain + [0], salt) == None)
  {
    if sign && signingKeys == [] {
      return Ok([]);
    }
    var text := plain;
    text := text + [0];
    var keys: seq<Key> := [];
    var i := 0;
    while i < |recipients|
      invariant i <= |recipients| && |keys| == i
      invariant forall j :: 0 <= j < i ==> e.key(recipients[j]) == Some(keys[j])
    {
      var k := e.key(recipients[i]);
      if k.None? {
        return Threw(GpgError);
      }
      keys := keys + [k.value];
      i := i + 1;
    }
    KeysAreOne(e, recipients, keys);
    var sealed := e.pgpSeal(keys, if sign then Some(signingKeys[0]) else None, text, salt);
    assert KeysFor(e, recipients, keys) && text == plain + [0];
    assert e.pgpSeal(keys, if sign then Some(signingKeys[0]) else None, plain + [0], salt) == sealed;
    if sealed.None? {
      return Threw(GpgError);
    }
    var cipherText := new GpgData(sealed.value + [0]);
    var v := DataToVector(cipherText);
    return Ok(v);
  }

  function AesCipherText(e: Engine, plain: Bytes, password: string, salt: nat): Result<Bytes> {
    match e.aesSeal(plain, password, salt)
    case None => Threw(CryptoError)
    case Some(ct) => Ok(ct)
  }

  /** `AES::getPassword` */
  function PasswordOf(params: Option<Parameters>): string {
    if params.Some? && params.value.AesParameters? then params.value.password else ""
  }

  /** The recipients after the signer was added to them. */
  function AllRecipients(signer: string, p: Parameters): seq<string>
    requires p.GpgParameters?
  {
    if p.recipients != [] && p.selfRecipient && signer != "" then p.recipients + [signer] else p.recipients
  }

  /** `processPlainText` of both ciphers. An empty result means: nothing was encrypted. */
  method ProcessPlainText(e: Engine, c: Cipher, plain: Bytes, params: Option<Parameters>, salt: nat)
    returns (r: Result<Bytes>)
    requires c.Gpg? ==> (c.signer == "" <==> c.signingKeys == [])
    ensures c.Aes? ==> r == AesCipherText(e, plain, PasswordOf(params), salt)
    ensures c.Gpg? && params.None? ==> r == Ok([])
    ensures c.Gpg? && params.Some? && params.value.AesParameters? ==> r == Threw(BadVariant)
    ensures c.Gpg? && params.Some? && params.value.GpgParameters? ==>
      var p := params.value;
      if p.recipients == [] then r == Ok([])
      else
        var signer := if p.sign && c.signer != "" then Some(c.signingKeys[0]) else None;
        var ct := EngineCipherText(e, AllRecipients(c.signer, p), signer, plain + [0], salt);
        r == match ct case Threw(x) => Threw(x) case Ok(text) => Ok(text + [0])
  {
    if c.Aes? {
      return AesCipherText(e, plain, PasswordOf(params), salt);
    }
    if params.None? {
      return Ok([]);
    }
    if params.value.AesParameters? {
      return Threw(BadVariant);
    }
    var p := params.value;
    var recipients := p.recipients;
    if recipients != [] && p.selfRecipient && c.signer != "" {
      recipients := recipients + [c.signer];
    }
    var toSign := p.sign && c.signer != "";
    if recipients != [] {
      r := Encrypt(e, c.signingKeys, recipients, plain, toSign, salt);
    } else {
      r := Ok([]);
    }
  }

  /** `processCipherText` of both ciphers. */
  function ProcessCipherText(e: Engine, c: Cipher, cipherText: Bytes, password: string): Result<Bytes> {
    match c
    case Aes =>
      (match e.aesOpen(cipherText, password) case None => Threw(DecryptError) case Some(p) => Ok(p))
    case Gpg(_, _) =>
      (match e.pgpOpen(cipherText) case None => Threw(GpgError) case Some(p) => Ok(p))
  }
}
