/** The command line: from options to what is done and how a paste is protected. */
module CommandLine {
  import opened Outcomes
  import opened Ciphers
  import opened Bins
  import opened Runs

  /** An option as getopt hands it over. */
  datatype Opt =
    | Help
    | Version
    | Get(code: string)
    | AesEncrypt
    | GpgEncrypt
    | Recipient(id: string)
    | Sign
    | NoDecrypt
    | SelfRecipient
    | Unknown

  datatype ParsedArgs = ParsedArgs(
    fail: bool,
    help: bool,
    version: bool,
    sign: bool,
    aesEncrypt: bool,
    gpgEncrypt: bool,
    noDecrypt: bool,
    selfRecipient: bool,
    code: string,
    recipients: seq<string>)

  /** The options before the first unknown one. */
  function Accepted(opts: seq<Opt>): (r: seq<Opt>)
    ensures r <= opts && Unknown !in r
    ensures |r| < |opts| ==> opts[|r|] == Unknown
    ensures r == opts <==> Unknown !in opts
  {
    if opts == [] || opts[0] == Unknown then [] else [opts[0]] + Accepted(opts[1..])
  }

  function LastCode(opts: seq<Opt>): string {
    if opts == [] then ""
    else if opts[|opts| - 1].Get? then opts[|opts| - 1].code
    else LastCode(opts[..|opts| - 1])
  }

  function RecipientsIn(opts: seq<Opt>): (r: seq<string>)
    ensures forall id :: id in r <==> Recipient(id) in opts
  {
    if opts == [] then []
    else
      var last := opts[|opts| - 1];
      assert opts == opts[..|opts| - 1] + [last];
      RecipientsIn(opts[..|opts| - 1]) + (if last.Recipient? then [last.id] else [])
  }

  /** The fields that a list of known options sets. */
  function Collected(seen: seq<Opt>): ParsedArgs {
    ParsedArgs(
      false, Help in seen, Version in seen, Sign in seen, AesEncrypt in seen, GpgEncrypt in seen,
      NoDecrypt in seen, SelfRecipient in seen, LastCode(seen), RecipientsIn(seen))
  }

  /** What a list of options means. */
  function Meaning(opts: seq<Opt>): ParsedArgs {
    Collected(Accepted(opts)).(fail := Unknown in opts)
  }

  lemma {:induction false} AcceptedPrefix(opts: seq<Opt>, i: nat)
    requires i <= |opts| && Unknown !in opts[..i]
    requires i == |opts| || opts[i] == Unknown
    ensures Accepted(opts) == opts[..i]
    decreases i
  {
    if i > 0 {
      assert opts[..i][0] == opts[0];
      assert opts[1..][..i - 1] == opts[..i][1..];
      AcceptedPrefix(opts[1..], i - 1);
    }
  }

  lemma Appended(seen: seq<Opt>, o: Opt)
    ensures forall x :: x in seen + [o] <==> x in seen || x == o
    ensures LastCode(seen + [o]) == if o.Get? then o.code else LastCode(seen)
    ensures RecipientsIn(seen + [o]) == if o.Recipient? then RecipientsIn(seen) + [o.id] else RecipientsIn(seen)
  {
    var opts := seen + [o];
    assert opts[..|opts| - 1] == seen;
  }

  /** The switch of `parseArgs`. */
  function SetOption(pa: ParsedArgs, opt: Opt): ParsedArgs {
    match opt
    case Help => pa.(help := true)
    case Version => pa.(version := true)
    case Get(code) => pa.(code := code)
    case AesEncrypt => pa.(aesEncrypt := true)
    case GpgEncrypt => pa.(gpgEncrypt := true)
    case Recipient(id) => pa.(recipients := pa.recipients + [id])
    case Sign => pa.(sign := true)
    case NoDecrypt => pa.(noDecrypt := true)
    case SelfRecipient => pa.(selfRecipient := true)
    case Unknown => pa.(fail := true)
  }

  /** One more option sets its own field only. */
  lemma CollectedSnoc(seen: seq<Opt>, o: Opt)
    requires o != Unknown
    ensures Collected(seen + [o]) == SetOption(Collected(seen), o)
  {
    Appended(seen, o);
  }

  /** The first unknown option ends the parse. */
  lemma MeaningStops(opts: seq<Opt>, i: nat)
    requires i < |opts| && opts[i] == Unknown && Unknown !in opts[..i]
    ensures Meaning(opts) == Collected(opts[..i]).(fail := true)
  {
    AcceptedPrefix(opts, i);
  }

  /** `parseArgs` */
  method ParseArgs(opts: seq<Opt>) returns (pa: ParsedArgs)
    ensures pa == Meaning(opts)
  {
    pa := ParsedArgs(false, false, false, false, false, false, false, false, "", []);
    ghost var seen: seq<Opt> := [];
    var i := 0;
    while i < |opts|
      invariant i <= |opts| && seen == opts[..i] && Unknown !in seen
      invariant pa == Collected(seen)
    {
      var opt := opts[i];
      if opt == Unknown {
        MeaningStops(opts, i);
        return pa.(fail := true);
      }
      pa := SetOption(pa, opt);
      CollectedSnoc(seen, opt);
      seen := seen + [opt];
      i := i + 1;
    }
    assert seen == opts;
  }

  /** `params_from_args`; a sign-only request leaves `selfRecipient` as it finds it. */
  function ParamsFromArgs(pa: ParsedArgs, uninitialised: bool): Option<Parameters> {
    if pa.aesEncrypt then Some(AesParameters(""))
    else if pa.gpgEncrypt then Some(GpgParameters("", pa.recipients, pa.selfRecipient, pa.sign))
    else if pa.sign then Some(GpgParameters("", [], uninitialised, pa.sign))
    else None
  }

  datatype Command =
    | Exit(status: int)
    | PrintHelp
    | PrintVersion
    | GetCode(code: string, noDecrypt: bool)
    | PasteInput(params: Option<Parameters>)

  /** What `main` does. */
  function CommandOf(pa: ParsedArgs, uninitialised: bool): Command {
    if pa.fail then Exit(1)
    else if pa.help then PrintHelp
    else if pa.version then PrintVersion
    else if pa.code != "" then GetCode(pa.code, pa.noDecrypt)
    else PasteInput(ParamsFromArgs(pa, uninitialised))
  }

  // ---------------------------------------------------------------- what a list of options does

  /** An unknown option fails, whatever else there is; else help goes before the version. */
  lemma InformingCommands(opts: seq<Opt>, uninitialised: bool)
    ensures Unknown in opts ==> CommandOf(Meaning(opts), uninitialised) == Exit(1)
    ensures Unknown !in opts && Help in opts ==> CommandOf(Meaning(opts), uninitialised) == PrintHelp
    ensures Unknown !in opts && Help !in opts && Version in opts ==>
      CommandOf(Meaning(opts), uninitialised) == PrintVersion
  {
  }

  predicate Working(opts: seq<Opt>) {
    Unknown !in opts && Help !in opts && Version !in opts
  }

  /** `opts[i]` is the last option of its kind. */
  predicate LastGet(opts: seq<Opt>, i: nat) {
    i < |opts| && opts[i].Get? && forall j :: i < j < |opts| ==> !opts[j].Get?
  }

  lemma {:induction false} LastGetDecides(opts: seq<Opt>, i: nat)
    requires LastGet(opts, i)
    ensures LastCode(opts) == opts[i].code
    decreases |opts|
  {
    var n := |opts| - 1;
    if i < n {
      LastGetDecides(opts[..n], i);
    }
  }

  lemma {:induction false} NoGetNoCode(opts: seq<Opt>)
    requires forall i :: 0 <= i < |opts| ==> !opts[i].Get?
    ensures LastCode(opts) == ""
    decreases |opts|
  {
    if opts != [] {
      NoGetNoCode(opts[..|opts| - 1]);
    }
  }

  /** The last code given is got, without decryption exactly where --no-decrypt is given. */
  lemma GetCommand(opts: seq<Opt>, uninitialised: bool, i: nat)
    requires Working(opts) && LastGet(opts, i) && opts[i].code != ""
    ensures CommandOf(Meaning(opts), uninitialised) == GetCode(opts[i].code, NoDecrypt in opts)
  {
    LastGetDecides(opts, i);
  }

  /** Without a code the input is pasted, and all parameters are those of the options. */
  lemma PasteCommand(opts: seq<Opt>, uninitialised: bool)
    requires Working(opts) && forall i :: 0 <= i < |opts| ==> !opts[i].Get?
    ensures CommandOf(Meaning(opts), uninitialised) == PasteInput(
      if AesEncrypt in opts then Some(AesParameters(""))
      else if GpgEncrypt in opts then
        Some(GpgParameters("", RecipientsIn(opts), SelfRecipient in opts, Sign in opts))
      else if Sign in opts then Some(GpgParameters("", [], uninitialised, true))
      else None)
  {
    NoGetNoCode(opts);
  }

  /** Recipients are taken in the order of their options. */
  lemma {:induction false} RecipientsInOrder(a: seq<Opt>, b: seq<Opt>)
    ensures RecipientsIn(a + b) == RecipientsIn(a) + RecipientsIn(b)
    decreases |b|
  {
    if b == [] {
      assert a + b == a;
    } else {
      var front, last := b[..|b| - 1], b[|b| - 1];
      RecipientsInOrder(a, front);
      AppendedLater(a, front, last);
      assert front + [last] == b;
    }
  }

  lemma {:induction false} AppendedLater(a: seq<Opt>, front: seq<Opt>, last: Opt)
    requires RecipientsIn(a + front) == RecipientsIn(a) + RecipientsIn(front)
    ensures RecipientsIn(a + (front + [last])) == RecipientsIn(a) + RecipientsIn(front + [last])
  {
    var id := if last.Recipient? then [last.id] else [];
    OneMore(a + front, last);
    OneMore(front, last);
    Regrouped(a, front, [last]);
    Regrouped(RecipientsIn(a), RecipientsIn(front), id);
  }

  lemma {:induction false} OneMore(seen: seq<Opt>, o: Opt)
    ensures RecipientsIn(seen + [o]) == RecipientsIn(seen) + (if o.Recipient? then [o.id] else [])
  {
    Appended(seen, o);
  }

  lemma Regrouped<T>(a: seq<T>, b: seq<T>, c: seq<T>)
    ensures (a + b) + c == a + (b + c)
  {
  }

  lemma SingleRecipient(id: string)
    ensures RecipientsIn([Recipient(id)]) == [id]
  {
    Appended([], Recipient(id));
    assert [] + [Recipient(id)] == [Recipient(id)];
  }

  /** The text or the failure that a command line for getting ends with, from this store. */
  function AnswerTo(opts: seq<Opt>, e: Engine, store: Store, s: Serving): Option<Result<Output>> {
    match CommandOf(Meaning(opts), false)
    case GetCode(code, noDecrypt) => Some(GetResult(e, store, code, noDecrypt, s))
    case _ => None
  }

  /**
   A reader's command line: the URI in the last -g gets the pasted bytes (and a zero byte after
   GPG encryption), or with --no-decrypt the bytes that were stored.
   */
  lemma GetCommandAnswers(opts: seq<Opt>, i: nat, h: History, r: Engine, s: Serving)
    requires Working(opts) && LastGet(opts, i) && opts[i].code != ""
    requires Reader(h, r, opts[i].code, s)
    requires h.Packet().Ok? && Classified(r, h.Packet().value, h.Mode())
    ensures AnswerTo(opts, r, h.Final(), s) == Some(Ok(Output(true,
      if NoDecrypt in opts then h.Packet().value.data else Expected(h.Mode(), h.paste.request.data))))
  {
    GetCommand(opts, false, i);
    EndToEnd(h, r, opts[i].code, s);
    NoDecryptReturnsStored(h, r, opts[i].code, s);
  }

  /** A paste made by this command line. */
  predicate PastedBy(opts: seq<Opt>, uninitialised: bool, q: Request) {
    CommandOf(Meaning(opts), uninitialised) == PasteInput(q.params)
  }

  predicate HasRecipient(opts: seq<Opt>) {
    exists i :: 0 <= i < |opts| && opts[i].Recipient?
  }

  /**
   The options that get a paste encrypted: --aes-encrypt, or --gpg-encrypt together with a
   recipient. AES wins, in whatever order they come. All others store the input in the clear.
   */
  lemma OptionsChooseScheme(opts: seq<Opt>, uninitialised: bool, keyId: string, q: Request)
    requires PastedBy(opts, uninitialised, q) && SchemeSet(q)
    ensures Encrypts(ModeOf(keyId, q)) ==
      if AesEncrypt in opts then AesScheme
      else if GpgEncrypt in opts && HasRecipient(opts) then GpgScheme
      else NoScheme
  {
    RecipientsFound(opts);
  }

  lemma RecipientsFound(opts: seq<Opt>)
    ensures RecipientsIn(opts) != [] <==> HasRecipient(opts)
  {
    if HasRecipient(opts) {
      var i :| 0 <= i < |opts| && opts[i].Recipient?;
      assert Recipient(opts[i].id) in opts;
      assert opts[i].id in RecipientsIn(opts);
    }
    if RecipientsIn(opts) != [] {
      assert RecipientsIn(opts)[0] in RecipientsIn(opts);
    }
  }

  /** A paste is signed in the clear exactly when asked to, with a key and without encryption. */
  lemma OptionsChooseSigning(opts: seq<Opt>, uninitialised: bool, keyId: string, q: Request)
    requires PastedBy(opts, uninitialised, q) && SchemeSet(q)
    ensures ModeOf(keyId, q).Signed? <==>
      Sign in opts && keyId != "" && AesEncrypt !in opts && !(GpgEncrypt in opts && HasRecipient(opts))
  {
    RecipientsFound(opts);
  }

  /** What is stored for an encrypting command line is cipher text. */
  lemma EncryptingOptionsHidePlaintext(
      opts: seq<Opt>, uninitialised: bool, store: Store, keyId: string, q: Request)
    requires PastedBy(opts, uninitialised, q)
    requires AesEncrypt in opts || (GpgEncrypt in opts && HasRecipient(opts))
    requires forall p, pw, n :: q.engine.aesSeal(p, pw, n) != Some([])
    ensures PasteResult(keyId, q).Threw? ==> StoreAfter(store, keyId, q) == store
    ensures PasteResult(keyId, q).Ok? ==> Sealed(keyId, q).Ok? && IsCipherText(keyId, q, Sealed(keyId, q).value)
  {
    assert SchemeSet(q);
    OptionsChooseScheme(opts, uninitialised, keyId, q);
    NoSilentPlaintext(store, keyId, q);
  }

  /** What a sign-only command line leaves uninitialised decides nothing about the paste. */
  lemma UninitialisedFlagIrrelevant(
      opts: seq<Opt>, store: Store, keyId: string, q: Request, one: bool, other: bool)
    ensures var q1 := q.(params := ParamsFromArgs(Meaning(opts), one));
      var q2 := q.(params := ParamsFromArgs(Meaning(opts), other));
      && PasteResult(keyId, q1) == PasteResult(keyId, q2)
      && StoreAfter(store, keyId, q1) == StoreAfter(store, keyId, q2)
  {
    var q1 := q.(params := ParamsFromArgs(Meaning(opts), one));
    if q1 != q.(params := ParamsFromArgs(Meaning(opts), other)) {
      SelfFlagIrrelevantWithoutRecipients(keyId, q1, other);
    }
  }

  /** The order of the options does not decide the scheme, nor whether they are accepted. */
  lemma OrderIrrelevant(a: seq<Opt>, b: seq<Opt>)
    requires multiset(a) == multiset(b)
    ensures Meaning(a).fail == Meaning(b).fail
    ensures !Meaning(a).fail ==>
      Meaning(a).(code := "", recipients := []) == Meaning(b).(code := "", recipients := [])
    ensures !Meaning(a).fail ==> multiset(Meaning(a).recipients) == multiset(Meaning(b).recipients)
  {
    SameMembers(a, b);
    if Unknown !in a {
      assert Accepted(a) == a && Accepted(b) == b;
      SameRecipients(a, b);
    }
  }

  lemma SameMembers(a: seq<Opt>, b: seq<Opt>)
    requires multiset(a) == multiset(b)
    ensures forall o :: o in a <==> o in b
  {
    assert forall o :: o in a <==> o in multiset(a);
    assert forall o :: o in b <==> o in multiset(b);
  }

  lemma SameRecipients(a: seq<Opt>, b: seq<Opt>)
    requires multiset(a) == multiset(b)
    ensures multiset(RecipientsIn(a)) == multiset(RecipientsIn(b))
  {
    forall id
      ensures multiset(RecipientsIn(a))[id] == multiset(RecipientsIn(b))[id]
    {
      RecipientCount(a, id);
      RecipientCount(b, id);
    }
  }

  lemma {:induction false} RecipientCount(opts: seq<Opt>, id: string)
    ensures multiset(RecipientsIn(opts))[id] == multiset(opts)[Recipient(id)]
    decreases |opts|
  {
    if opts != [] {
      var front, last := opts[..|opts| - 1], opts[|opts| - 1];
      RecipientCount(front, id);
      assert opts == front + [last];
      assert multiset(opts) == multiset(front) + multiset{last};
      Appended(front, last);
    }
  }
}
