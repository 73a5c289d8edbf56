/** `dpaste:` URIs. */
module Uris {
  import opened Outcomes
  import opened Pins

  const PREFIX: string := "dpaste:"

  predicate OccursAt(text: string, pattern: string, p: nat) {
    p + |pattern| <= |text| && text[p..p + |pattern|] == pattern
  }

  ghost predicate Occurs(text: string, pattern: string) {
    exists p: nat :: OccursAt(text, pattern, p)
  }

  /** std::string::find from position `from`. */
  function Find(text: string, pattern: string, from: nat): (r: Option<nat>)
    requires from <= |text|
    ensures r.Some? ==> OccursAt(text, pattern, r.value) && from <= r.value
    ensures r.Some? ==> forall p: nat :: from <= p < r.value ==> !OccursAt(text, pattern, p)
    ensures r.None? ==> forall p: nat :: from <= p ==> !OccursAt(text, pattern, p)
    decreases |text| - from
  {
    if OccursAt(text, pattern, from) then Some(from)
    else if from == |text| then None
    else Find(text, pattern, from + 1)
  }

  /** `Bin::code_from_dpaste_uri` */
  function CodeFromUri(uri: string): string {
    match Find(uri, PREFIX, 0)
    case Some(p) => uri[p + |PREFIX|..]
    case None => uri
  }

  /** The prefix cannot overlap itself: its first letter does not come again. */
  lemma NoEarlierPrefix(before: string, code: string, p: nat)
    requires p < |before| && !OccursAt(before, PREFIX, p)
    ensures !OccursAt(before + PREFIX + code, PREFIX, p)
  {
    var uri, n := before + PREFIX + code, |before|;
    if p + |PREFIX| <= n {
      assert uri[p..p + |PREFIX|] == before[p..p + |PREFIX|];
    } else {
      assert p + |PREFIX| <= |uri|;
      assert uri[p..p + |PREFIX|][n - p] == uri[n] == 'd';
      assert PREFIX[n - p] != 'd';
    }
  }

  lemma CodeAfterPrefix(before: string, code: string)
    requires !Occurs(before, PREFIX)
    ensures CodeFromUri(before + PREFIX + code) == code
  {
    var uri, n := before + PREFIX + code, |before|;
    assert uri[n..n + |PREFIX|] == PREFIX;
    assert OccursAt(uri, PREFIX, n);
    forall p: nat | p < n
      ensures !OccursAt(uri, PREFIX, p)
    {
      NoEarlierPrefix(before, code, p);
    }
    assert Find(uri, PREFIX, 0) == Some(n);
  }

  /** Text in which the whole prefix does not occur is its own code. */
  lemma WithoutPrefix(text: string)
    requires !Occurs(text, "dpaste:")
    ensures CodeFromUri(text) == text
  {
  }

  /** Such as text without a colon, for example a PIN. */
  lemma BareCode(code: string)
    requires ':' !in code
    ensures CodeFromUri(code) == code
  {
    forall p: nat | p + |PREFIX| <= |code|
      ensures !OccursAt(code, PREFIX, p)
    {
      assert code[p..p + |PREFIX|][6] == code[p + 6];
      assert code[p + 6] in code;
      assert PREFIX[6] == ':';
    }
    WithoutPrefix(code);
  }

  /** All ways to write a code: after any text and the prefix, or on its own. */
  ghost predicate Writes(text: string, code: string) {
    || text == code
    || exists before :: !Occurs(before, PREFIX) && text == before + PREFIX + code
  }

  lemma WrittenCode(text: string, code: string)
    requires IsUpperHexText(code) && Writes(text, code)
    ensures CodeFromUri(text) == code
  {
    if text == code {
      assert ':' !in code;
      BareCode(code);
    } else {
      var before :| !Occurs(before, PREFIX) && text == before + PREFIX + code;
      CodeAfterPrefix(before, code);
    }
  }

  lemma UriIsWritten(code: string)
    ensures Writes(PREFIX + code, code)
  {
    assert !Occurs("", PREFIX);
    assert PREFIX + code == "" + PREFIX + code;
  }
}
