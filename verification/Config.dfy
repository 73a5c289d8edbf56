/** `conf::ConfigurationFile`: the configuration, and what loading a file does to it. */
module Config {
  import opened Outcomes

  type Settings = map<string, string>

  const KEYS: set<string> := {"host", "port", "pgp_key_id"}

  const DEFAULTS: Settings := map["host" := "127.0.0.1", "port" := "6509", "pgp_key_id" := ""]

  // ---------------------------------------------------------------- trimming

  /** No space at either end. */
  predicate Trimmed(s: string) {
    s == "" || (s[0] != ' ' && s[|s| - 1] != ' ')
  }

  predicate SpacesIn(s: string, from: int, to: int)
    requires 0 <= from && to <= |s|
  {
    forall k | from <= k < to :: s[k] == ' '
  }

  /** Positions `i` to `j` are what is left of `s` without its outer spaces. */
  predicate TrimsAt(s: string, i: nat, j: nat) {
    i <= j <= |s| && SpacesIn(s, 0, i) && SpacesIn(s, j, |s|) && Trimmed(s[i..j])
  }

  /** The first position from `i` on that is no space, or the length. */
  function FirstFrom(s: string, i: nat): (r: nat)
    requires i <= |s|
    ensures i <= r <= |s| && SpacesIn(s, i, r)
    ensures r < |s| ==> s[r] != ' '
    decreases |s| - i
  {
    if i < |s| && s[i] == ' ' then FirstFrom(s, i + 1) else i
  }

  /** One more than the last position below `j` that is no space, or zero. */
  function EndBelow(s: string, j: nat): (r: nat)
    requires j <= |s|
    ensures r <= j && SpacesIn(s, r, j)
    ensures r > 0 ==> s[r - 1] != ' '
  {
    if 0 < j && s[j - 1] == ' ' then EndBelow(s, j - 1) else j
  }

  function Trim(s: string): (t: string)
    ensures Trimmed(t)
  {
    var i, j := FirstFrom(s, 0), EndBelow(s, |s|);
    if i == |s| then "" else s[i..j]
  }

  /** Trimming has one possible result. */
  lemma TrimIsUnique(s: string, i: nat, j: nat)
    requires TrimsAt(s, i, j)
    ensures Trim(s) == s[i..j]
  {
    var first, end := FirstFrom(s, 0), EndBelow(s, |s|);
    if i < j {
      assert s[i..j][0] == s[i] && s[i..j][j - i - 1] == s[j - 1];
      assert first == i && end == j;
    } else {
      assert SpacesIn(s, 0, |s|);
      assert first == |s|;
    }
  }

  /** std::string::substr */
  function Substr(s: string, from: nat, count: nat): string
    requires from <= |s|
  {
    if from + count <= |s| then s[from..from + count] else s[from..]
  }

  /** `trim_str`: both searches answer with the length where they find nothing. */
  method TrimStr(s: string) returns (t: string)
    ensures t == Trim(s)
  {
    var first: nat := 0;
    while first < |s| && s[first] == ' '
      invariant first <= |s| && SpacesIn(s, 0, first)
    {
      first := first + 1;
    }
    var end: nat := |s|;
    while 0 < end && s[end - 1] == ' '
      invariant end <= |s| && SpacesIn(s, end, |s|)
    {
      end := end - 1;
    }
    var last := if end == 0 then |s| else end - 1;
    assert first <= last;
    t := Substr(s, first, last - first + 1);
    TrimIsUnique(s, first, if end == 0 then |s| else end);
  }

  // ---------------------------------------------------------------- streams

  /** `delim` does not stand between `p` and `q`. */
  predicate Free(s: string, delim: char, p: nat, q: nat)
    requires q <= |s|
  {
    forall k | p <= k < q :: s[k] != delim
  }

  /** The first position of `delim` from `p` on, or the length. */
  function Cut(s: string, delim: char, p: nat): (q: nat)
    requires p <= |s|
    ensures p <= q <= |s|
    decreases |s| - p
  {
    if p == |s| || s[p] == delim then p else Cut(s, delim, p + 1)
  }

  lemma {:induction false} CutIsFirst(s: string, delim: char, p: nat, q: nat)
    requires p <= q <= |s|
    ensures q == Cut(s, delim, p) <==> Free(s, delim, p, q) && (q < |s| ==> s[q] == delim)
    decreases |s| - p
  {
    if p < q {
      if s[p] != delim {
        CutIsFirst(s, delim, p + 1, q);
      }
    } else if p < |s| && s[p] != delim {
      assert Cut(s, delim, p) >= p + 1;
    }
  }

  /** Where reading goes on after a delimiter. */
  function Next(s: string, delim: char, p: nat): (n: nat)
    requires p <= |s|
    ensures n <= |s|
    ensures p < |s| ==> p < n
  {
    var q := Cut(s, delim, p);
    if q < |s| then q + 1 else q
  }

  class InputStream {
    const text: string
    var pos: nat

    ghost predicate Valid()
      reads this
    {
      pos <= |text|
    }

    constructor (text: string)
      ensures this.text == text && pos == 0
    {
      this.text := text;
      pos := 0;
    }

    /** std::getline: fails only where nothing is left. */
    method GetLine(delim: char) returns (ok: bool, token: string)
      requires Valid()
      modifies this
      ensures Valid()
      ensures ok <==> old(pos) < |text|
      ensures token == text[old(pos)..Cut(text, delim, old(pos))]
      ensures pos == Next(text, delim, old(pos))
    {
      var n := pos;
      while n < |text| && text[n] != delim
        invariant pos <= n <= |text| && Free(text, delim, pos, n)
      {
        n := n + 1;
      }
      CutIsFirst(text, delim, pos, n);
      ok, token := pos < |text|, text[pos..n];
      pos := if n < |text| then n + 1 else n;
    }
  }

  // ---------------------------------------------------------------- lines

  function LinesFrom(file: string, p: nat): seq<string>
    requires p <= |file|
    decreases |file| - p
  {
    if p == |file| then []
    else [file[p..Cut(file, '\n', p)]] + LinesFrom(file, Next(file, '\n', p))
  }

  /** The lines of a file; a final newline does not open another line. */
  function Lines(file: string): seq<string> {
    LinesFrom(file, 0)
  }

  /** The key and the value that a line sets. */
  datatype Setting = Setting(key: string, value: string)

  /** The text after the delimiter at `q`, if there is one. */
  function TextAfter(line: string, q: nat): string
    requires q <= |line|
  {
    if q < |line| then line[q + 1..] else ""
  }

  function AssignedFrom(keys: set<string>, line: string, p: nat): Option<Setting>
    requires p <= |line|
    decreases |line| - p
  {
    if p == |line| then None
    else
      var q := Cut(line, '=', p);
      if Trim(line[p..q]) !in keys then AssignedFrom(keys, line, Next(line, '=', p))
      else NonEmpty(Trim(line[p..q]), Trim(TextAfter(line, q)))
  }

  /** An empty value sets nothing. */
  function NonEmpty(key: string, value: string): Option<Setting> {
    if value == "" then None else Some(Setting(key, value))
  }

  function Assigned(keys: set<string>, line: string): Option<Setting> {
    AssignedFrom(keys, line, 0)
  }

  /** `line[p..q]` is one of the pieces between the '=' signs. */
  predicate Segment(line: string, p: nat, q: nat) {
    && p <= q <= |line| && p < |line|
    && (p == 0 || line[p - 1] == '=')
    && Free(line, '=', p, q)
    && (q < |line| ==> line[q] == '=')
  }

  /** No piece before position `p` names a key. */
  ghost predicate NoKeyBefore(keys: set<string>, line: string, p: nat) {
    forall i: nat, j: nat :: i < p && Segment(line, i, j) ==> Trim(line[i..j]) !in keys
  }

  /** The piece at `p` to `q` is the first one that names a key. */
  ghost predicate FirstKey(keys: set<string>, line: string, p: nat, q: nat) {
    Segment(line, p, q) && Trim(line[p..q]) in keys && NoKeyBefore(keys, line, p)
  }

  /** What a line says: the first piece that names a key gets all the text that follows. */
  ghost predicate Says(keys: set<string>, line: string, s: Setting) {
    && s.value != ""
    && exists p: nat, q: nat ::
         FirstKey(keys, line, p, q) && s == Setting(Trim(line[p..q]), Trim(TextAfter(line, q)))
  }

  lemma SegmentEnd(line: string, p: nat, q: nat)
    requires Segment(line, p, q)
    ensures q == Cut(line, '=', p)
  {
    CutIsFirst(line, '=', p, q);
  }

  /** The next piece starts after the next '=' sign. */
  lemma NextSegment(keys: set<string>, line: string, p: nat)
    requires p < |line| && (p == 0 || line[p - 1] == '=')
    requires NoKeyBefore(keys, line, p) && Trim(line[p..Cut(line, '=', p)]) !in keys
    ensures NoKeyBefore(keys, line, Next(line, '=', p))
  {
    CutIsFirst(line, '=', p, Cut(line, '=', p));
    forall i: nat, j: nat | i < Next(line, '=', p) && Segment(line, i, j)
      ensures Trim(line[i..j]) !in keys
    {
      if i == p {
        SegmentEnd(line, p, j);
      }
    }
  }

  /** The reader of a line stops at its first key, or finds none. */
  lemma {:induction false} ReaderFindsKey(keys: set<string>, line: string, p: nat) returns (i: nat, j: nat)
    requires p <= |line| && (p == 0 || p == |line| || line[p - 1] == '=')
    requires NoKeyBefore(keys, line, p)
    ensures j <= |line| && i <= j
    ensures i < |line| ==> FirstKey(keys, line, i, j)
    ensures i < |line| ==> AssignedFrom(keys, line, p) == NonEmpty(Trim(line[i..j]), Trim(TextAfter(line, j)))
    ensures i == |line| ==> AssignedFrom(keys, line, p) == None && NoKeyBefore(keys, line, |line|)
    decreases |line| - p
  {
    if p == |line| {
      i, j := p, p;
    } else {
      j := Cut(line, '=', p);
      CutIsFirst(line, '=', p, j);
      if Trim(line[p..j]) in keys {
        i := p;
      } else {
        NextSegment(keys, line, p);
        i, j := ReaderFindsKey(keys, line, Next(line, '=', p));
      }
    }
  }

  lemma FirstKeyUnique(keys: set<string>, line: string, p: nat, q: nat, i: nat, j: nat)
    requires FirstKey(keys, line, p, q) && FirstKey(keys, line, i, j)
    ensures p == i && q == j
  {
    SegmentEnd(line, p, q);
    SegmentEnd(line, i, j);
  }

  /** A line is read as exactly what it says. */
  lemma LineMeaning(keys: set<string>, line: string, s: Setting)
    ensures Assigned(keys, line) == Some(s) <==> Says(keys, line, s)
  {
    var i, j := ReaderFindsKey(keys, line, 0);
    if Says(keys, line, s) {
      var p: nat, q: nat :|
        FirstKey(keys, line, p, q) && s == Setting(Trim(line[p..q]), Trim(TextAfter(line, q)));
      if i < |line| {
        FirstKeyUnique(keys, line, p, q, i, j);
      }
    }
  }

  /** The documented format: OPTION = VALUE, with every other line left out. */
  function Documented(keys: set<string>, line: string): Option<Setting> {
    var q := Cut(line, '=', 0);
    if line != "" && Trim(line[0..q]) in keys then NonEmpty(Trim(line[0..q]), Trim(TextAfter(line, q))) else None
  }

  /** A piece after the first one is the first to name a key, and text follows it. */
  ghost predicate LateKey(keys: set<string>, line: string) {
    exists p: nat, q: nat :: 0 < p && FirstKey(keys, line, p, q) && Trim(TextAfter(line, q)) != ""
  }

  /** A line is read as documented exactly where it has no late key. */
  lemma DocumentedFormat(keys: set<string>, line: string)
    ensures Assigned(keys, line) == Documented(keys, line) <==> !LateKey(keys, line)
  {
    var i, j := ReaderFindsKey(keys, line, 0);
    if line != "" {
      CutIsFirst(line, '=', 0, Cut(line, '=', 0));
      assert Segment(line, 0, Cut(line, '=', 0));
    }
    if LateKey(keys, line) {
      var p: nat, q: nat :| 0 < p && FirstKey(keys, line, p, q) && Trim(TextAfter(line, q)) != "";
      if i < |line| {
        FirstKeyUnique(keys, line, p, q, i, j);
      }
    }
    if i == 0 && i < |line| {
      SegmentEnd(line, 0, j);
    }
  }

  lemma TextAfterShift(whole: string, s: string, q: nat)
    requires EndsWith(whole, s) && q <= |s|
    ensures TextAfter(whole, |whole| - |s| + q) == TextAfter(s, q)
  {
  }

  /** Lines that go on alike are read alike. */
  lemma ReadAlike(keys: set<string>, a: string, i: nat, b: string, j: nat)
    requires i < |a| && j < |b|
    requires a[i..Cut(a, '=', i)] == b[j..Cut(b, '=', j)]
    requires TextAfter(a, Cut(a, '=', i)) == TextAfter(b, Cut(b, '=', j))
    requires AssignedFrom(keys, a, Next(a, '=', i)) == AssignedFrom(keys, b, Next(b, '=', j))
    ensures AssignedFrom(keys, a, i) == AssignedFrom(keys, b, j)
  {
    AssignedStep(keys, a, i);
    AssignedStep(keys, b, j);
  }

  lemma ShiftStep(whole: string, s: string, p: nat)
    requires EndsWith(whole, s) && p < |s|
    ensures var i := |whole| - |s| + p;
      && whole[i..Cut(whole, '=', i)] == s[p..Cut(s, '=', p)]
      && TextAfter(whole, Cut(whole, '=', i)) == TextAfter(s, Cut(s, '=', p))
      && Next(whole, '=', i) == |whole| - |s| + Next(s, '=', p)
  {
    CutShift(whole, s, '=', p);
    SliceShift(whole, s, p, Cut(s, '=', p));
    TextAfterShift(whole, s, Cut(s, '=', p));
  }

  lemma {:induction false} AssignedShift(keys: set<string>, whole: string, i: nat, s: string, p: nat)
    requires EndsWith(whole, s) && p <= |s| && i == |whole| - |s| + p
    ensures AssignedFrom(keys, whole, i) == AssignedFrom(keys, s, p)
    decreases |s| - p
  {
    if p < |s| {
      ShiftStep(whole, s, p);
      AssignedShift(keys, whole, Next(whole, '=', i), s, Next(s, '=', p));
      ReadAlike(keys, whole, i, s, p);
    }
  }

  /**
   Lines that do not have the documented form are not all left out: a piece that names
   no key, put in front of a line, changes nothing about what the line sets.
   */
  lemma ForeignPieceSkipped(keys: set<string>, piece: string, line: string)
    requires '=' !in piece && Trim(piece) !in keys
    ensures Assigned(keys, piece + "=" + line) == Assigned(keys, line)
  {
    var whole := piece + "=" + line;
    CutIsFirst(whole, '=', 0, |piece|);
    assert whole[0..|piece|] == piece;
    AssignedStep(keys, whole, 0);
    AssignedShift(keys, whole, |piece| + 1, line, 0);
  }

  /** Such a line: "x=host=h" sets the host. */
  lemma LateKeyExample()
    ensures Assigned(KEYS, "x=host=h") == Some(Setting("host", "h"))
    ensures Documented(KEYS, "x=host=h") == None
  {
    assert "x=host=h" == "x" + "=" + "host=h";
    assert "host=h" == "host" + "=" + "h";
    TrimIsUnique("x", 0, 1);
    ForeignPieceSkipped(KEYS, "x", "host=h");
    SimpleLine(KEYS, "host", "h");
    FirstPiece("x", "host=h");
  }

  lemma FirstPiece(piece: string, line: string)
    requires '=' !in piece
    ensures var whole := piece + "=" + line;
      Cut(whole, '=', 0) == |piece| && whole[0..|piece|] == piece && TextAfter(whole, |piece|) == line
  {
    CutIsFirst(piece + "=" + line, '=', 0, |piece|);
  }

  function Spaces(n: nat): (s: string)
    ensures |s| == n && forall k :: 0 <= k < n ==> s[k] == ' '
  {
    seq(n, _ => ' ')
  }

  lemma TrimSpaced(before: nat, text: string, after: nat)
    requires Trimmed(text)
    ensures Trim(Spaces(before) + text + Spaces(after)) == text
  {
    var s := Spaces(before) + text + Spaces(after);
    var i, j := before, before + |text|;
    assert s[i..j] == text;
    TrimIsUnique(s, i, j);
  }

  /** "OPTION = VALUE", with any spaces around the two parts. */
  function OptionLine(key: string, value: string, a: nat, b: nat, c: nat, d: nat): string {
    Spaces(a) + key + Spaces(b) + "=" + (Spaces(c) + value + Spaces(d))
  }

  /** Such a line sets a known option to its value, '=' signs in the value included. */
  lemma OptionLineSets(keys: set<string>, key: string, value: string, a: nat, b: nat, c: nat, d: nat)
    requires '=' !in key && key in keys && Trimmed(key) && Trimmed(value)
    ensures Assigned(keys, OptionLine(key, value, a, b, c, d))
         == if value == "" then None else Some(Setting(key, value))
  {
    var piece, rest := Spaces(a) + key + Spaces(b), Spaces(c) + value + Spaces(d);
    FirstPiece(piece, rest);
    TrimSpaced(a, key, b);
    TrimSpaced(c, value, d);
    AssignedStep(keys, piece + "=" + rest, 0);
  }

  /** OPTION=VALUE sets a known option. */
  lemma {:induction false} SimpleLine(keys: set<string>, key: string, value: string)
    requires '=' !in key && key in keys && Trimmed(key) && Trimmed(value) && value != ""
    ensures Assigned(keys, key + "=" + value) == Some(Setting(key, value))
  {
    OptionLineSets(keys, key, value, 0, 0, 0, 0);
    WithoutSpaces(key, value);
  }

  lemma {:induction false} WithoutSpaces(key: string, value: string)
    ensures OptionLine(key, value, 0, 0, 0, 0) == key + "=" + value
  {
  }

  // ---------------------------------------------------------------- loading

  type Update = Option<Setting>

  function Apply(c: Settings, u: Update): (r: Settings)
    ensures r.Keys == c.Keys
  {
    if u.Some? && u.value.key in c then c[u.value.key := u.value.value] else c
  }

  function ApplyAll(c: Settings, us: seq<Update>): (r: Settings)
    ensures r.Keys == c.Keys
  {
    if us == [] then c else Apply(ApplyAll(c, us[..|us| - 1]), us[|us| - 1])
  }

  function Updates(keys: set<string>, lines: seq<string>): (us: seq<Update>)
    ensures |us| == |lines|
  {
    seq(|lines|, i requires 0 <= i < |lines| => Assigned(keys, lines[i]))
  }

  function LoadText(c: Settings, file: string): (r: Settings)
    ensures r.Keys == c.Keys
  {
    ApplyAll(c, Updates(c.Keys, Lines(file)))
  }

  predicate Sets(u: Update, key: string) {
    u.Some? && u.value.key == key
  }

  /** The index of the last update of `key`, or -1. */
  function LastSetter(us: seq<Update>, key: string): (i: int)
    ensures -1 <= i < |us|
    ensures i >= 0 ==> Sets(us[i], key)
    ensures forall j :: i < j < |us| ==> !Sets(us[j], key)
  {
    if us == [] then -1
    else if Sets(us[|us| - 1], key) then |us| - 1
    else LastSetter(us[..|us| - 1], key)
  }

  /** Each key ends with its last update, or as it was. */
  lemma {:induction false} LastUpdateWins(c: Settings, us: seq<Update>, key: string)
    requires key in c
    ensures ApplyAll(c, us)[key] ==
      if LastSetter(us, key) >= 0 then us[LastSetter(us, key)].value.value else c[key]
    decreases |us|
  {
    if us != [] {
      LastUpdateWins(c, us[..|us| - 1], key);
    }
  }

  /** `lines[i]` is the last line that sets `key`, and it sets it to `value`. */
  ghost predicate LastSays(keys: set<string>, lines: seq<string>, key: string, value: string, i: nat) {
    && i < |lines|
    && Says(keys, lines[i], Setting(key, value))
    && forall j, v :: i < j < |lines| ==> !Says(keys, lines[j], Setting(key, v))
  }

  /** What lines mean for a key: the last one that sets it, or else its previous value. */
  ghost predicate Final(c: Settings, lines: seq<string>, key: string, value: string)
    requires key in c
  {
    || (exists i: nat :: LastSays(c.Keys, lines, key, value, i))
    || (value == c[key] && forall j, v :: 0 <= j < |lines| ==> !Says(c.Keys, lines[j], Setting(key, v)))
  }

  lemma SaysIsUpdate(keys: set<string>, lines: seq<string>, j: nat, key: string)
    requires j < |lines|
    ensures forall v :: Says(keys, lines[j], Setting(key, v)) <==> Updates(keys, lines)[j] == Some(Setting(key, v))
  {
    forall v
      ensures Says(keys, lines[j], Setting(key, v)) <==> Updates(keys, lines)[j] == Some(Setting(key, v))
    {
      LineMeaning(keys, lines[j], Setting(key, v));
    }
  }

  /** Loading gives every key the value that the lines mean for it, and no other. */
  lemma LinesMeaning(c: Settings, file: string, key: string, value: string)
    requires key in c
    ensures LoadText(c, file)[key] == value <==> Final(c, Lines(file), key, value)
  {
    var lines := Lines(file);
    var us := Updates(c.Keys, lines);
    var last := LastSetter(us, key);
    LastUpdateWins(c, us, key);
    forall j: nat | j < |lines|
      ensures forall v :: Says(c.Keys, lines[j], Setting(key, v)) <==> us[j] == Some(Setting(key, v))
    {
      SaysIsUpdate(c.Keys, lines, j, key);
    }
    if last >= 0 {
      assert us[last] == Some(Setting(key, us[last].value.value));
      assert Says(c.Keys, lines[last], Setting(key, us[last].value.value));
      assert LastSays(c.Keys, lines, key, us[last].value.value, last);
      forall i: nat | LastSays(c.Keys, lines, key, value, i)
        ensures value == us[last].value.value
      {
        assert us[i] == Some(Setting(key, value));
        assert i == last;
      }
    } else {
      forall i: nat
        ensures !LastSays(c.Keys, lines, key, value, i)
      {
      }
    }
  }

  /** Loading a file again changes nothing. */
  lemma LoadTwice(c: Settings, file: string)
    ensures LoadText(LoadText(c, file), file) == LoadText(c, file)
  {
    var us := Updates(c.Keys, Lines(file));
    var once := ApplyAll(c, us);
    forall key | key in c
      ensures ApplyAll(once, us)[key] == once[key]
    {
      LastUpdateWins(c, us, key);
      LastUpdateWins(once, us, key);
    }
  }

  lemma {:induction false} ApplyAppend(c: Settings, a: seq<Update>, b: seq<Update>)
    ensures ApplyAll(c, a + b) == ApplyAll(ApplyAll(c, a), b)
    decreases |b|
  {
    if b == [] {
      assert a + b == a;
    } else {
      var n := |b| - 1;
      assert (a + b)[..|a + b| - 1] == a + b[..n];
      ApplyAppend(c, a, b[..n]);
    }
  }

  lemma LinesStep(file: string, p: nat)
    requires p < |file|
    ensures LinesFrom(file, p) == [file[p..Cut(file, '\n', p)]] + LinesFrom(file, Next(file, '\n', p))
  {
  }

  /** `whole` ends with `part`. */
  ghost predicate EndsWith(whole: string, part: string) {
    |part| <= |whole| && forall k | 0 <= k < |part| :: part[k] == whole[|whole| - |part| + k]
  }

  lemma {:induction false} CutShift(whole: string, s: string, delim: char, p: nat)
    requires EndsWith(whole, s) && p <= |s|
    ensures Cut(whole, delim, |whole| - |s| + p) == |whole| - |s| + Cut(s, delim, p)
    decreases |s| - p
  {
    if p < |s| && s[p] != delim {
      CutShift(whole, s, delim, p + 1);
    }
  }

  lemma SliceShift(whole: string, s: string, p: nat, q: nat)
    requires EndsWith(whole, s) && p <= q <= |s|
    ensures whole[|whole| - |s| + p..|whole| - |s| + q] == s[p..q]
  {
  }

  /** Files that go on alike have the same lines. */
  lemma LinesAlike(a: string, i: nat, b: string, j: nat)
    requires i < |a| && j < |b|
    requires a[i..Cut(a, '\n', i)] == b[j..Cut(b, '\n', j)]
    requires LinesFrom(a, Next(a, '\n', i)) == LinesFrom(b, Next(b, '\n', j))
    ensures LinesFrom(a, i) == LinesFrom(b, j)
  {
    LinesStep(a, i);
    LinesStep(b, j);
  }

  /** Where a file ends with another one, the lines read from there are the other's. */
  lemma {:induction false} LinesShift(whole: string, i: nat, s: string, p: nat)
    requires EndsWith(whole, s) && p <= |s| && i == |whole| - |s| + p
    ensures LinesFrom(whole, i) == LinesFrom(s, p)
    decreases |s| - p
  {
    if p < |s| {
      LineShift(whole, i, s, p);
      LinesShift(whole, Next(whole, '\n', i), s, Next(s, '\n', p));
      LinesAlike(whole, i, s, p);
    }
  }

  lemma LineShift(whole: string, i: nat, s: string, p: nat)
    requires EndsWith(whole, s) && p < |s| && i == |whole| - |s| + p
    ensures whole[i..Cut(whole, '\n', i)] == s[p..Cut(s, '\n', p)]
    ensures Next(whole, '\n', i) == |whole| - |s| + Next(s, '\n', p)
  {
    CutShift(whole, s, '\n', p);
    SliceShift(whole, s, p, Cut(s, '\n', p));
  }

  /** `whole` starts with `f` and a newline. */
  ghost predicate StartsWith(whole: string, f: string) {
    |f| < |whole| && whole[|f|] == '\n' && forall k | 0 <= k < |f| :: f[k] == whole[k]
  }

  lemma {:induction false} CutJoined(whole: string, f: string, p: nat)
    requires StartsWith(whole, f) && p <= |f|
    ensures Cut(whole, '\n', p) == Cut(f, '\n', p)
    decreases |f| - p
  {
    if p < |f| && f[p] != '\n' {
      CutJoined(whole, f, p + 1);
    }
  }

  /** A newline after a file keeps its lines; reading goes on at it or after it. */
  lemma {:induction false} LinesJoined(whole: string, f: string, p: nat) returns (n: nat)
    requires StartsWith(whole, f) && p <= |f|
    ensures n == |f| || n == |f| + 1
    ensures LinesFrom(whole, p) == LinesFrom(f, p) + LinesFrom(whole, n)
    decreases |f| - p
  {
    if p == |f| {
      n := |f|;
    } else {
      var q, next := Cut(f, '\n', p), Next(f, '\n', p);
      LineJoined(whole, f, p);
      if q < |f| {
        n := LinesJoined(whole, f, next);
        Prepended([f[p..q]], LinesFrom(f, next), LinesFrom(whole, n));
      } else {
        n := |f| + 1;
        assert LinesFrom(f, p) == [f[p..q]];
      }
    }
  }

  lemma LineJoined(whole: string, f: string, p: nat)
    requires StartsWith(whole, f) && p < |f|
    ensures var q := Cut(f, '\n', p);
      && LinesFrom(whole, p) == [f[p..q]] + LinesFrom(whole, q + 1)
      && LinesFrom(f, p) == [f[p..q]] + LinesFrom(f, Next(f, '\n', p))
      && (if q < |f| then Next(f, '\n', p) == q + 1 else LinesFrom(f, Next(f, '\n', p)) == [])
  {
    CutJoined(whole, f, p);
    SliceJoined(whole, f, p, Cut(f, '\n', p));
    LinesStep(whole, p);
    LinesStep(f, p);
  }

  lemma SliceJoined(whole: string, f: string, p: nat, q: nat)
    requires StartsWith(whole, f) && p <= q <= |f|
    ensures whole[p..q] == f[p..q]
  {
  }

  lemma Prepended(a: seq<string>, b: seq<string>, c: seq<string>)
    ensures a + (b + c) == (a + b) + c
  {
  }

  /** Loading two files in turn is loading their concatenation. */
  lemma LoadConcatenation(c: Settings, f: string, g: string)
    ensures LoadText(LoadText(c, f), g) == LoadText(c, f + "\n" + g)
  {
    var whole := f + "\n" + g;
    Joined(f, g);
    var n := LinesJoined(whole, f, 0);
    LinesShift(whole, |f| + 1, g, 0);
    var keys := c.Keys;
    var a, b := Updates(keys, Lines(f)), Updates(keys, LinesFrom(whole, n));
    UpdatesAppend(keys, Lines(f), LinesFrom(whole, n));
    ApplyAppend(c, a, b);
    if n == |f| {
      EmptyLineFirst(ApplyAll(c, a), keys, whole, n);
    }
  }

  /** An empty line sets nothing. */
  lemma EmptyLineFirst(c: Settings, keys: set<string>, whole: string, n: nat)
    requires n < |whole| && whole[n] == '\n'
    ensures ApplyAll(c, Updates(keys, LinesFrom(whole, n))) == ApplyAll(c, Updates(keys, LinesFrom(whole, n + 1)))
  {
    var us := Updates(keys, LinesFrom(whole, n + 1));
    LinesStep(whole, n);
    assert Updates(keys, LinesFrom(whole, n)) == [None] + us;
    ApplyAppend(c, [None], us);
    var none: seq<Update> := [None];
    assert none[..0] == [];
    assert ApplyAll(c, none) == c;
  }

  lemma UpdatesAppend(keys: set<string>, a: seq<string>, b: seq<string>)
    ensures Updates(keys, a + b) == Updates(keys, a) + Updates(keys, b)
  {
  }

  lemma Joined(f: string, g: string)
    ensures StartsWith(f + "\n" + g, f) && EndsWith(f + "\n" + g, g)
    ensures |f + "\n" + g| == |f| + 1 + |g|
  {
  }

  // ---------------------------------------------------------------- lines in the text

  /** `file[i..j]` is a line: what stands between two newlines, or a newline and an end. */
  predicate IsLine(file: string, i: nat, j: nat) {
    && i < |file| && i <= j <= |file|
    && (i == 0 || file[i - 1] == '\n')
    && (forall k :: i <= k < j ==> file[k] != '\n')
    && (j < |file| ==> file[j] == '\n')
  }

  /** The `k`-th of `lines` is the line at `starts[k]`. */
  predicate LineAtStart(file: string, lines: seq<string>, starts: seq<nat>, k: nat)
    requires k < |starts| == |lines|
  {
    && starts[k] < |file|
    && IsLine(file, starts[k], Cut(file, '\n', starts[k]))
    && lines[k] == file[starts[k]..Cut(file, '\n', starts[k])]
  }

  /** `starts` are the positions of the lines from `p` on: all there are, in order. */
  ghost predicate StartsFrom(file: string, p: nat, lines: seq<string>, starts: seq<nat>) {
    && |starts| == |lines|
    && (forall k :: 0 <= k < |starts| ==> p <= starts[k] && LineAtStart(file, lines, starts, k))
    && (forall k, l :: 0 <= k < l < |starts| ==> starts[k] < starts[l])
    && (forall i: nat, j: nat :: p <= i && IsLine(file, i, j) ==> i in starts)
  }

  lemma LineEnd(file: string, i: nat, j: nat)
    requires IsLine(file, i, j)
    ensures j == Cut(file, '\n', i)
  {
    CutIsFirst(file, '\n', i, j);
  }

  lemma LineHere(file: string, p: nat)
    requires p < |file| && (p == 0 || file[p - 1] == '\n')
    ensures IsLine(file, p, Cut(file, '\n', p))
  {
    CutIsFirst(file, '\n', p, Cut(file, '\n', p));
  }

  /** No line starts within another one. */
  lemma NoLineInside(file: string, p: nat, i: nat, j: nat)
    requires p < |file| && p < i && IsLine(file, i, j)
    ensures Next(file, '\n', p) <= i
  {
    var q := Cut(file, '\n', p);
    CutIsFirst(file, '\n', p, q);
  }

  lemma {:induction false} LineStarts(file: string, p: nat) returns (starts: seq<nat>)
    requires p <= |file| && (p == 0 || p == |file| || file[p - 1] == '\n')
    ensures StartsFrom(file, p, LinesFrom(file, p), starts)
    decreases |file| - p
  {
    if p == |file| {
      starts := [];
    } else {
      var n := Next(file, '\n', p);
      CutIsFirst(file, '\n', p, Cut(file, '\n', p));
      var rest := LineStarts(file, n);
      starts := [p] + rest;
      LinesStep(file, p);
      FirstStart(file, p, LinesFrom(file, n), rest);
    }
  }

  lemma LaterLine(file: string, line: string, lines: seq<string>, p: nat, rest: seq<nat>, k: nat)
    requires |lines| == |rest| && 0 < k <= |rest| && LineAtStart(file, lines, rest, k - 1)
    ensures LineAtStart(file, [line] + lines, [p] + rest, k)
  {
  }

  lemma FirstStart(file: string, p: nat, lines: seq<string>, rest: seq<nat>)
    requires p < |file| && (p == 0 || file[p - 1] == '\n')
    requires StartsFrom(file, Next(file, '\n', p), lines, rest)
    ensures StartsFrom(file, p, [file[p..Cut(file, '\n', p)]] + lines, [p] + rest)
  {
    var line, starts := file[p..Cut(file, '\n', p)], [p] + rest;
    LineHere(file, p);
    forall k | 0 <= k < |starts|
      ensures p <= starts[k] && LineAtStart(file, [line] + lines, starts, k)
    {
      if k > 0 {
        LaterLine(file, line, lines, p, rest, k);
      }
    }
    AllStarts(file, p, lines, rest);
  }

  lemma AllStarts(file: string, p: nat, lines: seq<string>, rest: seq<nat>)
    requires p < |file| && StartsFrom(file, Next(file, '\n', p), lines, rest)
    ensures forall i: nat, j: nat :: p <= i && IsLine(file, i, j) ==> i in [p] + rest
  {
    forall i: nat, j: nat | p < i && IsLine(file, i, j)
      ensures i in rest
    {
      NoLineInside(file, p, i, j);
    }
  }

  /** The last line of the file that sets the key sets it to `value`. */
  ghost predicate LastLineSays(keys: set<string>, file: string, key: string, value: string, i: nat, j: nat) {
    && IsLine(file, i, j)
    && Says(keys, file[i..j], Setting(key, value))
    && forall i': nat, j': nat, v :: i < i' && IsLine(file, i', j') ==> !Says(keys, file[i'..j'], Setting(key, v))
  }

  ghost predicate NoLineSays(keys: set<string>, file: string, key: string) {
    forall i: nat, j: nat, v :: IsLine(file, i, j) ==> !Says(keys, file[i..j], Setting(key, v))
  }

  /** What a file means for a key: its last line that sets the key, or else the previous value. */
  ghost predicate Means(c: Settings, file: string, key: string, value: string)
    requires key in c
  {
    || (exists i: nat, j: nat :: LastLineSays(c.Keys, file, key, value, i, j))
    || (value == c[key] && NoLineSays(c.Keys, file, key))
  }

  lemma LastLineIsLast(keys: set<string>, file: string, key: string, value: string, starts: seq<nat>, k: nat)
    requires StartsFrom(file, 0, Lines(file), starts) && k < |starts|
    ensures LastSays(keys, Lines(file), key, value, k)
      <==> LastLineSays(keys, file, key, value, starts[k], Cut(file, '\n', starts[k]))
  {
    var lines := Lines(file);
    assert LineAtStart(file, lines, starts, k);
    if LastSays(keys, lines, key, value, k) {
      forall i: nat, j: nat, v | starts[k] < i && IsLine(file, i, j)
        ensures !Says(keys, file[i..j], Setting(key, v))
      {
        LineEnd(file, i, j);
        var l :| 0 <= l < |starts| && starts[l] == i;
        assert LineAtStart(file, lines, starts, l);
        assert k < l;
      }
    }
    if LastLineSays(keys, file, key, value, starts[k], Cut(file, '\n', starts[k])) {
      forall l, v | k < l < |starts|
        ensures !Says(keys, lines[l], Setting(key, v))
      {
        assert LineAtStart(file, lines, starts, l);
      }
    }
  }

  lemma NoLineIsNone(keys: set<string>, file: string, key: string, starts: seq<nat>)
    requires StartsFrom(file, 0, Lines(file), starts)
    ensures NoLineSays(keys, file, key)
      <==> forall k, v :: 0 <= k < |Lines(file)| ==> !Says(keys, Lines(file)[k], Setting(key, v))
  {
    var lines := Lines(file);
    if NoLineSays(keys, file, key) {
      forall k, v | 0 <= k < |starts|
        ensures !Says(keys, lines[k], Setting(key, v))
      {
        assert LineAtStart(file, lines, starts, k);
      }
    } else {
      var i: nat, j: nat, v :| IsLine(file, i, j) && Says(keys, file[i..j], Setting(key, v));
      LineEnd(file, i, j);
      var k :| 0 <= k < |starts| && starts[k] == i;
      assert LineAtStart(file, lines, starts, k);
      assert Says(keys, lines[k], Setting(key, v));
    }
  }

  /** Loading gives every key the value that the text of the file means for it, and no other. */
  lemma FileMeaning(c: Settings, file: string, key: string, value: string)
    requires key in c
    ensures LoadText(c, file)[key] == value <==> Means(c, file, key, value)
  {
    LinesMeaning(c, file, key, value);
    var starts := LineStarts(file, 0);
    NoLineIsNone(c.Keys, file, key, starts);
    if k: nat :| LastSays(c.Keys, Lines(file), key, value, k) {
      LastLineIsLast(c.Keys, file, key, value, starts, k);
    }
    if i: nat, j: nat :| LastLineSays(c.Keys, file, key, value, i, j) {
      LineEnd(file, i, j);
      var k: nat :| k < |starts| && starts[k] == i;
      LastLineIsLast(c.Keys, file, key, value, starts, k);
    }
  }

  /** A text without a newline is one line, unless it is empty. */
  lemma OneLine(line: string)
    requires '\n' !in line
    ensures Lines(line) == if line == "" then [] else [line]
  {
    CutIsFirst(line, '\n', 0, |line|);
    WholeSlice(line);
    if line != "" {
      LinesStep(line, 0);
    }
  }

  lemma WholeSlice(text: string)
    ensures text[0..|text|] == text
  {
  }

  /** What stands before the first newline is the first line; the others come from what follows. */
  lemma FirstLine(line: string, file: string)
    requires '\n' !in line
    ensures Lines(line + "\n" + file) == [line] + Lines(file)
  {
    var whole := line + "\n" + file;
    Joined(line, file);
    CutIsFirst(whole, '\n', 0, |line|);
    SliceJoined(whole, line, 0, |line|);
    WholeSlice(line);
    LinesStep(whole, 0);
    LinesShift(whole, |line| + 1, file, 0);
  }

  /** One more line "OPTION = VALUE" sets that option, and leaves everything else as it was. */
  lemma LastLineSets(
      conf: Settings, file: string, key: string, value: string, a: nat, b: nat, c: nat, d: nat)
    requires key in conf && '=' !in key && '\n' !in key && Trimmed(key)
    requires value != "" && '\n' !in value && Trimmed(value)
    ensures LoadText(conf, file + "\n" + OptionLine(key, value, a, b, c, d)) == LoadText(conf, file)[key := value]
  {
    var line := OptionLine(key, value, a, b, c, d);
    LoadConcatenation(conf, file, line);
    OptionLineIsLine(key, value, a, b, c, d);
    OneLine(line);
    OptionLineSets(conf.Keys, key, value, a, b, c, d);
    LoadOne(LoadText(conf, file), line, Setting(key, value));
  }

  lemma OptionLineIsLine(key: string, value: string, a: nat, b: nat, c: nat, d: nat)
    requires '\n' !in key && '\n' !in value
    ensures '\n' !in OptionLine(key, value, a, b, c, d) && OptionLine(key, value, a, b, c, d) != ""
  {
  }

  lemma LoadOne(c: Settings, line: string, s: Setting)
    requires Lines(line) == [line] && Assigned(c.Keys, line) == Some(s) && s.key in c
    ensures LoadText(c, line) == c[s.key := s.value]
  {
    var us := Updates(c.Keys, [line]);
    assert us == [Some(s)];
    assert ApplyAll(c, us[..0]) == c;
    assert ApplyAll(c, us) == Apply(c, us[0]);
  }

  // ---------------------------------------------------------------- the object

  /** What `Bin` relies on when it asks for a setting. */
  predicate Sound(c: Settings) {
    && c.Keys == KEYS
    && c["host"] != ""
    && c["port"] != ""
    && forall key | key in c :: Trimmed(c[key])
  }

  predicate Proper(u: Update) {
    u.Some? ==> u.value.value != "" && Trimmed(u.value.value)
  }

  lemma {:induction false} AssignedIsProper(keys: set<string>, line: string, p: nat)
    requires p <= |line|
    ensures Proper(AssignedFrom(keys, line, p))
    decreases |line| - p
  {
    if p < |line| {
      AssignedIsProper(keys, line, Next(line, '=', p));
    }
  }

  lemma {:induction false} ApplyKeepsSound(c: Settings, us: seq<Update>)
    requires Sound(c) && forall u | u in us :: Proper(u)
    ensures Sound(ApplyAll(c, us))
    decreases |us|
  {
    if us != [] {
      ApplyKeepsSound(c, us[..|us| - 1]);
      assert us[|us| - 1] in us;
    }
  }

  lemma LoadKeepsSound(c: Settings, file: string)
    requires Sound(c)
    ensures Sound(LoadText(c, file))
  {
    var lines := Lines(file);
    forall i | 0 <= i < |lines|
      ensures Proper(Updates(c.Keys, lines)[i])
    {
      AssignedIsProper(c.Keys, lines[i], 0);
    }
    ApplyKeepsSound(c, Updates(c.Keys, lines));
  }

  /** The configuration after any number of load attempts; a missing file changes nothing. */
  function LoadAll(c: Settings, files: seq<Option<string>>): Settings
    decreases |files|
  {
    if files == [] then c
    else
      var next := match files[0] case None => c case Some(text) => LoadText(c, text);
      LoadAll(next, files[1..])
  }

  /** Whatever was loaded before, the configuration is sound. */
  lemma AlwaysSound(files: seq<Option<string>>)
    ensures Sound(LoadAll(DEFAULTS, files))
  {
    StaysSound(DEFAULTS, files);
  }

  lemma {:induction false} StaysSound(c: Settings, files: seq<Option<string>>)
    requires Sound(c)
    ensures Sound(LoadAll(c, files))
    decreases |files|
  {
    if files != [] {
      if files[0].Some? {
        LoadKeepsSound(c, files[0].value);
        StaysSound(LoadText(c, files[0].value), files[1..]);
      } else {
        StaysSound(c, files[1..]);
      }
    }
  }

  class ConfigurationFile {
    var filePath: string
    var config: Settings

    constructor (path: string, userConfigDir: string)
      ensures filePath == if path == "" then userConfigDir + "/dpaste.conf" else path
      ensures config == DEFAULTS && Sound(config)
    {
      filePath := if path == "" then userConfigDir + "/dpaste.conf" else path;
      config := DEFAULTS;
    }

    /** `file` is the text found under the path, if it could be opened. */
    method Load(file: Option<string>) returns (status: int)
      modifies this`config
      ensures file.None? ==> status == 1 && config == old(config)
      ensures file.Some? ==> status == 0 && config == LoadText(old(config), file.value)
      ensures old(Sound(config)) ==> Sound(config)
    {
      if file.None? {
        return 1;
      }
      var text := file.value;
      var configFile := new InputStream(text);
      ghost var read: seq<string> := [];
      ghost var start: nat := 0;
      ghost var keys := config.Keys;
      var more, line := configFile.GetLine('\n');
      while more
        invariant configFile.Valid() && configFile.text == text && start <= |text|
        invariant more <==> start < |text|
        invariant line == text[start..Cut(text, '\n', start)] && configFile.pos == Next(text, '\n', start)
        invariant Lines(text) == read + LinesFrom(text, start)
        invariant config == ApplyAll(old(config), Updates(keys, read))
        decreases |text| - start
      {
        LineAt(text, start);
        LoadLine(line);
        LoadSnoc(old(config), keys, read, line);
        Prepended(read, [line], LinesFrom(text, configFile.pos));
        read := read + [line];
        start := configFile.pos;
        more, line := configFile.GetLine('\n');
      }
      status := 0;
      assert read == Lines(text);
      if old(Sound(config)) {
        LoadKeepsSound(old(config), text);
      }
    }

    /** The inner loop of `load`: pieces of the line until one names a key. */
    method LoadLine(line: string)
      requires Free(line, '\n', 0, |line|)
      modifies this`config
      ensures config == Apply(old(config), Assigned(old(config).Keys, line))
    {
      var ss := new InputStream(line);
      ghost var keys := config.Keys;
      ghost var target := Apply(config, Assigned(keys, line));
      ghost var start: nat := 0;
      var more, name := ss.GetLine('=');
      while more
        invariant ss.Valid() && ss.text == line && start <= |line|
        invariant more <==> start < |line|
        invariant name == line[start..Cut(line, '=', start)] && ss.pos == Next(line, '=', start)
        invariant config.Keys == keys
        invariant start < |line| ==> config == old(config)
        invariant target == Apply(config, AssignedFrom(keys, line, start))
        decreases |line| - start
      {
        AssignedStep(keys, line, start);
        TextAfterIsRest(line, start);
        name := TrimStr(name);
        if name in config {
          TakeValue(ss, name);
        }
        start := ss.pos;
        more, name := ss.GetLine('=');
      }
    }

    /** The rest of the line is the value, unless it is blank. */
    method TakeValue(ss: InputStream, name: string)
      requires ss.Valid() && Free(ss.text, '\n', 0, |ss.text|) && name in config
      modifies this`config, ss
      ensures ss.Valid() && ss.pos == |ss.text|
      ensures old(ss.pos) <= |ss.text|
      ensures config == Apply(old(config), NonEmpty(name, Trim(ss.text[old(ss.pos)..])))
    {
      RestOfLine(ss.text, ss.pos);
      var _, arg := ss.GetLine('\n');
      arg := TrimStr(arg);
      if arg != "" {
        config := config[name := arg];
      }
    }
  }

  lemma AssignedStep(keys: set<string>, line: string, p: nat)
    requires p < |line|
    ensures var q := Cut(line, '=', p);
      AssignedFrom(keys, line, p) ==
        if Trim(line[p..q]) in keys then NonEmpty(Trim(line[p..q]), Trim(TextAfter(line, q)))
        else AssignedFrom(keys, line, Next(line, '=', p))
  {
  }

  lemma TextAfterIsRest(line: string, p: nat)
    requires p < |line|
    ensures TextAfter(line, Cut(line, '=', p)) == line[Next(line, '=', p)..]
  {
  }

  /** Within a line, reading up to a newline takes all that is left. */
  lemma RestOfLine(line: string, p: nat)
    requires p <= |line| && Free(line, '\n', 0, |line|)
    ensures Next(line, '\n', p) == |line|
    ensures line[p..Cut(line, '\n', p)] == line[p..]
  {
    CutIsFirst(line, '\n', p, |line|);
  }

  lemma LineAt(file: string, p: nat)
    requires p < |file|
    ensures var line := file[p..Cut(file, '\n', p)];
      Free(line, '\n', 0, |line|) && LinesFrom(file, p) == [line] + LinesFrom(file, Next(file, '\n', p))
  {
    CutIsFirst(file, '\n', p, Cut(file, '\n', p));
  }

  lemma LoadSnoc(c: Settings, keys: set<string>, read: seq<string>, line: string)
    ensures ApplyAll(c, Updates(keys, read + [line])) == Apply(ApplyAll(c, Updates(keys, read)), Assigned(keys, line))
  {
    var us := Updates(keys, read + [line]);
    assert us[..|us| - 1] == Updates(keys, read);
  }
}
