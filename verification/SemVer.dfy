/** Strict SemVer 2.0.0: the grammar, parsing and printing, and precedence. */
module SemVer {
  import opened Wrappers
  import opened Ordering

  // ---- text -------------------------------------------------------------------------------

  predicate Digit(c: char) { '0' <= c <= '9' }
  predicate IdChar(c: char) { Digit(c) || 'A' <= c <= 'Z' || 'a' <= c <= 'z' || c == '-' }

  predicate AllDigits(s: string) { forall i :: 0 <= i < |s| ==> Digit(s[i]) }
  predicate AllIdChars(s: string) { forall i :: 0 <= i < |s| ==> IdChar(s[i]) }

  /** Everything before the first `c`, and everything after it. */
  function Cut(s: string, c: char): (r: (string, Option<string>))
    ensures c !in r.0
    ensures s == r.0 + if r.1.Some? then [c] + r.1.value else []
  {
    if s == [] then ([], None)
    else if s[0] == c then ([], Some(s[1..]))
    else var (before, after) := Cut(s[1..], c); ([s[0]] + before, after)
  }

  lemma {:induction false} CutJoined(before: string, c: char, after: string)
    requires c !in before
    ensures Cut(before + [c] + after, c) == (before, Some(after))
  {
    if before == [] {
      assert (before + [c] + after)[1..] == after;
    } else {
      var first, rest := before[0], before[1..] + [c] + after;
      CutJoined(before[1..], c, after);
      assert before == [first] + before[1..] && first in before;
      assert before + [c] + after == [first] + rest;
      CutStep(first, rest, c);
    }
  }

  lemma CutStep(first: char, rest: string, c: char)
    requires first != c
    ensures Cut([first] + rest, c) == ([first] + Cut(rest, c).0, Cut(rest, c).1)
  {
    assert ([first] + rest)[1..] == rest;
  }

  lemma {:induction false} CutNothing(s: string, c: char)
    requires c !in s
    ensures Cut(s, c) == (s, None)
  {
    if s != [] {
      CutNothing(s[1..], c);
      assert s == [s[0]] + s[1..];
    }
  }

  /** Python's `s.split(c)`: never empty. */
  function Split(s: string, c: char): (r: seq<string>)
    ensures r != []
    ensures forall i :: 0 <= i < |r| ==> c !in r[i]
    decreases |s|
  {
    var (before, after) := Cut(s, c);
    if after.None? then [before] else [before] + Split(after.value, c)
  }

  /** Python's `c.join(parts)`. */
  function Join(parts: seq<string>, c: char): string {
    if parts == [] then [] else if |parts| == 1 then parts[0] else parts[0] + [c] + Join(parts[1..], c)
  }

  lemma {:induction false} JoinSplit(s: string, c: char)
    ensures Join(Split(s, c), c) == s
    decreases |s|
  {
    var (before, after) := Cut(s, c);
    if after.Some? {
      JoinSplit(after.value, c);
      var rest := Split(after.value, c);
      assert ([before] + rest)[1..] == rest;
      assert s == before + [c] + after.value;
    }
  }

  lemma {:induction false} SplitJoin(parts: seq<string>, c: char)
    requires parts != [] && forall i :: 0 <= i < |parts| ==> c !in parts[i]
    ensures Split(Join(parts, c), c) == parts
    decreases |parts|
  {
    if |parts| == 1 {
      CutNothing(parts[0], c);
    } else {
      SplitJoin(parts[1..], c);
      CutJoined(parts[0], c, Join(parts[1..], c));
      assert parts == [parts[0]] + parts[1..];
    }
  }

  // ---- numbers ------------------------------------------------------------------------------

  /** `0|[1-9][0-9]*` */
  predicate Number(s: string) { s != "" && AllDigits(s) && (s[0] == '0' ==> |s| == 1) }

  function DigitOf(d: nat): char
    requires d < 10
  {
    ('0' as int + d) as char
  }

  /** Python's `int(s)` on digits. */
  function Value(s: string): nat
    requires AllDigits(s)
  {
    if s == "" then 0 else
      assert Digit(s[|s| - 1]);
      10 * Value(s[..|s| - 1]) + (s[|s| - 1] as int - '0' as int)
  }

  /** Python's `str(n)`. */
  function Decimal(n: nat): string {
    if n < 10 then [DigitOf(n)] else Decimal(n / 10) + [DigitOf(n % 10)]
  }

  lemma {:induction false} DecimalNumber(n: nat)
    ensures Number(Decimal(n)) && Value(Decimal(n)) == n
    ensures n > 0 ==> Decimal(n)[0] != '0'
  {
    if n >= 10 {
      DecimalNumber(n / 10);
      var front, text := Decimal(n / 10), Decimal(n);
      assert text == front + [DigitOf(n % 10)];
      assert text[..|text| - 1] == front && text[|text| - 1] == DigitOf(n % 10);
    } else {
      assert Decimal(n)[..0] == "";
    }
  }

  lemma {:induction false} NumberDecimal(s: string)
    requires Number(s)
    ensures Decimal(Value(s)) == s && (s[0] != '0' ==> Value(s) > 0)
  {
    var n := |s| - 1;
    assert Digit(s[n]);
    var d := s[n] as int - '0' as int;
    assert DigitOf(d) == s[n];
    if n == 0 {
      assert s[..0] == "" && s == [s[0]];
    } else {
      NumberDecimal(s[..n]);
      assert s == s[..n] + [s[n]];
      assert Value(s) / 10 == Value(s[..n]) && Value(s) % 10 == d;
    }
  }

  // ---- grammar ------------------------------------------------------------------------------

  /** A numeric identifier without leading zeros, or one with a letter or hyphen. */
  predicate PrereleaseId(s: string) { Number(s) || (AllIdChars(s) && !AllDigits(s)) }

  predicate BuildId(s: string) { s != "" && AllIdChars(s) }

  /** The text between the separators. */
  datatype Fields = Fields(core: seq<string>, prerelease: Option<seq<string>>, build: Option<seq<string>>)

  predicate Every(p: string -> bool, ids: seq<string>) {
    forall i :: 0 <= i < |ids| ==> p(ids[i])
  }

  /** What the grammar allows between the separators. */
  predicate WellSpelled(f: Fields) {
    && |f.core| == 3 && Every(Number, f.core)
    && (f.prerelease.Some? ==> f.prerelease.value != [] && Every(PrereleaseId, f.prerelease.value))
    && (f.build.Some? ==> f.build.value != [] && Every(BuildId, f.build.value))
  }

  function Tail(mark: char, ids: Option<seq<string>>): string {
    if ids.None? then "" else [mark] + Join(ids.value, '.')
  }

  function Text(f: Fields): string { Join(f.core, '.') + Tail('-', f.prerelease) + Tail('+', f.build) }

  /** The language of the version pattern. */
  ghost predicate Grammatical(text: string) {
    exists f :: WellSpelled(f) && Text(f) == text
  }

  function SplitTail(tail: Option<string>): Option<seq<string>> {
    if tail.None? then None else Some(Split(tail.value, '.'))
  }

  /** Read the fields: a `+` opens the build metadata, and before it the first `-` the prerelease. */
  function Read(text: string): Option<Fields> {
    var (left, build) := Cut(text, '+');
    var (core, prerelease) := Cut(left, '-');
    var f := Fields(Split(core, '.'), SplitTail(prerelease), SplitTail(build));
    if WellSpelled(f) then Some(f) else None
  }

  lemma TailSplit(mark: char, tail: Option<string>)
    ensures Tail(mark, SplitTail(tail)) == if tail.Some? then [mark] + tail.value else ""
  {
    if tail.Some? {
      JoinSplit(tail.value, '.');
    }
  }

  lemma ReadSound(text: string)
    ensures Read(text).Some? ==> WellSpelled(Read(text).value) && Text(Read(text).value) == text
  {
    var (left, build) := Cut(text, '+');
    var (core, prerelease) := Cut(left, '-');
    JoinSplit(core, '.');
    TailSplit('-', prerelease);
    TailSplit('+', build);
  }

  /** Identifiers hold none of the separators. */
  lemma {:induction false} JoinFree(ids: seq<string>, c: char)
    requires c != '.'
    requires forall i :: 0 <= i < |ids| ==> c !in ids[i]
    ensures c !in Join(ids, '.')
  {
    if |ids| > 1 {
      JoinFree(ids[1..], c);
    }
  }

  lemma IdsFree(f: Fields)
    requires WellSpelled(f)
    ensures forall i :: 0 <= i < |f.core| ==> '.' !in f.core[i] && '+' !in f.core[i] && '-' !in f.core[i]
    ensures f.prerelease.Some? ==> forall i :: 0 <= i < |f.prerelease.value| ==>
      '.' !in f.prerelease.value[i] && '+' !in f.prerelease.value[i]
    ensures f.build.Some? ==> forall i :: 0 <= i < |f.build.value| ==> '.' !in f.build.value[i]
  {
  }

  lemma ReadComplete(f: Fields)
    requires WellSpelled(f)
    ensures Read(Text(f)) == Some(f)
  {
    IdsFree(f);
    var core := Join(f.core, '.');
    var left := core + Tail('-', f.prerelease);
    JoinFree(f.core, '+');
    JoinFree(f.core, '-');
    SplitJoin(f.core, '.');
    if f.prerelease.Some? {
      var ids := f.prerelease.value;
      JoinFree(ids, '+');
      SplitJoin(ids, '.');
      CutJoined(core, '-', Join(ids, '.'));
      assert left == core + ['-'] + Join(ids, '.');
    } else {
      CutNothing(core, '-');
      assert left == core;
    }
    if f.build.Some? {
      SplitJoin(f.build.value, '.');
      CutJoined(left, '+', Join(f.build.value, '.'));
      assert Text(f) == left + ['+'] + Join(f.build.value, '.');
    } else {
      CutNothing(left, '+');
      assert Text(f) == left;
    }
  }

  // ---- versions -----------------------------------------------------------------------------

  datatype Version = Version(major: nat, minor: nat, patch: nat, prerelease: seq<string>, build: seq<string>)

  predicate WellFormed(v: Version) { Every(PrereleaseId, v.prerelease) && Every(BuildId, v.build) }

  function Print(v: Version): string {
    Decimal(v.major) + "." + Decimal(v.minor) + "." + Decimal(v.patch)
    + (if v.prerelease != [] then "-" + Join(v.prerelease, '.') else "")
    + (if v.build != [] then "+" + Join(v.build, '.') else "")
  }

  function Parse(text: string): Option<Version> {
    var f := Read(text);
    if f.None? then None else Some(VersionOf(f.value))
  }

  function VersionOf(f: Fields): Version
    requires WellSpelled(f)
  {
    Version(Value(f.core[0]), Value(f.core[1]), Value(f.core[2]),
            if f.prerelease.Some? then f.prerelease.value else [], if f.build.Some? then f.build.value else [])
  }

  function FieldsOf(v: Version): Fields {
    Fields([Decimal(v.major), Decimal(v.minor), Decimal(v.patch)],
           if v.prerelease == [] then None else Some(v.prerelease), if v.build == [] then None else Some(v.build))
  }

  lemma PrintIsText(v: Version)
    ensures Print(v) == Text(FieldsOf(v))
  {
    var f := FieldsOf(v);
    JoinThree(f.core[0], f.core[1], f.core[2]);
  }

  lemma JoinThree(a: string, b: string, c: string)
    ensures Join([a, b, c], '.') == a + "." + b + "." + c
  {
    assert [a, b, c][1..] == [b, c] && [b, c][1..] == [c];
    assert Join([b, c], '.') == b + ['.'] + Join([c], '.');
    assert Join([a, b, c], '.') == a + ['.'] + (b + ['.'] + c);
  }

  lemma FieldsRoundTrip(v: Version)
    requires WellFormed(v)
    ensures WellSpelled(FieldsOf(v)) && VersionOf(FieldsOf(v)) == v
  {
    DecimalNumber(v.major);
    DecimalNumber(v.minor);
    DecimalNumber(v.patch);
  }

  /** Accepted is exactly what the grammar spells, and every accepted text prints back unchanged. */
  lemma PrintParse(text: string)
    ensures Parse(text).Some? <==> Grammatical(text)
    ensures Parse(text).Some? ==> WellFormed(Parse(text).value) && Print(Parse(text).value) == text
  {
    ReadSound(text);
    if f :| WellSpelled(f) && Text(f) == text {
      ReadComplete(f);
    }
    if Read(text).Some? {
      FieldsRestored(Read(text).value);
    }
  }

  lemma FieldsRestored(f: Fields)
    requires WellSpelled(f)
    ensures WellFormed(VersionOf(f)) && Print(VersionOf(f)) == Text(f)
  {
    var v := VersionOf(f);
    assert Number(f.core[0]) && Number(f.core[1]) && Number(f.core[2]);
    NumberDecimal(f.core[0]);
    NumberDecimal(f.core[1]);
    NumberDecimal(f.core[2]);
    assert FieldsOf(v).core == f.core;
    PrintIsText(v);
  }

  /** Every well-formed version reparses to itself. */
  lemma ParsePrint(v: Version)
    requires WellFormed(v)
    ensures Parse(Print(v)) == Some(v)
  {
    PrintIsText(v);
    FieldsRoundTrip(v);
    ReadComplete(FieldsOf(v));
  }

  // ---- precedence ---------------------------------------------------------------------------

  /** Sort key of one prerelease identifier: `(0, int(p))` or `(1, p)`. */
  datatype IdKey = Numeric(value: nat) | Alphanumeric(text: string)

  /** `(major, minor, patch, 1, ())` or `(major, minor, patch, 0, identifiers)`. */
  datatype Key = Key(major: nat, minor: nat, patch: nat, released: nat, ids: seq<IdKey>)

  function KeyOfId(id: string): IdKey {
    if id != "" && AllDigits(id) then Numeric(Value(id)) else Alphanumeric(id)
  }

  function KeyOfIds(ids: seq<string>): (r: seq<IdKey>)
    ensures |r| == |ids|
  {
    seq(|ids|, i requires 0 <= i < |ids| => KeyOfId(ids[i]))
  }

  function Precedence(v: Version): Key {
    if v.prerelease == [] then Key(v.major, v.minor, v.patch, 1, [])
    else Key(v.major, v.minor, v.patch, 0, KeyOfIds(v.prerelease))
  }

  /** Python's tuple comparison of identifier keys. */
  predicate IdKeyLess(a: IdKey, b: IdKey) {
    match (a, b)
    case (Numeric(x), Numeric(y)) => x < y
    case (Numeric(_), Alphanumeric(_)) => true
    case (Alphanumeric(_), Numeric(_)) => false
    case (Alphanumeric(x), Alphanumeric(y)) => StringLess(x, y)
  }

  /** Python's tuple comparison of version keys. */
  predicate KeyLess(a: Key, b: Key) {
    if a.major != b.major then a.major < b.major
    else if a.minor != b.minor then a.minor < b.minor
    else if a.patch != b.patch then a.patch < b.patch
    else if a.released != b.released then a.released < b.released
    else LexLess(IdKeyLess, a.ids, b.ids)
  }

  predicate Lower(a: Version, b: Version) { KeyLess(Precedence(a), Precedence(b)) }

  // Section 11 of SemVer 2.0.0, point by point.

  /** 11.4.1 to 11.4.3: numbers by value, text in ASCII order, numbers below text. */
  ghost predicate IdBelow(x: string, y: string) {
    if Number(x) then !Number(y) || Value(x) < Value(y)
    else !Number(y) && FirstDifference(CharLess, x, y)
  }

  /** Decided at the first difference; when there is none, the longer one is higher (11.4.4). */
  ghost predicate FirstDifference<T>(below: (T, T) -> bool, a: seq<T>, b: seq<T>) {
    exists k :: 0 <= k <= |a| && DiffersAt(below, a, b, k)
  }

  ghost predicate DiffersAt<T>(below: (T, T) -> bool, a: seq<T>, b: seq<T>, k: nat)
    requires k <= |a|
  {
    k < |b| && a[..k] == b[..k] && (k == |a| || below(a[k], b[k]))
  }

  ghost predicate Section11(a: Version, b: Version) {
    || a.major < b.major
    || (a.major == b.major && a.minor < b.minor)
    || (a.major == b.major && a.minor == b.minor && a.patch < b.patch)
    || (a.major == b.major && a.minor == b.minor && a.patch == b.patch
        && if a.prerelease == [] then false
           else b.prerelease == [] || FirstDifference(IdBelow, a.prerelease, b.prerelease))
  }

  lemma PrefixHeads<T>(a: seq<T>, b: seq<T>)
    ensures forall k :: 0 < k <= |a| && k <= |b| && a[..k] == b[..k] ==> a[0] == b[0]
  {
  }

  /** Lexicographic comparison is decided at the first difference. */
  lemma {:induction false} LexFirstDifference<T(!new)>(less: (T, T) -> bool, a: seq<T>, b: seq<T>)
    requires forall x :: !less(x, x)
    ensures LexLess(less, a, b) <==> FirstDifference(less, a, b)
  {
    if a == [] {
      if b != [] {
        assert DiffersAt(less, a, b, 0);
      }
    } else if b != [] && a[0] == b[0] {
      LexFirstDifference(less, a[1..], b[1..]);
      if LexLess(less, a[1..], b[1..]) {
        var k :| 0 <= k <= |a[1..]| && DiffersAt(less, a[1..], b[1..], k);
        assert a[..k + 1] == [a[0]] + a[1..][..k] && b[..k + 1] == [b[0]] + b[1..][..k];
        assert DiffersAt(less, a, b, k + 1);
      }
      if k :| 0 <= k <= |a| && DiffersAt(less, a, b, k) {
        assert k > 0;
        assert a[1..][..k - 1] == a[..k][1..] && b[1..][..k - 1] == b[..k][1..];
        assert DiffersAt(less, a[1..], b[1..], k - 1);
      }
    } else if b != [] {
      PrefixHeads(a, b);
      if less(a[0], b[0]) {
        assert DiffersAt(less, a, b, 0);
      }
      if k :| 0 <= k <= |a| && DiffersAt(less, a, b, k) {
        assert k == 0;
      }
    }
  }

  lemma IdKeyStrictTotal()
    ensures StrictTotal(IdKeyLess)
  {
    StringLessStrictTotal();
    assert forall a, b, c :: StringLess(a, b) && StringLess(b, c) ==> StringLess(a, c);
    forall a: IdKey, b: IdKey, c: IdKey | IdKeyLess(a, b) && IdKeyLess(b, c) ensures IdKeyLess(a, c) {
    }
    forall a: IdKey, b: IdKey | a != b ensures IdKeyLess(a, b) || IdKeyLess(b, a) {
    }
  }

  lemma KeyStrictTotal()
    ensures StrictTotal(KeyLess)
  {
    IdKeyStrictTotal();
    LexStrictTotal(IdKeyLess);
    var lex := (a: seq<IdKey>, b: seq<IdKey>) => LexLess(IdKeyLess, a, b);
    assert StrictTotal(lex);
    forall a: seq<IdKey>, b: seq<IdKey> ensures lex(a, b) == LexLess(IdKeyLess, a, b) {}
    forall a: Key ensures !KeyLess(a, a) {
      assert !lex(a.ids, a.ids);
    }
    forall a: Key, b: Key, c: Key | KeyLess(a, b) && KeyLess(b, c) ensures KeyLess(a, c) {
      assert lex(a.ids, b.ids) && lex(b.ids, c.ids) ==> lex(a.ids, c.ids);
    }
    forall a: Key, b: Key | a != b ensures KeyLess(a, b) || KeyLess(b, a) {
      assert a.ids != b.ids ==> lex(a.ids, b.ids) || lex(b.ids, a.ids);
    }
  }

  /** On well-formed identifiers, the sort key is faithful: equal keys are equal identifiers. */
  lemma IdKeyFaithful(x: string, y: string)
    requires PrereleaseId(x) && PrereleaseId(y)
    ensures KeyOfId(x) == KeyOfId(y) <==> x == y
    ensures IdKeyLess(KeyOfId(x), KeyOfId(y)) <==> IdBelow(x, y)
  {
    if Number(x) {
      NumberDecimal(x);
    }
    if Number(y) {
      NumberDecimal(y);
    }
    LexFirstDifference(CharLess, x, y);
  }

  lemma KeysAlike(a: seq<string>, b: seq<string>, k: nat)
    requires Every(PrereleaseId, a) && Every(PrereleaseId, b) && k <= |a| && k <= |b|
    ensures KeyOfIds(a)[..k] == KeyOfIds(b)[..k] <==> a[..k] == b[..k]
  {
    forall i | 0 <= i < k ensures KeyOfIds(a)[..k][i] == KeyOfIds(b)[..k][i] <==> a[i] == b[i] {
      IdKeyFaithful(a[i], b[i]);
    }
    if KeyOfIds(a)[..k] == KeyOfIds(b)[..k] {
      forall i | 0 <= i < k ensures a[..k][i] == b[..k][i] {
        assert KeyOfIds(a)[..k][i] == KeyOfIds(b)[..k][i];
      }
    }
    if a[..k] == b[..k] {
      forall i | 0 <= i < k ensures KeyOfIds(a)[..k][i] == KeyOfIds(b)[..k][i] {
        assert a[..k][i] == b[..k][i];
      }
    }
  }

  lemma IdsCompare(a: seq<string>, b: seq<string>)
    requires Every(PrereleaseId, a) && Every(PrereleaseId, b)
    ensures LexLess(IdKeyLess, KeyOfIds(a), KeyOfIds(b)) <==> FirstDifference(IdBelow, a, b)
  {
    IdKeyStrictTotal();
    LexFirstDifference(IdKeyLess, KeyOfIds(a), KeyOfIds(b));
    forall k | 0 <= k <= |a|
      ensures DiffersAt(IdKeyLess, KeyOfIds(a), KeyOfIds(b), k) <==> DiffersAt(IdBelow, a, b, k)
    {
      if k < |b| {
        KeysAlike(a, b, k);
        if k < |a| {
          IdKeyFaithful(a[k], b[k]);
        }
      }
    }
  }

  /** The sort key orders versions exactly as section 11 of SemVer 2.0.0 does. */
  lemma PrecedenceIsSection11(a: Version, b: Version)
    requires WellFormed(a) && WellFormed(b)
    ensures Lower(a, b) <==> Section11(a, b)
  {
    IdsCompare(a.prerelease, b.prerelease);
  }

  /** Of two versions one is lower, or they differ at most in build metadata; and order carries over. */
  lemma PrecedenceTotal(a: Version, b: Version, c: Version)
    requires WellFormed(a) && WellFormed(b)
    ensures !(Lower(a, b) && Lower(b, a))
    ensures !Lower(a, b) && !Lower(b, a) <==>
      a.major == b.major && a.minor == b.minor && a.patch == b.patch && a.prerelease == b.prerelease
    ensures Lower(a, b) && Lower(b, c) ==> Lower(a, c)
    ensures !Lower(b, a) && !Lower(c, b) ==> !Lower(c, a)
  {
    KeyStrictTotal();
    var x, y, z := Precedence(a), Precedence(b), Precedence(c);
    assert KeyLess(x, y) || x == y || KeyLess(y, x);
    assert KeyLess(y, z) || y == z || KeyLess(z, y);
    if |a.prerelease| == |b.prerelease| {
      KeysAlike(a.prerelease, b.prerelease, |a.prerelease|);
      assert a.prerelease[..|a.prerelease|] == a.prerelease && b.prerelease[..|a.prerelease|] == b.prerelease;
      assert KeyOfIds(a.prerelease)[..|a.prerelease|] == KeyOfIds(a.prerelease);
      assert KeyOfIds(b.prerelease)[..|a.prerelease|] == KeyOfIds(b.prerelease);
    }
  }
}
