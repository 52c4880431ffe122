/**
 * Character classes, ignore-case pattern search, splitting and integer text
 * as the Python runtime under the pipeline scripts defines them.
 */
module Text {
  import opened Wrappers

  /** The characters Python's `\s` (and `str.isspace`) accept: ASCII
      whitespace, the information separators U+001C..U+001F and the Unicode
      space characters. */
  predicate IsSpace(c: char) {
    || ('\t' <= c <= '\r')
    || ('\U{1C}' <= c <= ' ')
    || c == '\U{85}' || c == '\U{A0}' || c == '\U{1680}'
    || ('\U{2000}' <= c <= '\U{200A}')
    || c == '\U{2028}' || c == '\U{2029}' || c == '\U{202F}'
    || c == '\U{205F}' || c == '\U{3000}'
  }

  /** A decimal digit (ASCII only in this model). */
  predicate IsDigit(c: char) {
    '0' <= c <= '9'
  }

  predicate AllDigits(s: string) {
    forall i | 0 <= i < |s| :: IsDigit(s[i])
  }

  predicate NoSpace(s: string) {
    forall i | 0 <= i < |s| :: !IsSpace(s[i])
  }

  // ---------------------------------------------------------------------
  // Ignore-case regex search for the fixed-width patterns ".exe" and "admin"
  // ---------------------------------------------------------------------

  /** Simple lower-case mapping for the characters whose lower case is an
      ASCII letter: A-Z, LATIN CAPITAL I WITH DOT ABOVE and KELVIN SIGN. */
  function Lower(c: char): char {
    if 'A' <= c <= 'Z' then (c as int + 32) as char
    else if c == '\U{130}' then 'i'
    else if c == '\U{212A}' then 'k'
    else c
  }

  /** Python's regex engine under IGNORECASE: both sides are lower-cased,
      and the dotless i and the long s are also accepted as equivalents
      of i and s. */
  predicate MatchesIgnoreCase(c: char, p: char) {
    || Lower(c) == Lower(p)
    || (Lower(p) == 'i' && c == '\U{131}')
    || (Lower(p) == 's' && c == '\U{17F}')
  }

  /** One position of a fixed-width pattern: `.` or a literal character. */
  datatype Atom = AnyChar | Literal(c: char)

  /** `.` is the only metacharacter of the patterns used here. */
  function Compile(pattern: string): (atoms: seq<Atom>)
    ensures |atoms| == |pattern|
    ensures forall i | 0 <= i < |pattern| ::
      atoms[i] == if pattern[i] == '.' then AnyChar else Literal(pattern[i])
  {
    if |pattern| == 0 then []
    else [if pattern[0] == '.' then AnyChar else Literal(pattern[0])] + Compile(pattern[1..])
  }

  /** `.` matches anything but a newline; literals compare ignoring case. */
  predicate AtomMatches(a: Atom, c: char) {
    match a
    case AnyChar => c != '\n'
    case Literal(p) => MatchesIgnoreCase(c, p)
  }

  /** The pattern occurs in `s` starting at index `k`. */
  ghost predicate OccursAt(s: string, k: nat, atoms: seq<Atom>) {
    k + |atoms| <= |s| && forall j | 0 <= j < |atoms| :: AtomMatches(atoms[j], s[k + j])
  }

  /** Character-by-character comparison of the pattern against `s` at `k`. */
  function MatchHere(s: string, k: nat, atoms: seq<Atom>): (b: bool)
    ensures b <==> OccursAt(s, k, atoms)
    decreases |atoms|
  {
    if |atoms| == 0 then k <= |s|
    else if k >= |s| then false
    else AtomMatches(atoms[0], s[k]) && MatchHere(s, k + 1, atoms[1..])
  }

  /** The left-to-right scan of a regex search, trying `k`, `k + 1`, ... */
  function SearchFrom(s: string, atoms: seq<Atom>, k: nat): (found: bool)
    ensures found <==> exists j: nat :: k <= j && OccursAt(s, j, atoms)
    decreases |s| - k
  {
    if k + |atoms| > |s| then false
    else MatchHere(s, k, atoms) || SearchFrom(s, atoms, k + 1)
  }

  /** pandas `Series.str.contains(pattern, case=False)` for one string. */
  function ContainsIgnoreCase(s: string, pattern: string): (found: bool)
    ensures found <==> exists j: nat :: OccursAt(s, j, Compile(pattern))
  {
    var atoms := Compile(pattern);
    var found := SearchFrom(s, atoms, 0);
    assert found ==> exists j: nat :: OccursAt(s, j, Compile(pattern)) by {
      if found {
        var j: nat :| 0 <= j && OccursAt(s, j, atoms);
        assert OccursAt(s, j, Compile(pattern));
      }
    }
    found
  }

  // ---------------------------------------------------------------------
  // str.split with a one-character separator, and its inverse str.join
  // ---------------------------------------------------------------------

  /** `sep.join(parts)` (with `sep` any string). */
  function Join(parts: seq<string>, sep: string): string {
    if |parts| == 0 then ""
    else if |parts| == 1 then parts[0]
    else parts[0] + sep + Join(parts[1..], sep)
  }

  lemma JoinConsHead(c: char, p: string, ps: seq<string>, sep: string)
    ensures Join([[c] + p] + ps, sep) == [c] + Join([p] + ps, sep)
  {
    assert ([[c] + p] + ps)[1..] == ps;
    assert ([p] + ps)[1..] == ps;
  }

  /** `s.split(sep)`: never empty, no part holds the separator, and joining
      the parts back gives `s`. */
  function Split(s: string, sep: char): (parts: seq<string>)
    ensures |parts| >= 1
    ensures forall i | 0 <= i < |parts| :: sep !in parts[i]
    ensures Join(parts, [sep]) == s
  {
    if |s| == 0 then [""]
    else
      var rest := Split(s[1..], sep);
      if s[0] == sep then
        assert ([""] + rest)[1..] == rest;
        [""] + rest
      else
        JoinConsHead(s[0], rest[0], rest[1..], [sep]);
        assert [rest[0]] + rest[1..] == rest;
        [[s[0]] + rest[0]] + rest[1..]
  }

  lemma {:induction false} SplitNoSeparator(p: string, sep: char)
    requires sep !in p
    ensures Split(p, sep) == [p]
  {
    if |p| > 0 {
      SplitNoSeparator(p[1..], sep);
      assert [p[0]] + p[1..] == p;
    }
  }

  lemma {:induction false} SplitAtSeparator(p: string, sep: char, t: string)
    requires sep !in p
    ensures Split(p + [sep] + t, sep) == [p] + Split(t, sep)
  {
    if |p| == 0 {
      assert p + [sep] + t == [sep] + t;
      assert ([sep] + t)[1..] == t;
    } else {
      SplitAtSeparator(p[1..], sep, t);
      assert (p + [sep] + t)[1..] == p[1..] + [sep] + t;
      assert [p[0]] + p[1..] == p;
    }
  }

  /** Splitting undoes joining when no part holds the separator. */
  lemma {:induction false} SplitJoin(parts: seq<string>, sep: char)
    requires |parts| >= 1
    requires forall i | 0 <= i < |parts| :: sep !in parts[i]
    ensures Split(Join(parts, [sep]), sep) == parts
  {
    if |parts| == 1 {
      SplitNoSeparator(parts[0], sep);
    } else {
      SplitJoin(parts[1..], sep);
      SplitAtSeparator(parts[0], sep, Join(parts[1..], [sep]));
      assert [parts[0]] + parts[1..] == parts;
    }
  }

  // ---------------------------------------------------------------------
  // Integer text as Python's int() reads it
  // ---------------------------------------------------------------------

  /** `s.strip()`: drop leading and trailing whitespace. */
  function Strip(s: string): (t: string)
    ensures |t| <= |s|
    ensures |t| > 0 ==> !IsSpace(t[0]) && !IsSpace(t[|t| - 1])
    ensures NoSpace(s) ==> t == s
  {
    if |s| > 0 && IsSpace(s[0]) then Strip(s[1..])
    else if |s| > 0 && IsSpace(s[|s| - 1]) then Strip(s[..|s| - 1])
    else s
  }

  function DigitValue(c: char): nat
    requires IsDigit(c)
  {
    c as int - '0' as int
  }

  function DigitChar(d: nat): (c: char)
    requires d < 10
    ensures IsDigit(c) && DigitValue(c) == d
  {
    ('0' as int + d) as char
  }

  /** The value of a string of decimal digits, most significant first. */
  function DigitsValue(s: string): nat
    requires AllDigits(s)
  {
    if |s| == 0 then 0 else DigitsValue(s[..|s| - 1]) * 10 + DigitValue(s[|s| - 1])
  }

  function Pow10(n: nat): (p: nat)
    ensures p >= 1
  {
    if n == 0 then 1 else 10 * Pow10(n - 1)
  }

  lemma {:induction false} DigitsValueBound(s: string)
    requires AllDigits(s)
    ensures DigitsValue(s) < Pow10(|s|)
  {
    if |s| > 0 {
      DigitsValueBound(s[..|s| - 1]);
    }
  }

  /** Python `int(s)` for base-10 text: surrounding whitespace, then an
      optional sign, then one or more digits; anything else is an error. */
  function ParseInt(s: string): Option<int> {
    var t := Strip(s);
    if |t| > 0 && (t[0] == '+' || t[0] == '-') then
      var body := t[1..];
      if |body| > 0 && AllDigits(body) then
        var magnitude: int := DigitsValue(body);
        Some(if t[0] == '-' then -magnitude else magnitude)
      else None
    else if |t| > 0 && AllDigits(t) then Some(DigitsValue(t))
    else None
  }

  /** Decimal rendering of a natural number, without leading zeros. */
  function ShowNat(n: nat): (s: string)
    ensures |s| > 0 && AllDigits(s)
    ensures DigitsValue(s) == n
  {
    if n < 10 then [DigitChar(n)]
    else
      var prefix := ShowNat(n / 10);
      var s := prefix + [DigitChar(n % 10)];
      assert s[..|s| - 1] == prefix;
      s
  }

  /** `str(n)` for an integer. */
  function ShowInt(n: int): string {
    if n < 0 then "-" + ShowNat(-n) else ShowNat(n)
  }

  /** `int(str(n)) == n`. */
  lemma ParseShowInt(n: int)
    ensures ParseInt(ShowInt(n)) == Some(n)
  {
    var s := ShowInt(n);
    assert NoSpace(s);
    if n < 0 {
      assert s[1..] == ShowNat(-n);
    }
  }
}
