/**
 * The handful of Python string builtins the core relies on, over `string`
 * (a sequence of characters): `sep.join(parts)`, `s.replace(pat, rep)`,
 * `s.strip()`, `s.capitalize()`, `s.upper()` and `repr(s)`.
 */
module Text {

  // ---------------------------------------------------------------------------
  // sep.join(parts)
  // ---------------------------------------------------------------------------

  /** `sep.join(parts)`: empty for no parts, otherwise it starts with the first part. */
  function Join(parts: seq<string>, sep: string): (r: string)
    ensures |parts| == 0 ==> r == ""
    ensures |parts| > 0 ==> parts[0] <= r
    decreases |parts|
  {
    if |parts| == 0 then ""
    else if |parts| == 1 then parts[0]
    else parts[0] + sep + Join(parts[1..], sep)
  }

  /** Joining two non-empty lists is joining each and putting one separator between them. */
  lemma {:induction false} JoinConcat(a: seq<string>, b: seq<string>, sep: string)
    requires |a| > 0 && |b| > 0
    ensures Join(a + b, sep) == Join(a, sep) + sep + Join(b, sep)
    decreases |a|
  {
    if |a| == 1 {
      assert (a + b)[1..] == b;
    } else {
      assert (a + b)[1..] == a[1..] + b;
      JoinConcat(a[1..], b, sep);
    }
  }

  /**
   * Joining keeps every part, in order and intact: the result is the parts
   * before `parts[i]` joined, a separator, `parts[i]` itself, a separator
   * and the parts after it joined (without a separator on a side where
   * there are no parts).
   */
  lemma JoinKeepsParts(parts: seq<string>, sep: string, i: nat)
    requires i < |parts|
    ensures Join(parts, sep) ==
      (if i == 0 then "" else Join(parts[..i], sep) + sep)
      + parts[i]
      + (if i == |parts| - 1 then "" else sep + Join(parts[i + 1..], sep))
  {
    var before, here, after := parts[..i], [parts[i]], parts[i + 1..];
    assert parts == before + here + after;
    if i > 0 && i < |parts| - 1 {
      JoinConcat(before, here + after, sep);
      JoinConcat(here, after, sep);
      assert before + here + after == before + (here + after);
    } else if i > 0 {
      assert after == [];
      assert parts == before + here;
      JoinConcat(before, here, sep);
    } else if i < |parts| - 1 {
      assert parts == here + after;
      JoinConcat(here, after, sep);
    }
  }

  // ---------------------------------------------------------------------------
  // s.replace(pat, rep)
  // ---------------------------------------------------------------------------

  /** `pat` occurs in `s` starting at index `i`. */
  predicate OccursAt(s: string, pat: string, i: nat)
  {
    i + |pat| <= |s| && s[i..i + |pat|] == pat
  }

  /**
   * `s.replace(pat, rep)` for a non-empty `pat`: a left-to-right scan
   * replacing non-overlapping occurrences. A replacement no longer than the
   * pattern never lengthens the text.
   */
  function ReplaceAll(s: string, pat: string, rep: string): (r: string)
    requires |pat| > 0
    ensures |rep| <= |pat| ==> |r| <= |s|
    decreases |s|
  {
    if |s| < |pat| then s
    else if s[..|pat|] == pat then rep + ReplaceAll(s[|pat|..], pat, rep)
    else [s[0]] + ReplaceAll(s[1..], pat, rep)
  }

  /** The text with every `a` turned into `b`, character by character. */
  function Swap(s: string, a: char, b: char): string
  {
    seq(|s|, i requires 0 <= i < |s| => if s[i] == a then b else s[i])
  }

  /** `replace` of one character by one character swaps it at every position and keeps the rest. */
  lemma {:induction false} ReplaceOneChar(s: string, a: char, b: char)
    ensures ReplaceAll(s, [a], [b]) == Swap(s, a, b)
    decreases |s|
  {
    if |s| > 0 {
      ReplaceOneChar(s[1..], a, b);
      assert s[..1] == [a] <==> s[0] == a;
      assert Swap(s, a, b) == [if s[0] == a then b else s[0]] + Swap(s[1..], a, b);
    }
  }

  /** Replacing a pattern that does not occur leaves the text as it is. */
  lemma {:induction false} ReplaceAbsent(s: string, pat: string, rep: string)
    requires |pat| > 0
    requires forall i: nat :: !OccursAt(s, pat, i)
    ensures ReplaceAll(s, pat, rep) == s
    decreases |s|
  {
    if |s| >= |pat| {
      assert !OccursAt(s, pat, 0);
      forall i: nat ensures !OccursAt(s[1..], pat, i) {
        assert !OccursAt(s, pat, i + 1);
        if i + |pat| <= |s[1..]| {
          assert s[1..][i..i + |pat|] == s[i + 1..i + 1 + |pat|];
        }
      }
      ReplaceAbsent(s[1..], pat, rep);
    }
  }

  /** Text without the pattern's first character passes through a replacement untouched, whatever follows it. */
  lemma {:induction false} ReplaceAfterLacking(x: string, y: string, pat: string, rep: string)
    requires |pat| > 0 && Lacks(x, pat[0])
    ensures ReplaceAll(x + y, pat, rep) == x + ReplaceAll(y, pat, rep)
    decreases |x|
  {
    if |x| > 0 {
      var s := x + y;
      assert |s| >= |pat| ==> s[..|pat|][0] != pat[0];
      assert s[1..] == x[1..] + y;
      ReplaceAfterLacking(x[1..], y, pat, rep);
      if |s| >= |pat| {
        assert ReplaceAll(s, pat, rep) == [x[0]] + (x[1..] + ReplaceAll(y, pat, rep));
        assert [x[0]] + x[1..] == x;
      }
    } else {
      assert x + y == y;
    }
  }

  /** A character that `c` differs from everywhere in `s`. */
  predicate Lacks(s: string, c: char)
  {
    forall i :: 0 <= i < |s| ==> s[i] != c
  }

  /** A pattern that starts with a character `s` lacks does not occur in `s`. */
  lemma AbsentWhenFirstLacking(s: string, pat: string)
    requires |pat| > 0 && Lacks(s, pat[0])
    ensures forall i: nat :: !OccursAt(s, pat, i)
  {
    forall i: nat ensures !OccursAt(s, pat, i) {
      if i + |pat| <= |s| {
        assert s[i..i + |pat|][0] == s[i] != pat[0];
      }
    }
  }

  // ---------------------------------------------------------------------------
  // s.strip()
  // ---------------------------------------------------------------------------

  /** Python's `str.isspace` for one character: the characters `str.strip()` removes. */
  predicate IsSpace(c: char)
  {
    var n := c as int;
    (9 <= n <= 13) || (28 <= n <= 32) || n == 0x85 || n == 0xA0 || n == 0x1680
    || (0x2000 <= n <= 0x200A) || n == 0x2028 || n == 0x2029 || n == 0x202F
    || n == 0x205F || n == 0x3000
  }

  /** Every character of `s` from index `lo` up to (not including) `hi` is whitespace. */
  predicate Spaces(s: string, lo: int, hi: int)
    requires 0 <= lo && hi <= |s|
  {
    forall i :: lo <= i < hi ==> IsSpace(s[i])
  }

  /** A prefix `r` of a suffix `l` of `s` is a slice of `s`, and whitespace after `r` in `l` is whitespace in `s`. */
  lemma StripPieces(s: string, l: string, r: string)
    requires |l| <= |s| && l == s[|s| - |l|..]
    requires |r| <= |l| && r == l[..|r|] && Spaces(l, |r|, |l|)
    ensures var lo := |s| - |l|;
      && r == s[lo..lo + |r|]
      && Spaces(s, lo + |r|, |s|)
      && (|r| > 0 ==> r[0] == l[0])
  {
    var lo := |s| - |l|;
    forall i | lo + |r| <= i < |s| ensures IsSpace(s[i]) {
      assert s[i] == l[i - lo];
    }
  }

  function LStrip(s: string): (r: string)
    ensures |r| <= |s| && r == s[|s| - |r|..]
    ensures Spaces(s, 0, |s| - |r|)
    ensures |r| > 0 ==> !IsSpace(r[0])
    decreases |s|
  {
    if |s| > 0 && IsSpace(s[0]) then
      var r := LStrip(s[1..]);
      assert forall i :: 1 <= i < |s| - |r| ==> s[i] == s[1..][i - 1];
      r
    else s
  }

  function RStrip(s: string): (r: string)
    ensures |r| <= |s| && r == s[..|r|]
    ensures Spaces(s, |r|, |s|)
    ensures |r| > 0 ==> !IsSpace(r[|r| - 1])
    decreases |s|
  {
    if |s| > 0 && IsSpace(s[|s| - 1]) then
      var r := RStrip(s[..|s| - 1]);
      assert forall i :: |r| <= i < |s| - 1 ==> s[i] == s[..|s| - 1][i];
      r
    else s
  }

  /** How many leading characters `s.strip()` removes. */
  function StripStart(s: string): (n: nat)
    ensures n <= |s|
  {
    |s| - |LStrip(s)|
  }

  /**
   * `s.strip()`: the result is the piece of `s` starting at `StripStart(s)`,
   * everything cut off on either side is whitespace, and the result neither
   * starts nor ends with whitespace.
   */
  function Strip(s: string): (r: string)
    ensures StripStart(s) + |r| <= |s| && r == s[StripStart(s)..StripStart(s) + |r|]
    ensures Spaces(s, 0, StripStart(s))
    ensures Spaces(s, StripStart(s) + |r|, |s|)
    ensures |r| > 0 ==> !IsSpace(r[0]) && !IsSpace(r[|r| - 1])
  {
    var l := LStrip(s);
    var r := RStrip(l);
    StripPieces(s, l, r);
    r
  }

  /** Text that neither starts nor ends with whitespace is its own strip. */
  lemma StripTrimmed(s: string)
    requires |s| > 0 ==> !IsSpace(s[0]) && !IsSpace(s[|s| - 1])
    ensures Strip(s) == s
  {
  }

  /** Stripping twice is stripping once. */
  lemma StripIdempotent(s: string)
    ensures Strip(Strip(s)) == Strip(s)
  {
    StripTrimmed(Strip(s));
  }

  // ---------------------------------------------------------------------------
  // s.capitalize(), s.upper()
  // ---------------------------------------------------------------------------

  function UpperChar(c: char): char
  {
    if 'a' <= c <= 'z' then (c as int - 32) as char else c
  }

  function LowerChar(c: char): char
  {
    if 'A' <= c <= 'Z' then (c as int + 32) as char else c
  }

  /** `s.upper()` on ASCII letters. */
  function Upper(s: string): (r: string)
    ensures |r| == |s| && forall i :: 0 <= i < |s| ==> r[i] == UpperChar(s[i])
  {
    seq(|s|, i requires 0 <= i < |s| => UpperChar(s[i]))
  }

  /** `s.capitalize()` on ASCII letters: the first character upper case, all others lower case. */
  function Capitalize(s: string): (r: string)
    ensures |r| == |s|
    ensures |s| > 0 ==> r[0] == UpperChar(s[0])
    ensures forall i :: 0 < i < |s| ==> r[i] == LowerChar(s[i])
  {
    seq(|s|, i requires 0 <= i < |s| => if i == 0 then UpperChar(s[i]) else LowerChar(s[i]))
  }

  /** Upper-casing a capitalized text is upper-casing the text itself. */
  lemma UpperOfCapitalize(s: string)
    ensures Upper(Capitalize(s)) == Upper(s)
  {
    var c := Capitalize(s);
    forall i | 0 <= i < |s| ensures Upper(c)[i] == Upper(s)[i] {
      var ch := s[i];
      if 'A' <= ch <= 'Z' {
        assert LowerChar(ch) as int == ch as int + 32;
      }
    }
  }

  // ---------------------------------------------------------------------------
  // repr(s), str(x)
  // ---------------------------------------------------------------------------

  function Contains(s: string, c: char): bool
  {
    exists i :: 0 <= i < |s| && s[i] == c
  }

  /** The quote `repr` delimits `s` with: double quotes only if `s` has a single quote and no double quote. */
  function ReprQuote(s: string): char
  {
    if Contains(s, '\'') && !Contains(s, '"') then '"' else '\''
  }

  /** How `repr` writes one character inside quotes `q`. */
  function ReprChar(c: char, q: char): string
  {
    if c == q || c == '\\' then ['\\', c]
    else if c == '\n' then "\\n"
    else if c == '\r' then "\\r"
    else if c == '\t' then "\\t"
    else [c]
  }

  function ReprBody(s: string, q: char): (r: string)
    ensures |r| >= |s|
    decreases |s|
  {
    if |s| == 0 then "" else ReprChar(s[0], q) + ReprBody(s[1..], q)
  }

  /**
   * `repr(s)` for a string: the escaped text between two equal quotes,
   * single quotes unless the text has a single quote and no double quote.
   */
  function Repr(s: string): (r: string)
    ensures |r| >= 2 + |s| && r[0] == r[|r| - 1] && (r[0] == '\'' || r[0] == '"')
    ensures !Contains(s, '\'') ==> r[0] == '\''
  {
    var q := ReprQuote(s);
    [q] + ReprBody(s, q) + [q]
  }
}
