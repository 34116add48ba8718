/**
 * The pieces of Python's `str` behaviour that the application relies on:
 * `strip()`, `lower()`, the substring test `p in s`, and the ordering that
 * `sorted()` uses on strings.
 */
module Text {

  /** Python's `str.isspace()`: the characters `str.strip()` removes. */
  predicate IsSpace(c: char) {
    || ('\t' <= c <= '\r')
    || ('\U{1C}' <= c <= '\U{1F}')
    || c == ' '
    || c == '\U{85}'
    || c == '\U{A0}'
    || c == '\U{1680}'
    || ('\U{2000}' <= c <= '\U{200A}')
    || c == '\U{2028}'
    || c == '\U{2029}'
    || c == '\U{202F}'
    || c == '\U{205F}'
    || c == '\U{3000}'
  }

  /** Space, tab, newline and carriage return are whitespace; no printable ASCII character is. */
  lemma SpaceCharacters(c: char)
    ensures c == ' ' || c == '\t' || c == '\n' || c == '\r' ==> IsSpace(c)
    ensures '!' <= c <= '~' ==> !IsSpace(c)
  {
  }

  /** True when `s` is empty or holds only whitespace. */
  predicate IsBlank(s: string) {
    forall i | 0 <= i < |s| :: IsSpace(s[i])
  }

  /** `s.lstrip()`: drops the leading whitespace. */
  function StripLeft(s: string): (r: string)
    ensures |r| <= |s| && r == s[|s| - |r|..]
    ensures IsBlank(s[..|s| - |r|])
    ensures r == [] || !IsSpace(r[0])
  {
    if s == [] || !IsSpace(s[0]) then s
    else
      var r := StripLeft(s[1..]);
      LeadingBlankGrows(s, r);
      r
  }

  /** One step of `StripLeft`: a whitespace head joins the blank prefix of the tail. */
  lemma LeadingBlankGrows(s: string, r: string)
    requires s != [] && IsSpace(s[0])
    requires |r| <= |s[1..]| && r == s[1..][|s[1..]| - |r|..] && IsBlank(s[1..][..|s[1..]| - |r|])
    ensures r == s[|s| - |r|..] && IsBlank(s[..|s| - |r|])
  {
    var dropped := s[..|s| - |r|];
    forall i | 0 <= i < |dropped| ensures IsSpace(dropped[i]) {
      if i > 0 {
        assert dropped[i] == s[1..][..|s[1..]| - |r|][i - 1];
      }
    }
  }

  /** `s.rstrip()`: drops the trailing whitespace. */
  function StripRight(s: string): (r: string)
    ensures |r| <= |s| && r == s[..|r|]
    ensures IsBlank(s[|r|..])
    ensures r == [] || !IsSpace(r[|r| - 1])
  {
    if s == [] || !IsSpace(s[|s| - 1]) then s
    else
      var r := StripRight(s[..|s| - 1]);
      TrailingBlankGrows(s, r);
      r
  }

  /** One step of `StripRight`: a whitespace last character joins the blank suffix of the rest. */
  lemma TrailingBlankGrows(s: string, r: string)
    requires s != [] && IsSpace(s[|s| - 1])
    requires |r| <= |s| - 1 && r == s[..|s| - 1][..|r|] && IsBlank(s[..|s| - 1][|r|..])
    ensures r == s[..|r|] && IsBlank(s[|r|..])
  {
    var dropped := s[|r|..];
    forall i | 0 <= i < |dropped| ensures IsSpace(dropped[i]) {
      if i < |s| - 1 - |r| {
        assert dropped[i] == s[..|s| - 1][|r|..][i];
      }
    }
  }

  /**
   * `s.strip()`: the part of `s` between its leading and its trailing
   * whitespace; `StripDropsBlanks` states that what it drops is blank.
   */
  function Strip(s: string): (r: string)
    ensures |r| <= |s|
    ensures r == [] || (!IsSpace(r[0]) && !IsSpace(r[|r| - 1]))
  {
    StripRight(StripLeft(s))
  }

  /** The number of whitespace characters `s.lstrip()` drops. */
  function LeadingBlanks(s: string): nat {
    |s| - |StripLeft(s)|
  }

  /** `s.strip()` is a slice of `s` with only whitespace before and after it. */
  lemma StripDropsBlanks(s: string)
    ensures LeadingBlanks(s) + |Strip(s)| <= |s|
    ensures Strip(s) == s[LeadingBlanks(s)..LeadingBlanks(s) + |Strip(s)|]
    ensures IsBlank(s[..LeadingBlanks(s)]) && IsBlank(s[LeadingBlanks(s) + |Strip(s)|..])
  {
    var t := StripLeft(s);
    assert Strip(s) == StripRight(t) && LeadingBlanks(s) == |s| - |t|;
    BlanksAround(s, t, Strip(s), LeadingBlanks(s));
  }

  /**
   * A slice `r` of a suffix `t` of `s`, with only whitespace cut off on
   * either side, is a slice of `s` with only whitespace around it.
   */
  lemma BlanksAround(s: string, t: string, r: string, i: nat)
    requires |t| <= |s| && i == |s| - |t|
    requires t == s[|s| - |t|..] && IsBlank(s[..|s| - |t|])
    requires |r| <= |t| && r == t[..|r|] && IsBlank(t[|r|..])
    ensures i + |r| <= |s|
    ensures r == s[i..i + |r|]
    ensures IsBlank(s[..i]) && IsBlank(s[i + |r|..])
  {
    SliceOfSuffix(s, i, |r|);
  }

  /** Slicing the suffix `s[i..]` at `k` slices `s` at `i + k`. */
  lemma SliceOfSuffix(s: string, i: nat, k: nat)
    requires i + k <= |s|
    ensures s[i..][..k] == s[i..i + k]
    ensures s[i..][k..] == s[i + k..]
  {
  }

  /** Python's truth test `if s.strip():` fails exactly on blank text. */
  lemma StripEmptyIffBlank(s: string)
    ensures Strip(s) == [] <==> IsBlank(s)
  {
    StripDropsBlanks(s);
    var r := Strip(s);
    var i := LeadingBlanks(s);
    if r == [] {
      assert s[..i] == s;
    } else {
      assert s[i] == r[0];
    }
  }

  /** Python's `str.lower()` on one character, for ASCII letters. */
  function LowerChar(c: char): char {
    if 'A' <= c <= 'Z' then (c as int + 32) as char else c
  }

  /** Python's `str.lower()`, for ASCII letters; `LowerChars` states its effect. */
  function Lower(s: string): (r: string)
    ensures |r| == |s|
  {
    seq(|s|, i requires 0 <= i < |s| => LowerChar(s[i]))
  }

  /** Lower-casing turns each capital into its small letter, keeps every other character, and leaves no capital. */
  lemma LowerChars(s: string)
    ensures forall i | 0 <= i < |s| ::
      if 'A' <= s[i] <= 'Z' then Lower(s)[i] as int == s[i] as int + 32 else Lower(s)[i] == s[i]
    ensures forall i | 0 <= i < |s| :: !('A' <= Lower(s)[i] <= 'Z')
  {
  }

  /** A character that is in `s` neither as itself nor as its capital is not in `Lower(s)`. */
  lemma LowerLacks(s: string, c: char)
    requires c !in s
    requires 'a' <= c <= 'z' ==> (c as int - 32) as char !in s
    ensures c !in Lower(s)
  {
    forall i | 0 <= i < |s|
      ensures Lower(s)[i] != c
    {
      assert s[i] != c;
    }
  }

  /** Lower-casing twice is lower-casing once. */
  lemma LowerIdempotent(s: string)
    ensures Lower(Lower(s)) == Lower(s)
  {
  }

  /** `p` occurs in `s` starting at position `i`. */
  predicate OccursAt(s: string, p: string, i: nat) {
    i + |p| <= |s| && s[i..i + |p|] == p
  }

  /**
   * Python's substring test `p in s`: a string contains itself and the
   * empty string, and nothing longer than itself.
   */
  predicate Contains(s: string, p: string)
    ensures p == s ==> Contains(s, p)
    ensures p == [] ==> Contains(s, p)
    ensures Contains(s, p) ==> |p| <= |s|
  {
    assert OccursAt(s, s, 0) && OccursAt(s, [], 0);
    exists i | 0 <= i <= |s| - |p| :: OccursAt(s, p, i)
  }

  /** A pattern holding a character that `s` lacks does not occur in `s`. */
  lemma AbsentCharNotContained(s: string, p: string, k: nat)
    requires k < |p| && p[k] !in s
    ensures !Contains(s, p)
  {
    forall i | 0 <= i <= |s| - |p|
      ensures !OccursAt(s, p, i)
    {
      assert p[k] != s[i + k];
    }
  }

  /**
   * Python's `<=` on strings: lexicographic by code point, a proper prefix
   * coming first.
   */
  predicate LessEq(a: string, b: string) {
    a == [] || (b != [] && (a[0] < b[0] || (a[0] == b[0] && LessEq(a[1..], b[1..]))))
  }

  /** The empty string comes first, and otherwise the first characters are in order. */
  lemma LessEqFirst(a: string, b: string)
    ensures LessEq([], b)
    ensures LessEq(a, b) && a != [] ==> b != [] && a[0] <= b[0]
  {
  }

  lemma {:induction false} LessEqReflexive(a: string)
    ensures LessEq(a, a)
  {
    if a != [] {
      LessEqReflexive(a[1..]);
    }
  }

  lemma {:induction false} LessEqTotal(a: string, b: string)
    ensures LessEq(a, b) || LessEq(b, a)
  {
    if a == b {
      LessEqReflexive(a);
    } else if a != [] && b != [] && a[0] == b[0] {
      LessEqTotal(a[1..], b[1..]);
    }
  }

  lemma {:induction false} LessEqAntisymmetric(a: string, b: string)
    requires LessEq(a, b) && LessEq(b, a)
    ensures a == b
  {
    if a != [] && b != [] {
      LessEqAntisymmetric(a[1..], b[1..]);
      assert a == [a[0]] + a[1..];
      assert b == [b[0]] + b[1..];
    }
  }

  /** A string comes before every string it is a prefix of. */
  lemma {:induction false} LessEqPrefix(a: string, t: string)
    ensures LessEq(a, a + t)
  {
    if a != [] {
      LessEqPrefix(a[1..], t);
      assert (a + t)[1..] == a[1..] + t;
    }
  }

  lemma {:induction false} LessEqTransitive(a: string, b: string, c: string)
    requires LessEq(a, b) && LessEq(b, c)
    ensures LessEq(a, c)
  {
    if a != [] && a[0] == b[0] && b[0] == c[0] {
      LessEqTransitive(a[1..], b[1..], c[1..]);
    }
  }

  /** A decimal digit character. */
  predicate IsDigit(c: char) {
    '0' <= c <= '9'
  }

  /** The number a string of digits denotes, read left to right. */
  function DigitsValue(s: string): int
  {
    if s == [] then 0
    else 10 * DigitsValue(s[..|s| - 1]) + (s[|s| - 1] as int - '0' as int)
  }

  /** Python's `str(n)` for a natural number: its decimal digits, without leading zeros. */
  function DecimalString(n: nat): (r: string)
    ensures r != [] && forall i | 0 <= i < |r| :: IsDigit(r[i])
    ensures r[0] == '0' ==> n == 0
    ensures DigitsValue(r) == n
  {
    var d := ('0' as int + n % 10) as char;
    if n < 10 then [d]
    else
      var p := DecimalString(n / 10);
      assert (p + [d])[..|p + [d]| - 1] == p;
      p + [d]
  }

  /**
   * `len(s.split())`: the number of maximal runs of non-whitespace
   * characters, counted by where each run starts.
   */
  function WordCount(s: string): (r: nat)
    ensures r <= |s|
  {
    if s == [] then 0
    else
      var starts := !IsSpace(s[|s| - 1]) && (|s| == 1 || IsSpace(s[|s| - 2]));
      WordCount(s[..|s| - 1]) + (if starts then 1 else 0)
  }

  /** Text has no words exactly when it is blank. */
  lemma {:induction false} WordCountZeroIffBlank(s: string)
    ensures WordCount(s) == 0 <==> IsBlank(s)
  {
    if s != [] {
      var t := s[..|s| - 1];
      WordCountZeroIffBlank(t);
      if IsBlank(s) {
        assert IsBlank(t) by {
          forall i | 0 <= i < |t| ensures IsSpace(t[i]) {
            assert t[i] == s[i];
          }
        }
      } else if IsBlank(t) {
        assert !IsSpace(s[|s| - 1]) by {
          if IsSpace(s[|s| - 1]) {
            forall i | 0 <= i < |s| ensures IsSpace(s[i]) {
              if i < |t| { assert s[i] == t[i]; }
            }
          }
        }
        assert |s| == 1 || IsSpace(s[|s| - 2]) by {
          if |s| > 1 { assert s[|s| - 2] == t[|t| - 1]; }
        }
      }
    }
  }
}
