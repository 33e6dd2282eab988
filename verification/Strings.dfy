/** The string operations of the Rust standard library that the modelled code uses. */
module Strings {

  /** `str::contains`. */
  predicate Contains(s: string, p: string) {
    p <= s || (s != "" && Contains(s[1..], p))
  }

  /** `str::ends_with`. */
  predicate EndsWith(s: string, p: string) {
    |p| <= |s| && s[|s| - |p|..] == p
  }

  /** `str::replace`: leftmost matches first, never looking again at text already produced. */
  function Replace(s: string, pat: string, to: string): string
    requires pat != ""
    decreases |s|
  {
    if s == "" then ""
    else if pat <= s then to + Replace(s[|pat|..], pat, to)
    else [s[0]] + Replace(s[1..], pat, to)
  }

  /** Text at which the pattern starts nowhere is copied unchanged. */
  lemma {:induction false} ReplaceSkips(x: string, rest: string, pat: string, to: string)
    requires pat != ""
    requires forall j :: 0 <= j < |x| ==> !(pat <= x[j..] + rest)
    ensures Replace(x + rest, pat, to) == x + Replace(rest, pat, to)
  {
    if x == "" {
      assert x + rest == rest;
    } else {
      assert x[0..] + rest == x + rest;
      assert (x + rest)[1..] == x[1..] + rest;
      forall j | 0 <= j < |x[1..]|
        ensures !(pat <= x[1..][j..] + rest)
      {
        assert x[1..][j..] == x[j + 1..];
      }
      ReplaceSkips(x[1..], rest, pat, to);
      assert [x[0]] + (x[1..] + Replace(rest, pat, to)) == x + Replace(rest, pat, to);
    }
  }

  /** A pattern starting with a character that the text lacks is not found in the text. */
  lemma {:induction false} ReplaceSkipsUnless(x: string, rest: string, pat: string, to: string)
    requires pat != "" && pat[0] !in x
    ensures Replace(x + rest, pat, to) == x + Replace(rest, pat, to)
  {
    forall j | 0 <= j < |x|
      ensures !(pat <= x[j..] + rest)
    {
      assert (x[j..] + rest)[0] == x[j];
    }
    ReplaceSkips(x, rest, pat, to);
  }

  // ---------------------------------------------------------------------------------------
  // What the operations mean, by positions
  // ---------------------------------------------------------------------------------------

  /** The pattern stands at position `i` of the text. */
  ghost predicate OccursAt(s: string, p: string, i: nat) { i + |p| <= |s| && s[i..i + |p|] == p }

  lemma {:induction false} ContainsIff(s: string, p: string)
    ensures Contains(s, p) <==> exists i: nat :: OccursAt(s, p, i)
  {
    if p <= s {
      assert OccursAt(s, p, 0);
    } else if s != "" {
      ContainsIff(s[1..], p);
      forall i: nat | i > 0
        ensures OccursAt(s, p, i) <==> OccursAt(s[1..], p, i - 1)
      {
        LaterOccurrence(s, p, i);
      }
      if i: nat :| OccursAt(s[1..], p, i) {
        assert OccursAt(s, p, i + 1);
      }
      assert !OccursAt(s, p, 0);
    }
  }

  lemma {:induction false} LaterOccurrence(s: string, p: string, i: nat)
    requires s != "" && i > 0
    ensures OccursAt(s, p, i) <==> OccursAt(s[1..], p, i - 1)
  {
    if i + |p| <= |s| {
      assert s[i..i + |p|] == s[1..][i - 1..i - 1 + |p|];
    }
  }

  lemma {:induction false} EndsWithIff(s: string, p: string)
    ensures EndsWith(s, p) <==> exists head :: s == head + p
  {
    if EndsWith(s, p) {
      assert s == s[..|s| - |p|] + p;
    }
  }

  /** `replace` copies a text without the pattern. */
  lemma {:induction false} ReplaceOfAbsent(s: string, pat: string, to: string)
    requires pat != "" && forall i: nat :: !OccursAt(s, pat, i)
    ensures Replace(s, pat, to) == s
  {
    forall j | 0 <= j < |s|
      ensures !(pat <= s[j..] + "")
    {
      assert s[j..] + "" == s[j..];
      if pat <= s[j..] {
        assert s[j..][..|pat|] == s[j..j + |pat|];
        assert OccursAt(s, pat, j);
      }
    }
    assert s + "" == s;
    ReplaceSkips(s, "", pat, to);
  }

  /** Otherwise it replaces the leftmost occurrence and goes on behind it, and behind it only. */
  lemma {:induction false} ReplaceOfFirst(s: string, pat: string, to: string, i: nat)
    requires pat != "" && OccursAt(s, pat, i) && forall j: nat :: j < i ==> !OccursAt(s, pat, j)
    ensures Replace(s, pat, to) == s[..i] + to + Replace(s[i + |pat|..], pat, to)
  {
    var x, rest := s[..i], s[i..];
    assert s == x + rest && pat <= rest && rest[|pat|..] == s[i + |pat|..];
    forall j | 0 <= j < |x|
      ensures !(pat <= x[j..] + rest)
    {
      assert x[j..] + rest == s[j..];
      if pat <= s[j..] {
        assert s[j..][..|pat|] == s[j..j + |pat|];
        assert OccursAt(s, pat, j);
      }
    }
    ReplaceSkips(x, rest, pat, to);
    assert x + (to + Replace(rest[|pat|..], pat, to)) == x + to + Replace(rest[|pat|..], pat, to);
  }

  predicate IsDigit(c: char) { '0' <= c <= '9' }

  /** The decimal form of a natural number. */
  function Decimal(n: nat): (s: string)
    ensures s != "" && forall i :: 0 <= i < |s| ==> IsDigit(s[i])
  {
    (if n < 10 then "" else Decimal(n / 10)) + ['0' + (n % 10) as char]
  }

  lemma {:induction false} LastDigit(n: nat)
    ensures var s := Decimal(n);
            s[|s| - 1] == '0' + (n % 10) as char && s[..|s| - 1] == if n < 10 then "" else Decimal(n / 10)
  {
  }

  /** The number that a digit sequence denotes. */
  function NumberOf(s: string): int {
    if s == "" then 0 else 10 * NumberOf(s[..|s| - 1]) + (s[|s| - 1] as int - '0' as int)
  }

  /** The decimal form denotes the number and has no leading zero. */
  lemma {:induction false} DecimalDenotes(n: nat)
    ensures NumberOf(Decimal(n)) == n && (n > 0 ==> Decimal(n)[0] != '0')
  {
    LastDigit(n);
    if n >= 10 {
      DecimalDenotes(n / 10);
      assert Decimal(n)[0] == Decimal(n)[..|Decimal(n)| - 1][0];
    }
  }

  lemma {:induction false} DecimalInjective(m: nat, n: nat)
    requires Decimal(m) == Decimal(n)
    ensures m == n
  {
    LastDigit(m);
    LastDigit(n);
    assert m % 10 == n % 10;
    if m >= 10 && n >= 10 {
      DecimalInjective(m / 10, n / 10);
    }
  }

  /** `[..].join(sep)`. */
  function Join(parts: seq<string>, sep: string): string {
    if parts == [] then "" else if |parts| == 1 then parts[0] else parts[0] + sep + Join(parts[1..], sep)
  }
}
