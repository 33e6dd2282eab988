/**
 * Parameter extraction from task text (src/cache/semantic_cache.rs). What the regular expressions
 * find is an arbitrary list of spans; which of them are claimed, and with what value, is proved.
 */
module ParameterExtraction {
  import opened Prelude
  import opened Strings

  datatype ParamType = Text | Number | Boolean | FilePath | Url | EmailAddress | DateTime | List(elem: ParamType)

  datatype Parameter = Parameter(name: string, paramType: ParamType)

  /** A match, and the part of it that is the value (the inside of the quotes for text). */
  datatype Match = Match(start: nat, end: nat, valueStart: nat, valueEnd: nat)

  type Span = (nat, nat)

  /** All matches of a type's pattern in a text, in the order in which the regex engine reports them. */
  type Finder = (string, ParamType) -> seq<Match>

  ghost predicate ValidFinder(find: Finder, text: string) {
    forall t, i :: 0 <= i < |find(text, t)| ==>
      var m := find(text, t)[i]; m.start <= m.valueStart <= m.valueEnd <= m.end <= |text|
  }

  predicate HasPattern(t: ParamType) { !t.Text? && !t.List? }

  predicate Overlap(a: Span, b: Span) { a.0 < b.1 && a.1 > b.0 }

  predicate OverlapsUsed(used: seq<Span>, start: nat, end: nat) {
    exists i :: 0 <= i < |used| && Overlap((start, end), used[i])
  }

  function FirstFree(matches: seq<Match>, used: seq<Span>): Option<Match> {
    if matches == [] then None
    else if !OverlapsUsed(used, matches[0].start, matches[0].end) then Some(matches[0])
    else FirstFree(matches[1..], used)
  }

  method ClaimFirst(matches: seq<Match>, used: seq<Span>) returns (r: Option<Match>)
    ensures r == FirstFree(matches, used)
  {
    for i := 0 to |matches|
      invariant FirstFree(matches, used) == FirstFree(matches[i..], used)
    {
      assert matches[i..][1..] == matches[i + 1..];
      if !OverlapsUsed(used, matches[i].start, matches[i].end) {
        return Some(matches[i]);
      }
    }
    return None;
  }

  // ---------------------------------------------------------------------------------------
  // Words
  // ---------------------------------------------------------------------------------------

  /** `char::is_whitespace`. */
  predicate IsWhitespace(c: char) {
    var n := c as int;
    9 <= n <= 13 || n == 0x20 || n == 0x85 || n == 0xA0 || n == 0x1680 || 0x2000 <= n <= 0x200A
    || n == 0x2028 || n == 0x2029 || n == 0x202F || n == 0x205F || n == 0x3000
  }

  function WordLength(s: string): (n: nat)
    ensures n <= |s|
  {
    if s == "" || IsWhitespace(s[0]) then 0 else 1 + WordLength(s[1..])
  }

  /** `str::split_whitespace`. */
  function SplitWhitespace(s: string): seq<string>
    decreases |s|
  {
    if s == "" then []
    else if IsWhitespace(s[0]) then SplitWhitespace(s[1..])
    else [s[..WordLength(s)]] + SplitWhitespace(s[WordLength(s)..])
  }

  predicate IsPlaceholderWord(w: string) { "{" <= w }

  /** The words of the text that are not fixed words of the template. */
  function NewWords(words: seq<string>, template: seq<string>): seq<string> {
    if words == [] then []
    else (if words[0] in template && !IsPlaceholderWord(words[0]) then [] else [words[0]]) + NewWords(words[1..], template)
  }

  // ---------------------------------------------------------------------------------------
  // The two passes
  // ---------------------------------------------------------------------------------------

  function Candidates(text: string, p: Parameter, find: Finder): seq<Match> {
    if p.paramType.List? then [] else find(text, p.paramType)
  }

  function SpanOf(m: Match): Span { (m.start, m.end) }

  /** The spans taken by the first `n` parameters. */
  function Taken(text: string, params: seq<Parameter>, find: Finder, n: nat): seq<Span>
    requires n <= |params|
    decreases n, 0
  {
    if n == 0 then []
    else
      var c := ClaimOf(text, params, find, n - 1);
      Taken(text, params, find, n - 1) + if c.Some? then [SpanOf(c.value)] else []
  }

  /** What parameter number `i` claims. */
  function ClaimOf(text: string, params: seq<Parameter>, find: Finder, i: nat): (c: Option<Match>)
    requires i < |params|
    decreases i, 1
  {
    FirstFree(Candidates(text, params[i], find), Taken(text, params, find, i))
  }

  function Slice(text: string, from: nat, to: nat): string {
    if from <= to <= |text| then text[from..to] else ""
  }

  function ValueOf(text: string, p: Parameter, m: Match): string {
    if p.paramType.Text? then Slice(text, m.valueStart, m.valueEnd) else Slice(text, m.start, m.end)
  }

  /** The map after the first pass over `n` parameters. */
  function Matched(text: string, params: seq<Parameter>, find: Finder, n: nat): map<string, string>
    requires n <= |params|
  {
    if n == 0 then map[]
    else
      var before, c := Matched(text, params, find, n - 1), ClaimOf(text, params, find, n - 1);
      if c.Some? then before[params[n - 1].name := ValueOf(text, params[n - 1], c.value)] else before
  }

  predicate LeftOver(text: string, params: seq<Parameter>, find: Finder, i: nat)
    requires i < |params|
  {
    params[i].paramType.Text? && ClaimOf(text, params, find, i).None?
  }

  /** The text parameters among the first `n` that found nothing. */
  function Unmatched(text: string, params: seq<Parameter>, find: Finder, n: nat): seq<Parameter>
    requires n <= |params|
  {
    if n == 0 then []
    else Unmatched(text, params, find, n - 1) + if LeftOver(text, params, find, n - 1) then [params[n - 1]] else []
  }

  function FillAll(base: map<string, string>, params: seq<Parameter>, value: string): map<string, string> {
    if params == [] then base else FillAll(base, params[..|params| - 1], value)[params[|params| - 1].name := value]
  }

  function Difference(text: string, original: Option<string>): seq<string> {
    if original.None? then [] else NewWords(SplitWhitespace(text), SplitWhitespace(original.value))
  }

  function Extraction(text: string, params: seq<Parameter>, original: Option<string>, find: Finder): map<string, string> {
    var matched, words := Matched(text, params, find, |params|), Difference(text, original);
    if words == [] then matched else FillAll(matched, Unmatched(text, params, find, |params|), Join(words, " "))
  }

  ghost predicate FreeAt(matches: seq<Match>, used: seq<Span>, i: nat) {
    i < |matches| && !OverlapsUsed(used, matches[i].start, matches[i].end)
  }

  /** The first match that overlaps nothing used, if there is one. */
  lemma {:induction false} FirstFreeIs(matches: seq<Match>, used: seq<Span>)
    ensures FirstFree(matches, used).None? ==> forall i: nat :: !FreeAt(matches, used, i)
    ensures FirstFree(matches, used).Some? ==>
      exists i: nat :: FreeAt(matches, used, i) && FirstFree(matches, used) == Some(matches[i])
                       && forall j: nat :: j < i ==> !FreeAt(matches, used, j)
  {
    if matches != [] && !FreeAt(matches, used, 0) {
      var rest := matches[1..];
      FirstFreeIs(rest, used);
      assert forall j: nat :: 1 <= j < |matches| ==> FreeAt(matches, used, j) == FreeAt(rest, used, j - 1);
      if FirstFree(rest, used).Some? {
        var i: nat :| FreeAt(rest, used, i) && FirstFree(rest, used) == Some(rest[i])
                      && forall j: nat :: j < i ==> !FreeAt(rest, used, j);
        assert FreeAt(matches, used, i + 1);
      }
    } else if matches != [] {
      assert FreeAt(matches, used, 0);
    }
  }

  lemma {:induction false} ClaimIsInRange(text: string, params: seq<Parameter>, find: Finder, i: nat)
    requires ValidFinder(find, text) && i < |params| && ClaimOf(text, params, find, i).Some?
    ensures var m := ClaimOf(text, params, find, i).value; m.start <= m.valueStart <= m.valueEnd <= m.end <= |text|
  {
    FirstFreeIs(Candidates(text, params[i], find), Taken(text, params, find, i));
  }

  /** The first pass. */
  method ClaimParameters(text: string, params: seq<Parameter>, find: Finder)
    returns (result: map<string, string>, unmatched: seq<Parameter>)
    requires ValidFinder(find, text)
    ensures result == Matched(text, params, find, |params|) && unmatched == Unmatched(text, params, find, |params|)
  {
    result, unmatched := map[], [];
    var used: seq<Span> := [];
    for i := 0 to |params|
      invariant result == Matched(text, params, find, i)
      invariant unmatched == Unmatched(text, params, find, i)
      invariant used == Taken(text, params, find, i)
    {
      var param := params[i];
      if param.paramType.List? {
        continue;
      }
      var m := ClaimFirst(find(text, param.paramType), used);
      assert m == ClaimOf(text, params, find, i);
      if m.Some? {
        ClaimIsInRange(text, params, find, i);
        used := used + [(m.value.start, m.value.end)];
        if HasPattern(param.paramType) {
          result := result[param.name := text[m.value.start..m.value.end]];
        } else {
          result := result[param.name := text[m.value.valueStart..m.value.valueEnd]];
        }
      } else if param.paramType.Text? {
        unmatched := unmatched + [param];
      }
    }
  }

  method ExtractParameters(text: string, params: seq<Parameter>, original: Option<string>, find: Finder)
    returns (result: map<string, string>)
    requires ValidFinder(find, text)
    ensures result == Extraction(text, params, original, find)
  {
    var unmatched;
    result, unmatched := ClaimParameters(text, params, find);
    if unmatched != [] && original.Some? {
      var newWords := NewWords(SplitWhitespace(text), SplitWhitespace(original.value));
      if newWords != [] {
        ghost var matched := result;
        for i := 0 to |unmatched|
          invariant result == FillAll(matched, unmatched[..i], Join(newWords, " "))
        {
          assert unmatched[..i + 1][..i] == unmatched[..i];
          result := result[unmatched[i].name := Join(newWords, " ")];
        }
        assert unmatched[..|unmatched|] == unmatched;
      }
    }
  }

  // ---------------------------------------------------------------------------------------
  // What the claims are
  // ---------------------------------------------------------------------------------------

  ghost predicate ClaimsSpan(text: string, params: seq<Parameter>, find: Finder, i: nat, span: Span) {
    i < |params| && ClaimOf(text, params, find, i).Some? && SpanOf(ClaimOf(text, params, find, i).value) == span
  }

  ghost predicate ClaimedBefore(text: string, params: seq<Parameter>, find: Finder, n: nat, span: Span) {
    exists i: nat :: i < n && ClaimsSpan(text, params, find, i, span)
  }

  lemma {:induction false} TakenAre(text: string, params: seq<Parameter>, find: Finder, n: nat, span: Span)
    requires n <= |params|
    ensures span in Taken(text, params, find, n) <==> ClaimedBefore(text, params, find, n, span)
  {
    if n > 0 {
      TakenAre(text, params, find, n - 1, span);
      assert ClaimedBefore(text, params, find, n, span)
        <==> ClaimedBefore(text, params, find, n - 1, span) || ClaimsSpan(text, params, find, n - 1, span);
    }
  }

  /** The span overlaps what an earlier parameter claimed. */
  ghost predicate Blocked(text: string, params: seq<Parameter>, find: Finder, i: nat, span: Span) {
    exists j: nat, other :: j < i && ClaimsSpan(text, params, find, j, other) && Overlap(span, other)
  }

  lemma {:induction false} BlockedIs(text: string, params: seq<Parameter>, find: Finder, i: nat, span: Span)
    requires i <= |params|
    ensures OverlapsUsed(Taken(text, params, find, i), span.0, span.1) <==> Blocked(text, params, find, i, span)
  {
    var taken := Taken(text, params, find, i);
    if OverlapsUsed(taken, span.0, span.1) {
      var k :| 0 <= k < |taken| && Overlap((span.0, span.1), taken[k]);
      TakenAre(text, params, find, i, taken[k]);
      assert span == (span.0, span.1);
    }
    if Blocked(text, params, find, i, span) {
      var j: nat, other :| j < i && ClaimsSpan(text, params, find, j, other) && Overlap(span, other);
      TakenAre(text, params, find, i, other);
      var k :| 0 <= k < |taken| && taken[k] == other;
    }
  }

  /**
   * A parameter claims the first of its matches that is disjoint from everything claimed by earlier
   * parameters, and claims nothing exactly when all its matches are blocked.
   */
  lemma {:induction false} ClaimIsLeftmostFree(text: string, params: seq<Parameter>, find: Finder, i: nat)
    requires i < |params|
    ensures var ms, c := Candidates(text, params[i], find), ClaimOf(text, params, find, i);
            && (c.None? <==> forall k :: 0 <= k < |ms| ==> Blocked(text, params, find, i, SpanOf(ms[k])))
            && (c.Some? ==> exists k :: 0 <= k < |ms| && c.value == ms[k] && !Blocked(text, params, find, i, SpanOf(ms[k]))
                                        && forall l :: 0 <= l < k ==> Blocked(text, params, find, i, SpanOf(ms[l])))
  {
    var ms, used := Candidates(text, params[i], find), Taken(text, params, find, i);
    FirstFreeIs(ms, used);
    forall k | 0 <= k < |ms|
      ensures FreeAt(ms, used, k) <==> !Blocked(text, params, find, i, SpanOf(ms[k]))
    {
      BlockedIs(text, params, find, i, SpanOf(ms[k]));
    }
  }

  ghost predicate Covers(text: string, params: seq<Parameter>, find: Finder, i: nat, p: nat) {
    i < |params| && ClaimOf(text, params, find, i).Some?
    && ClaimOf(text, params, find, i).value.start <= p < ClaimOf(text, params, find, i).value.end
  }

  /** Claims are disjoint: no position of the text belongs to two parameters. */
  lemma {:induction false} ClaimsAreDisjoint(text: string, params: seq<Parameter>, find: Finder, i: nat, j: nat, p: nat)
    requires Covers(text, params, find, i, p) && Covers(text, params, find, j, p)
    ensures i == j
  {
    if i < j {
      LaterClaimIsDisjoint(text, params, find, i, j);
    } else if j < i {
      LaterClaimIsDisjoint(text, params, find, j, i);
    }
  }

  lemma {:induction false} LaterClaimIsDisjoint(text: string, params: seq<Parameter>, find: Finder, i: nat, j: nat)
    requires i < j < |params| && ClaimOf(text, params, find, i).Some? && ClaimOf(text, params, find, j).Some?
    ensures !Overlap(SpanOf(ClaimOf(text, params, find, i).value), SpanOf(ClaimOf(text, params, find, j).value))
  {
    ClaimIsLeftmostFree(text, params, find, j);
    assert ClaimsSpan(text, params, find, i, SpanOf(ClaimOf(text, params, find, i).value));
  }

  // ---------------------------------------------------------------------------------------
  // What the values are
  // ---------------------------------------------------------------------------------------

  /** Parameter `i` has the name and claimed a match. */
  ghost predicate ClaimsFor(text: string, params: seq<Parameter>, find: Finder, i: nat, name: string) {
    i < |params| && params[i].name == name && ClaimOf(text, params, find, i).Some?
  }

  /** Parameter `i` is the last of the first `n` with the name and a claim. */
  ghost predicate LastClaimFor(text: string, params: seq<Parameter>, find: Finder, n: nat, i: nat, name: string) {
    i < n && ClaimsFor(text, params, find, i, name) && forall j: nat :: i < j < n ==> !ClaimsFor(text, params, find, j, name)
  }

  /** The first pass binds each name to the value of the last parameter of that name with a claim. */
  lemma {:induction false} MatchedValue(text: string, params: seq<Parameter>, find: Finder, n: nat, name: string)
    requires n <= |params|
    ensures var result := Matched(text, params, find, n);
            && (name in result <==> exists i: nat :: i < n && ClaimsFor(text, params, find, i, name))
            && forall i: nat :: LastClaimFor(text, params, find, n, i, name) ==>
                 name in result && result[name] == ValueOf(text, params[i], ClaimOf(text, params, find, i).value)
  {
    if n > 0 {
      MatchedValue(text, params, find, n - 1, name);
      forall i: nat | LastClaimFor(text, params, find, n, i, name) && i < n - 1
        ensures LastClaimFor(text, params, find, n - 1, i, name) && !ClaimsFor(text, params, find, n - 1, name)
      {
      }
      if ClaimsFor(text, params, find, n - 1, name) {
        assert name in Matched(text, params, find, n);
      }
    }
  }

  /** Some text parameter of the name found nothing in the first pass. */
  ghost predicate SomeLeftOver(text: string, params: seq<Parameter>, find: Finder, n: nat, name: string)
    requires n <= |params|
  {
    exists i: nat :: i < n && params[i].name == name && LeftOver(text, params, find, i)
  }

  ghost predicate Named(params: seq<Parameter>, name: string) {
    exists k :: 0 <= k < |params| && params[k].name == name
  }

  lemma {:induction false} LeftOversAre(text: string, params: seq<Parameter>, find: Finder, n: nat, name: string)
    requires n <= |params|
    ensures Named(Unmatched(text, params, find, n), name) <==> SomeLeftOver(text, params, find, n, name)
  {
    if n > 0 {
      var before := Unmatched(text, params, find, n - 1);
      LeftOversAre(text, params, find, n - 1, name);
      assert SomeLeftOver(text, params, find, n, name)
        <==> SomeLeftOver(text, params, find, n - 1, name) || (params[n - 1].name == name && LeftOver(text, params, find, n - 1));
      OneMoreNamed(before, params[n - 1], name);
      assert before + [] == before;
    }
  }

  lemma {:induction false} OneMoreNamed(params: seq<Parameter>, p: Parameter, name: string)
    ensures Named(params + [p], name) <==> Named(params, name) || p.name == name
  {
    var all := params + [p];
    assert all[|params|] == p;
    assert forall k :: 0 <= k < |params| ==> all[k] == params[k];
  }

  lemma {:induction false} FilledValue(base: map<string, string>, params: seq<Parameter>, value: string, name: string)
    ensures var named, r := Named(params, name), FillAll(base, params, value);
            && (name in r <==> named || name in base)
            && (name in r ==> r[name] == if named then value else base[name])
  {
    if params != [] {
      var n := |params| - 1;
      FilledValue(base, params[..n], value, name);
      OneMoreNamed(params[..n], params[n], name);
      assert params[..n] + [params[n]] == params;
    }
  }

  /**
   * What every name is bound to, for any schema: the words that are new against the original task, if
   * there are any and some text parameter of the name found nothing; otherwise exactly the text of the
   * span of the last parameter of the name with a claim; otherwise nothing.
   */
  lemma {:induction false} ExtractedValue(text: string, params: seq<Parameter>, original: Option<string>, find: Finder, name: string)
    ensures var words, r := Difference(text, original), Extraction(text, params, original, find);
            if words != [] && SomeLeftOver(text, params, find, |params|, name) then name in r && r[name] == Join(words, " ")
            else
              && (name in r <==> exists i: nat :: i < |params| && ClaimsFor(text, params, find, i, name))
              && forall i: nat :: LastClaimFor(text, params, find, |params|, i, name) ==>
                   name in r && r[name] == ValueOf(text, params[i], ClaimOf(text, params, find, i).value)
  {
    MatchedValue(text, params, find, |params|, name);
    LeftOversAre(text, params, find, |params|, name);
    FilledValue(Matched(text, params, find, |params|), Unmatched(text, params, find, |params|), Join(Difference(text, original), " "), name);
  }

  // ---------------------------------------------------------------------------------------
  // What overlaps, and what the words are
  // ---------------------------------------------------------------------------------------

  ghost predicate Inside(p: nat, span: Span) { span.0 <= p < span.1 }

  /** Spans overlap exactly if they share a position; an empty span overlaps what surrounds it. */
  lemma {:induction false} OverlapIff(a: Span, b: Span)
    requires a.0 <= a.1 && b.0 <= b.1
    ensures a.0 < a.1 && b.0 < b.1 ==> (Overlap(a, b) <==> exists p: nat :: Inside(p, a) && Inside(p, b))
    ensures a.0 == a.1 ==> (Overlap(a, b) <==> b.0 < a.0 < b.1)
    ensures b.0 == b.1 ==> (Overlap(a, b) <==> a.0 < b.0 < a.1)
  {
    var p := if a.0 >= b.0 then a.0 else b.0;
    assert a.0 < a.1 && b.0 < b.1 && Overlap(a, b) ==> Inside(p, a) && Inside(p, b);
  }

  /** The White_Space property of Unicode. */
  ghost predicate White(c: char) {
    c as int in {0x09, 0x0A, 0x0B, 0x0C, 0x0D, 0x20, 0x85, 0xA0, 0x1680, 0x2000, 0x2001, 0x2002, 0x2003, 0x2004, 0x2005, 0x2006,
                 0x2007, 0x2008, 0x2009, 0x200A, 0x2028, 0x2029, 0x202F, 0x205F, 0x3000}
  }

  lemma {:induction false} WhiteIff(c: char)
    ensures IsWhitespace(c) <==> White(c)
  {
  }

  ghost predicate AllWhite(s: string) { forall i :: 0 <= i < |s| ==> White(s[i]) }

  /** A nonempty text without white space. */
  ghost predicate IsWord(w: string) { w != "" && forall i :: 0 <= i < |w| ==> !White(w[i]) }

  /** The text is made of the words, in this order, with white space before, between and after them. */
  ghost predicate Spells(s: string, words: seq<string>)
    decreases |words|
  {
    if words == [] then AllWhite(s)
    else exists gap, rest :: StartsWithWord(s, gap, words[0], rest) && Spells(rest, words[1..])
  }

  /** A gap, a word, and a rest at which the word ends. */
  ghost predicate StartsWithWord(s: string, gap: string, w: string, rest: string) {
    s == gap + w + rest && AllWhite(gap) && IsWord(w) && (rest == "" || White(rest[0]))
  }

  lemma {:induction false} WordLengthIs(w: string, rest: string)
    requires (forall i :: 0 <= i < |w| ==> !White(w[i])) && (rest == "" || White(rest[0]))
    ensures WordLength(w + rest) == |w|
  {
    if w == "" {
      assert w + rest == rest;
      if rest != "" {
        WhiteIff(rest[0]);
      }
    } else {
      WhiteIff(w[0]);
      assert (w + rest)[1..] == w[1..] + rest;
      WordLengthIs(w[1..], rest);
    }
  }

  lemma {:induction false} SplitOfWord(gap: string, w: string, rest: string)
    requires AllWhite(gap) && IsWord(w) && (rest == "" || White(rest[0]))
    ensures SplitWhitespace(gap + w + rest) == [w] + SplitWhitespace(rest)
    decreases |gap|
  {
    var s := gap + w + rest;
    WhiteIff(s[0]);
    if gap == "" {
      assert s == w + rest;
      WordLengthIs(w, rest);
      assert s[..|w|] == w && s[|w|..] == rest;
    } else {
      assert s[1..] == gap[1..] + w + rest;
      SplitOfWord(gap[1..], w, rest);
    }
  }

  lemma {:induction false} SplitOfWhite(s: string)
    requires AllWhite(s)
    ensures SplitWhitespace(s) == []
  {
    if s != "" {
      WhiteIff(s[0]);
      SplitOfWhite(s[1..]);
    }
  }

  lemma {:induction false} WordLengthStops(s: string)
    ensures forall i :: 0 <= i < WordLength(s) ==> !White(s[i])
    ensures WordLength(s) < |s| ==> White(s[WordLength(s)])
  {
    if s != "" {
      WhiteIff(s[0]);
      if !IsWhitespace(s[0]) {
        WordLengthStops(s[1..]);
      }
    }
  }

  lemma {:induction false} SplitSpells(s: string)
    ensures Spells(s, SplitWhitespace(s))
    decreases |s|
  {
    if s != "" {
      WhiteIff(s[0]);
      if IsWhitespace(s[0]) {
        SplitSpells(s[1..]);
        WhiteFirst(s, SplitWhitespace(s[1..]));
      } else {
        SplitSpells(s[WordLength(s)..]);
        WordFirst(s, SplitWhitespace(s[WordLength(s)..]));
      }
    }
  }

  lemma {:induction false} WordFirst(s: string, words: seq<string>)
    requires s != "" && !IsWhitespace(s[0]) && Spells(s[WordLength(s)..], words)
    ensures Spells(s, [s[..WordLength(s)]] + words)
  {
    var n := WordLength(s);
    WordLengthStops(s);
    var all := [s[..n]] + words;
    assert all[1..] == words && s == "" + s[..n] + s[n..];
    assert StartsWithWord(s, "", all[0], s[n..]);
  }

  lemma {:induction false} WhiteFirst(s: string, words: seq<string>)
    requires s != "" && White(s[0]) && Spells(s[1..], words)
    ensures Spells(s, words)
  {
    assert s == [s[0]] + s[1..];
    if words != [] {
      var gap, rest :| StartsWithWord(s[1..], gap, words[0], rest) && Spells(rest, words[1..]);
      assert s == ([s[0]] + gap) + words[0] + rest;
      assert StartsWithWord(s, [s[0]] + gap, words[0], rest);
    }
  }

  /** The words of a text are exactly those that spell it: its maximal runs without white space. */
  lemma {:induction false} SplitIff(s: string, words: seq<string>)
    ensures SplitWhitespace(s) == words <==> Spells(s, words)
  {
    SplitSpells(s);
    if Spells(s, words) {
      SpellsOnce(s, words);
    }
  }

  lemma {:induction false} SpellsOnce(s: string, words: seq<string>)
    requires Spells(s, words)
    ensures SplitWhitespace(s) == words
    decreases |words|
  {
    if words == [] {
      SplitOfWhite(s);
    } else {
      var gap, rest :| StartsWithWord(s, gap, words[0], rest) && Spells(rest, words[1..]);
      SplitOfWord(gap, words[0], rest);
      SpellsOnce(rest, words[1..]);
    }
  }

  lemma {:induction false} SplitOfSpaced(w: string, rest: string)
    requires IsWord(w)
    ensures SplitWhitespace(w + " " + rest) == [w] + SplitWhitespace(rest)
  {
    var spaced := " " + rest;
    assert w + " " + rest == "" + w + spaced;
    SplitOfWord("", w, spaced);
    assert spaced[0] == ' ' && spaced[1..] == rest;
    WhiteIff(' ');
  }

  /** Words joined by a space are read back. */
  lemma {:induction false} JoinedWordsAreRead(words: seq<string>)
    requires forall i :: 0 <= i < |words| ==> IsWord(words[i])
    ensures SplitWhitespace(Join(words, " ")) == words
  {
    if |words| == 1 {
      assert "" + words[0] + "" == words[0];
      SplitOfWord("", words[0], "");
    } else if words != [] {
      JoinedWordsAreRead(words[1..]);
      SplitOfSpaced(words[0], Join(words[1..], " "));
    }
  }

  /** A word of the task is new unless the original task has it as a fixed word; order and repetition are kept. */
  lemma {:induction false} NewWordsOfOne(w: string, template: seq<string>)
    ensures NewWords([w], template) == if w in template && (w == "" || w[0] != '{') then [] else [w]
  {
    assert [w][1..] == [] && [w] + [] == [w];
  }

  lemma {:induction false} NewWordsOfConcat(a: seq<string>, b: seq<string>, template: seq<string>)
    ensures NewWords(a + b, template) == NewWords(a, template) + NewWords(b, template)
  {
    if a == [] {
      assert a + b == b;
    } else {
      NewWordsOfConcat(a[1..], b, template);
      assert (a + b)[1..] == a[1..] + b;
      Regroup(if a[0] in template && !IsPlaceholderWord(a[0]) then [] else [a[0]], NewWords(a[1..], template), NewWords(b, template));
    }
  }

  /** The new words, by position: exactly the words that are no fixed words of the original task. */
  lemma {:induction false} NewWordsAre(words: seq<string>, template: seq<string>, w: string)
    ensures multiset(NewWords(words, template))[w] == if w in template && (w == "" || w[0] != '{') then 0 else multiset(words)[w]
  {
    if words != [] {
      NewWordsAre(words[1..], template, w);
      assert words == [words[0]] + words[1..];
      NewWordsOfConcat([words[0]], words[1..], template);
      NewWordsOfOne(words[0], template);
    }
  }

  /** A claimed value is the text of the span, without the quotes for a text parameter; a list parameter claims nothing. */
  lemma {:induction false} ClaimedText(text: string, params: seq<Parameter>, find: Finder, i: nat)
    requires ValidFinder(find, text) && i < |params|
    ensures params[i].paramType.List? ==> ClaimOf(text, params, find, i).None?
    ensures ClaimOf(text, params, find, i).Some? ==>
      var m := ClaimOf(text, params, find, i).value;
      && m in find(text, params[i].paramType)
      && m.start <= m.valueStart <= m.valueEnd <= m.end <= |text|
      && ValueOf(text, params[i], m) == if params[i].paramType.Text? then text[m.valueStart..m.valueEnd] else text[m.start..m.end]
  {
    FirstFreeIs(Candidates(text, params[i], find), Taken(text, params, find, i));
    if ClaimOf(text, params, find, i).Some? {
      ClaimIsInRange(text, params, find, i);
    }
  }
}
