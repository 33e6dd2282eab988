/**
 * Template substitution in step arguments (src/chain/dsl.rs): sanitized values, one textual
 * `replace` per map entry, in whatever order the two hash maps happen to be iterated.
 */
module Template {
  import opened Prelude
  import opened Strings

  // ---------------------------------------------------------------------------------------
  // Sanitizing values
  // ---------------------------------------------------------------------------------------

  predicate IsBrace(c: char) { c == '{' || c == '}' }

  ghost predicate BraceFree(s: string) {
    forall i :: 0 <= i < |s| ==> !IsBrace(s[i])
  }

  /** `char::is_control`: the Unicode category Cc. */
  predicate IsControl(c: char) {
    (c as int) < 0x20 || 0x7F <= (c as int) <= 0x9F
  }

  predicate Printable(c: char) { !IsControl(c) || c == '\n' || c == '\t' }

  /** The `chars().filter(..)` at the end of the sanitizer. */
  function KeepPrintable(s: string): string {
    if s == "" then "" else (if Printable(s[0]) then [s[0]] else "") + KeepPrintable(s[1..])
  }

  function SanitizeTemplateValue(value: string): string {
    KeepPrintable(Replace(Replace(Replace(Replace(value, "{{", ""), "}}", ""), "{", ""), "}", ""))
  }

  /** What the four replacements and the filter amount to: one pass over the characters. */
  function Strip(s: string): string {
    if s == "" then ""
    else (if Printable(s[0]) && !IsBrace(s[0]) then [s[0]] else "") + Strip(s[1..])
  }

  lemma {:induction false} StripCons(c: char, s: string)
    ensures Strip([c] + s) == if Printable(c) && !IsBrace(c) then [c] + Strip(s) else Strip(s)
  {
    assert ([c] + s)[1..] == s;
    Prepended("", Strip(s));
  }

  lemma {:induction false} StripConcat(s: string, t: string)
    ensures Strip(s + t) == Strip(s) + Strip(t)
  {
    if s == "" {
      assert s + t == t;
      Prepended("", Strip(t));
    } else {
      StripConcat(s[1..], t);
      assert (s + t)[1..] == s[1..] + t;
      Regroup(if Printable(s[0]) && !IsBrace(s[0]) then [s[0]] else "", Strip(s[1..]), Strip(t));
    }
  }

  lemma {:induction false} StripOfBraces(s: string)
    requires forall i :: 0 <= i < |s| ==> IsBrace(s[i])
    ensures Strip(s) == ""
  {
    if s != "" {
      StripOfBraces(s[1..]);
    }
  }

  /** Deleting a brace pattern is invisible to the single pass. */
  lemma {:induction false} StripAfterReplace(s: string, pat: string)
    requires pat != "" && forall i :: 0 <= i < |pat| ==> IsBrace(pat[i])
    ensures Strip(Replace(s, pat, "")) == Strip(s)
    decreases |s|
  {
    if s != "" {
      if pat <= s {
        StripAfterReplace(s[|pat|..], pat);
        StripConcat(pat, s[|pat|..]);
        StripOfBraces(pat);
        assert s == pat + s[|pat|..];
        Prepended("", Replace(s[|pat|..], pat, ""));
        Prepended("", Strip(s[|pat|..]));
      } else {
        StripAfterReplace(s[1..], pat);
        StripCons(s[0], s[1..]);
        StripCons(s[0], Replace(s[1..], pat, ""));
        assert [s[0]] + s[1..] == s;
      }
    }
  }

  lemma {:induction false} ReplaceDeletesChar(s: string, c: char, d: char)
    requires d !in s || d == c
    ensures d !in Replace(s, [c], "")
  {
    if s != "" {
      ReplaceDeletesChar(s[1..], c, d);
      assert s[0] == c ==> s[..1] == [c];
      assert "" + Replace(s[1..], [c], "") == Replace(s[1..], [c], "");
    }
  }

  lemma {:induction false} KeepIsStripWithoutBraces(s: string)
    requires '{' !in s && '}' !in s
    ensures KeepPrintable(s) == Strip(s)
  {
    if s != "" {
      assert s[0] in s;
      KeepIsStripWithoutBraces(s[1..]);
    }
  }

  lemma {:induction false} StripIsClean(s: string)
    ensures BraceFree(Strip(s))
    ensures forall i :: 0 <= i < |Strip(s)| ==> Printable(Strip(s)[i])
  {
    if s != "" {
      StripIsClean(s[1..]);
    }
  }

  /** The sanitizer is a single-pass filter, so its result holds no brace and no control character. */
  lemma {:induction false} SanitizeIsStrip(value: string)
    ensures SanitizeTemplateValue(value) == Strip(value)
    ensures BraceFree(SanitizeTemplateValue(value))
    ensures forall c :: c in SanitizeTemplateValue(value) ==> Printable(c)
  {
    var a := Replace(value, "{{", "");
    var b := Replace(a, "}}", "");
    var c := Replace(b, "{", "");
    var d := Replace(c, "}", "");
    StripAfterReplace(value, "{{");
    StripAfterReplace(a, "}}");
    StripAfterReplace(b, "{");
    StripAfterReplace(c, "}");
    ReplaceDeletesChar(b, '{', '{');
    ReplaceDeletesChar(c, '}', '{');
    ReplaceDeletesChar(c, '}', '}');
    KeepIsStripWithoutBraces(d);
    StripIsClean(value);
  }

  /** Values that are already clean pass through unchanged. */
  lemma {:induction false} StripKeepsClean(s: string)
    requires BraceFree(s) && forall i :: 0 <= i < |s| ==> Printable(s[i])
    ensures Strip(s) == s
  {
    if s != "" {
      StripKeepsClean(s[1..]);
    }
  }

  /** The characters that a value may hold: newline, tab, and everything visible from the space on, except braces and the C1 controls. */
  ghost predicate Survives(c: char) {
    c != '{' && c != '}'
    && (c as int == 0x0A || c as int == 0x09 || 0x20 <= c as int <= 0x7E || c as int >= 0xA0)
  }

  /** `indices` are the positions of the surviving characters, in order. */
  ghost predicate AreSurvivors(indices: seq<nat>, value: string) {
    && (forall a, b :: 0 <= a < b < |indices| ==> indices[a] < indices[b])
    && (forall i: nat :: i in indices <==> i < |value| && Survives(value[i]))
  }

  ghost predicate PicksFrom(text: string, value: string, indices: seq<nat>) {
    |text| == |indices| && forall k :: 0 <= k < |indices| ==> indices[k] < |value| && text[k] == value[indices[k]]
  }

  lemma {:induction false} StripOfOne(c: char)
    ensures Strip([c]) == if Survives(c) then [c] else ""
  {
    assert [c][1..] == "" && Strip("") == "";
    StripCons(c, "");
    assert [c] + "" == [c];
  }

  lemma {:induction false} StripOfLast(value: string)
    requires value != ""
    ensures var n := |value| - 1;
            Strip(value) == if Survives(value[n]) then Strip(value[..n]) + [value[n]] else Strip(value[..n])
  {
    var n := |value| - 1;
    assert value == value[..n] + [value[n]];
    StripConcat(value[..n], [value[n]]);
    StripOfOne(value[n]);
    assert Strip(value[..n]) + "" == Strip(value[..n]);
  }

  lemma {:induction false} OneMoreCharacter(value: string, few: seq<nat>, text: string)
    requires value != "" && AreSurvivors(few, value[..|value| - 1]) && PicksFrom(text, value[..|value| - 1], few)
    ensures var n := |value| - 1;
            if Survives(value[n]) then AreSurvivors(few + [n], value) && PicksFrom(text + [value[n]], value, few + [n])
            else AreSurvivors(few, value) && PicksFrom(text, value, few)
  {
    var n := |value| - 1;
    forall a | 0 <= a < |few|
      ensures few[a] < n
    {
      assert few[a] in few;
    }
  }

  /** The sanitized text is the subsequence of exactly the surviving characters. */
  lemma {:induction false} SanitizedIsSubsequence(value: string) returns (indices: seq<nat>)
    ensures AreSurvivors(indices, value) && PicksFrom(SanitizeTemplateValue(value), value, indices)
  {
    SanitizeIsStrip(value);
    indices := [];
    if value != "" {
      var n := |value| - 1;
      var few := SanitizedIsSubsequence(value[..n]);
      SanitizeIsStrip(value[..n]);
      StripOfLast(value);
      OneMoreCharacter(value, few, Strip(value[..n]));
      indices := if Survives(value[n]) then few + [n] else few;
    }
  }

  /** A text of surviving characters is not changed. */
  lemma {:induction false} SurvivorsAreKept(value: string)
    requires forall i :: 0 <= i < |value| ==> Survives(value[i])
    ensures SanitizeTemplateValue(value) == value
  {
    SanitizeIsStrip(value);
    StripKeepsClean(value);
  }

  // ---------------------------------------------------------------------------------------
  // The resolver
  // ---------------------------------------------------------------------------------------

  function Placeholder(name: string): (p: string) { "{{" + name + "}}" }

  /** Replaces the placeholder of each listed key in turn. */
  function ReplaceAll(v: string, keys: seq<string>, values: map<string, string>): string
    requires forall k :: k in keys ==> k in values
  {
    if keys == [] then v
    else
      var last := |keys| - 1;
      Replace(ReplaceAll(v, keys[..last], values), Placeholder(keys[last]),
              SanitizeTemplateValue(values[keys[last]]))
  }

  /** One argument value, resolved with the maps iterated in the given orders. */
  function ResolveInOrder(v: string, params: map<string, string>, outputs: map<string, string>,
                          paramOrder: seq<string>, outputOrder: seq<string>): string
    requires forall k :: k in paramOrder ==> k in params
    requires forall k :: k in outputOrder ==> k in outputs
  {
    ReplaceAll(ReplaceAll(v, paramOrder, params), outputOrder, outputs)
  }

  /** `r` is what some iteration order of the two maps makes of `v`. */
  ghost predicate ResolvesTo(v: string, params: map<string, string>, outputs: map<string, string>, r: string) {
    exists po, oo :: Enumerates(po, params.Keys) && Enumerates(oo, outputs.Keys)
                     && r == ResolveInOrder(v, params, outputs, po, oo)
  }

  ghost predicate ArgsResolveTo(args: map<string, string>, params: map<string, string>,
                                outputs: map<string, string>, resolved: map<string, string>) {
    resolved.Keys == args.Keys && forall k :: k in args ==> ResolvesTo(args[k], params, outputs, resolved[k])
  }

  /** The inner loop over one map; `:|` stands for the hash map's unspecified iteration order. */
  method ReplaceEach(v: string, values: map<string, string>) returns (r: string, ghost order: seq<string>)
    ensures Enumerates(order, values.Keys) && r == ReplaceAll(v, order, values)
  {
    r, order := v, [];
    var todo := values.Keys;
    while todo != {}
      invariant todo <= values.Keys
      invariant Enumerates(order, values.Keys - todo)
      invariant r == ReplaceAll(v, order, values)
    {
      var name :| name in todo;
      ExtendEnumeration(order, values.Keys - todo, name);
      r := Replace(r, Placeholder(name), SanitizeTemplateValue(values[name]));
      assert (order + [name])[..|order|] == order;
      assert values.Keys - (todo - {name}) == (values.Keys - todo) + {name};
      order, todo := order + [name], todo - {name};
    }
    assert values.Keys - todo == values.Keys;
  }

  method ResolveArgs(args: map<string, string>, params: map<string, string>, stepOutputs: map<string, string>)
    returns (resolved: map<string, string>)
    ensures ArgsResolveTo(args, params, stepOutputs, resolved)
  {
    resolved := map[];
    var todo := args.Keys;
    while todo != {}
      invariant todo <= args.Keys && resolved.Keys == args.Keys - todo
      invariant forall k :: k in resolved ==> ResolvesTo(args[k], params, stepOutputs, resolved[k])
    {
      var k :| k in todo;
      var afterParams, po := ReplaceEach(args[k], params);
      var value, oo := ReplaceEach(afterParams, stepOutputs);
      assert value == ResolveInOrder(args[k], params, stepOutputs, po, oo);
      resolved, todo := resolved[k := value], todo - {k};
    }
  }

  // ---------------------------------------------------------------------------------------
  // The meaning of a template: all placeholders at once
  // ---------------------------------------------------------------------------------------

  datatype Token = Lit(c: char) | Hole(name: string)

  /** Length of the longest prefix without braces. */
  function NameLength(s: string): (n: nat)
    ensures n <= |s| && BraceFree(s[..n]) && (n < |s| ==> IsBrace(s[n]))
  {
    if s == "" || IsBrace(s[0]) then 0
    else
      var n := 1 + NameLength(s[1..]);
      assert s[..n] == [s[0]] + s[1..][..n - 1];
      n
  }

  /** A name followed by the closing braces. */
  predicate Closes(s: string) { "}}" <= s[NameLength(s)..] }

  /** A placeholder with a brace-free (possibly empty) name starts here. */
  predicate OpensHole(s: string) { "{{" <= s && Closes(s[2..]) }

  function HoleName(s: string): (name: string)
    requires OpensHole(s)
    ensures BraceFree(name) && Placeholder(name) <= s
  {
    var name := s[2..][..NameLength(s[2..])];
    assert s == "{{" + name + s[2..][|name|..];
    name
  }

  predicate HasHole(s: string) { s != "" && (OpensHole(s) || HasHole(s[1..])) }

  function Tokenize(s: string): seq<Token>
    decreases |s|
  {
    if s == "" then []
    else if OpensHole(s) then [Hole(HoleName(s))] + Tokenize(s[|HoleName(s)| + 4..])
    else [Lit(s[0])] + Tokenize(s[1..])
  }

  /** The literal text that is left when every placeholder is deleted. */
  function Skeleton(ts: seq<Token>): string {
    if ts == [] then "" else (if ts[0].Lit? then [ts[0].c] else "") + Skeleton(ts[1..])
  }

  /** Deleting the placeholders does not push literal braces together into a new one. */
  predicate Flat(v: string) { !HasHole(Skeleton(Tokenize(v))) }

  /** Simultaneous substitution; names without a value stay as they are written. */
  function Fill(ts: seq<Token>, values: map<string, string>): string {
    if ts == [] then ""
    else
      (match ts[0]
       case Lit(c) => [c]
       case Hole(n) => if n in values then values[n] else Placeholder(n))
      + Fill(ts[1..], values)
  }

  /** Parameters shadow step outputs. */
  function Bindings(params: map<string, string>, outputs: map<string, string>): map<string, string> {
    map k | k in params.Keys + outputs.Keys ::
      SanitizeTemplateValue(if k in params then params[k] else outputs[k])
  }

  function Substitute(v: string, params: map<string, string>, outputs: map<string, string>): string {
    Fill(Tokenize(v), Bindings(params, outputs))
  }

  ghost predicate BraceFreeKeys(m: map<string, string>) {
    forall k :: k in m ==> BraceFree(k)
  }

  // ---------------------------------------------------------------------------------------
  // Flat templates: replacement in any order is simultaneous substitution
  // ---------------------------------------------------------------------------------------

  ghost predicate CleanTokens(ts: seq<Token>) {
    && (forall i :: 0 <= i < |ts| && ts[i].Hole? ==> BraceFree(ts[i].name))
    && !HasHole(Skeleton(ts))
  }

  ghost predicate CleanValues(values: map<string, string>) {
    forall k :: k in values ==> BraceFree(values[k])
  }

  lemma {:induction false} TokenizeNames(s: string)
    ensures forall i :: 0 <= i < |Tokenize(s)| && Tokenize(s)[i].Hole? ==> BraceFree(Tokenize(s)[i].name)
    decreases |s|
  {
    if s != "" {
      if OpensHole(s) {
        TokenizeNames(s[|HoleName(s)| + 4..]);
      } else {
        TokenizeNames(s[1..]);
      }
    }
  }

  lemma {:induction false} SplitHole(s: string)
    requires OpensHole(s)
    ensures s == Placeholder(HoleName(s)) + s[|HoleName(s)| + 4..]
  {
    assert |Placeholder(HoleName(s))| == |HoleName(s)| + 4;
  }

  lemma {:induction false} FillNothing(s: string)
    ensures Fill(Tokenize(s), map[]) == s
    decreases |s|
  {
    if s != "" {
      if OpensHole(s) {
        var n, rest := HoleName(s), s[|HoleName(s)| + 4..];
        SplitHole(s);
        FillNothing(rest);
        FillCons(Hole(n), Tokenize(rest), map[]);
      } else {
        FillNothing(s[1..]);
        FillCons(Lit(s[0]), Tokenize(s[1..]), map[]);
      }
    }
  }

  lemma {:induction false} FillCons(t: Token, ts: seq<Token>, values: map<string, string>)
    ensures Fill([t] + ts, values) == Fill([t], values) + Fill(ts, values)
    ensures Fill([t], map[]) == match t case Lit(c) => [c] case Hole(n) => Placeholder(n)
  {
    assert ([t] + ts)[1..] == ts;
  }

  lemma {:induction false} ClosesIff(s: string, name: string)
    requires BraceFree(name) && name + "}}" <= s
    ensures Closes(s) && NameLength(s) == |name|
  {
    var n := NameLength(s);
    assert s[|name|] == '}' && s[|name| + 1] == '}' by {
      assert (name + "}}")[|name|] == '}' && (name + "}}")[|name| + 1] == '}';
    }
    assert s[n..][0] == '}' && s[n..][1] == '}';
  }

  /** A filled text starting with `name}}` has a skeleton that closes a placeholder. */
  lemma {:induction false} FilledCloses(ts: seq<Token>, values: map<string, string>, name: string)
    requires CleanValues(values) && BraceFree(name) && name + "}}" <= Fill(ts, values)
    ensures Closes(Skeleton(ts))
  {
    var f, q := Fill(ts, values), name + "}}";
    assert f[|name|] == q[|name|] == '}' && f[|name| + 1] == q[|name| + 1] == '}';
    assert f[0] == q[0] == if name == "" then '}' else name[0];
    var rest := Fill(ts[1..], values);
    match ts[0]
    case Lit(c) =>
      assert f[1..] == rest && f[0] == c;
      assert Skeleton(ts) == [c] + Skeleton(ts[1..]);
      if name == "" {
        FilledBrace(ts[1..], values);
        ClosesIff(Skeleton(ts), "");
      } else {
        assert q[1..] == name[1..] + "}}";
        FilledCloses(ts[1..], values, name[1..]);
        ClosesLonger(c, Skeleton(ts[1..]));
      }
    case Hole(n) =>
      Prepended("", Skeleton(ts[1..]));
      BraceFreeHead(values[n], rest, name);
      FilledCloses(ts[1..], values, name[|values[n]|..]);
  }

  lemma {:induction false} ClosesLonger(c: char, s: string)
    requires !IsBrace(c) && Closes(s)
    ensures Closes([c] + s)
  {
    assert ([c] + s)[1..] == s;
    assert ([c] + s)[1 + NameLength(s)..] == s[NameLength(s)..];
  }

  /** Brace-free text in front of `name}}` belongs to the name. */
  lemma {:induction false} BraceFreeHead(x: string, rest: string, name: string)
    requires BraceFree(x) && BraceFree(name) && name + "}}" <= x + rest
    ensures |x| <= |name| && name[|x|..] + "}}" <= rest
  {
    var f, q := x + rest, name + "}}";
    assert f[|name|] == q[|name|] == '}';
    assert f[|x|..] == rest && name[|x|..] + "}}" == q[|x|..];
  }

  /** A filled text starting with a closing brace has a skeleton starting with one. */
  lemma {:induction false} FilledBrace(ts: seq<Token>, values: map<string, string>)
    requires CleanValues(values) && "}" <= Fill(ts, values)
    ensures "}" <= Skeleton(ts)
  {
    var f := Fill(ts, values);
    assert f[0] == '}';
    if ts[0].Hole? {
      var n := ts[0].name;
      assert f == Fill(ts[1..], values) && Skeleton(ts) == Skeleton(ts[1..]);
      FilledBrace(ts[1..], values);
    }
  }

  /** A filled text starting with `{name}}` has a skeleton starting with a brace, then closing. */
  lemma {:induction false} FilledOpens(ts: seq<Token>, values: map<string, string>, name: string)
    requires CleanValues(values) && BraceFree(name) && "{" + name + "}}" <= Fill(ts, values)
    ensures "{" <= Skeleton(ts) && Closes(Skeleton(ts)[1..])
  {
    var f, p := Fill(ts, values), "{" + name + "}}";
    assert f[0] == p[0] == '{';
    assert f[1] == p[1] == if name == "" then '}' else name[0];
    var rest := Fill(ts[1..], values);
    match ts[0]
    case Lit(c) =>
      assert f[1..] == rest && p[1..] == name + "}}";
      FilledCloses(ts[1..], values, name);
      assert Skeleton(ts)[1..] == Skeleton(ts[1..]);
    case Hole(n) =>
      assert f == rest && Skeleton(ts) == Skeleton(ts[1..]);
      FilledOpens(ts[1..], values, name);
  }

  /** In a clean token list no literal character starts a placeholder, whatever has been filled in. */
  lemma {:induction false} LiteralStartsNothing(ts: seq<Token>, values: map<string, string>, name: string)
    requires CleanTokens(ts) && CleanValues(values) && BraceFree(name)
    requires ts != [] && ts[0].Lit?
    ensures !(Placeholder(name) <= Fill(ts, values))
  {
    var f, p, s := Fill(ts, values), Placeholder(name), Skeleton(ts);
    assert p[0] == '{' && p[1..] == "{" + name + "}}";
    assert f[0] == ts[0].c == s[0] && f[1..] == Fill(ts[1..], values) && s[1..] == Skeleton(ts[1..]);
    if p <= f {
      FilledOpens(ts[1..], values, name);
      SecondBraceOpens(s);
      assert false;
    }
  }

  lemma {:induction false} SecondBraceOpens(s: string)
    requires "{" <= s && "{" <= s[1..] && Closes(s[1..][1..])
    ensures HasHole(s)
  {
    assert s[1..][1..] == s[2..] && s == "{{" + s[2..];
  }

  lemma {:induction false} CleanTail(ts: seq<Token>)
    requires CleanTokens(ts) && ts != []
    ensures CleanTokens(ts[1..])
  {
    if ts[0].Lit? {
      assert Skeleton(ts)[1..] == Skeleton(ts[1..]);
    } else {
      assert Skeleton(ts) == Skeleton(ts[1..]);
    }
  }

  lemma {:induction false} SameName(s: string, n: string, k: string)
    requires BraceFree(n) && BraceFree(k) && n + "}}" <= s && k + "}}" <= s
    ensures n == k
  {
    ClosesIff(s, n);
    ClosesIff(s, k);
    assert n == (n + "}}")[..|n|] == s[..|n|];
    assert k == (k + "}}")[..|k|] == s[..|k|];
  }

  /** Inside a placeholder of another name, the pattern starts nowhere. */
  lemma {:induction false} OtherHoleSkipped(n: string, k: string, rest: string, w: string)
    requires BraceFree(n) && BraceFree(k) && n != k
    ensures Replace(Placeholder(n) + rest, Placeholder(k), w) == Placeholder(n) + Replace(rest, Placeholder(k), w)
  {
    var x, p := Placeholder(n), Placeholder(k);
    assert p[0] == p[1] == '{';
    forall j | 0 <= j < |x|
      ensures !(p <= x[j..] + rest)
    {
      var y := x[j..] + rest;
      assert y[0] == x[j] && (j + 1 < |x| ==> y[1] == x[j + 1]);
      if j == 0 {
        assert y == "{{" + (n + "}}" + rest) && p == "{{" + (k + "}}");
        assert y[2..] == (n + "}}") + rest;
        if p <= y {
          assert k + "}}" <= y[2..];
          SameName(y[2..], n, k);
          assert false;
        }
      }
    }
    ReplaceSkips(x, rest, p, w);
  }

  /** One `replace` call fills exactly the placeholders of one more name. */
  lemma {:induction false} ReplaceFillsOneName(ts: seq<Token>, values: map<string, string>, k: string, w: string)
    requires CleanTokens(ts) && CleanValues(values) && BraceFree(k)
    ensures Replace(Fill(ts, values), Placeholder(k), w)
         == Fill(ts, if k in values then values else values[k := w])
  {
    var next := if k in values then values else values[k := w];
    var p := Placeholder(k);
    if ts != [] {
      var f, rest := Fill(ts, values), Fill(ts[1..], values);
      CleanTail(ts);
      ReplaceFillsOneName(ts[1..], values, k, w);
      match ts[0]
      case Lit(c) =>
        LiteralStartsNothing(ts, values, k);
        assert f[1..] == rest;
      case Hole(n) =>
        if n in values {
          assert '{' !in values[n];
          ReplaceSkipsUnless(values[n], rest, p, w);
        } else if n == k {
          assert p <= f && f[|p|..] == rest;
        } else {
          OtherHoleSkipped(n, k, rest, w);
        }
    }
  }

  /** One `replace` call on the template itself fills exactly the placeholders of its name, whatever the template and the value. */
  lemma {:induction false} ReplaceFillsTemplate(v: string, k: string, w: string)
    requires BraceFree(k)
    ensures Replace(v, Placeholder(k), w) == Fill(Tokenize(v), map[k := w])
    decreases |v|
  {
    var p := Placeholder(k);
    if v != "" {
      if OpensHole(v) {
        var n, rest := HoleName(v), v[|HoleName(v)| + 4..];
        SplitHole(v);
        ReplaceFillsTemplate(rest, k, w);
        FillCons(Hole(n), Tokenize(rest), map[k := w]);
        if n == k {
          assert p <= v && v[|p|..] == rest;
        } else {
          OtherHoleSkipped(n, k, rest, w);
        }
      } else {
        NoPlaceholderHere(v, k);
        ReplaceFillsTemplate(v[1..], k, w);
        FillCons(Lit(v[0]), Tokenize(v[1..]), map[k := w]);
      }
    }
  }

  lemma {:induction false} NoPlaceholderHere(v: string, k: string)
    requires BraceFree(k) && !OpensHole(v)
    ensures !(Placeholder(k) <= v)
  {
    if Placeholder(k) <= v {
      var p := Placeholder(k);
      assert p[0] == '{' && p[1] == '{' && p[2..] == k + "}}" && v[..|p|] == p;
      assert "{{" <= v && k + "}}" <= v[2..];
      ClosesIff(v[2..], k);
    }
  }

  /** Bindings of names that the template does not use do not matter. */
  lemma {:induction false} FillWithUsed(ts: seq<Token>, a: map<string, string>, b: map<string, string>)
    requires forall n :: n in HoleNames(ts) ==> AgreeAt(a, b, n)
    ensures Fill(ts, a) == Fill(ts, b)
  {
    if ts != [] {
      assert forall t :: t in ts[1..] ==> t in ts;
      FillWithUsed(ts[1..], a, b);
      if ts[0].Hole? {
        assert ts[0] in ts && ts[0].name in HoleNames(ts);
        assert AgreeAt(a, b, ts[0].name);
      }
    }
  }

  /** The value of a used name is found in the filled text. */
  lemma {:induction false} FillContains(ts: seq<Token>, values: map<string, string>, n: string)
    requires n in HoleNames(ts) && n in values
    ensures Contains(Fill(ts, values), values[n])
  {
    var head, rest := Fill(ts[..1], values), Fill(ts[1..], values);
    assert ts == [ts[0]] + ts[1..] && ts[..1] == [ts[0]];
    FillCons(ts[0], ts[1..], values);
    if ts[0] == Hole(n) {
      assert Fill([ts[0]], values) == values[n] by {
        assert [ts[0]][1..] == [];
        assert values[n] + "" == values[n];
      }
      assert values[n] <= Fill(ts, values);
    } else {
      var t :| t in ts && t.Hole? && t.name == n;
      assert t in ts[1..];
      FillContains(ts[1..], values, n);
      ContainsLonger(head, rest, values[n]);
    }
  }

  lemma {:induction false} ContainsLonger(x: string, s: string, p: string)
    requires Contains(s, p)
    ensures Contains(x + s, p)
  {
    if x == "" {
      assert x + s == s;
    } else {
      ContainsLonger(x[1..], s, p);
      assert (x + s)[1..] == x[1..] + s;
    }
  }

  /** The bindings established by replacing the listed keys, earlier bindings winning. */
  function BindAll(earlier: map<string, string>, keys: seq<string>, values: map<string, string>): map<string, string>
    requires forall k :: k in keys ==> k in values
  {
    if keys == [] then earlier
    else
      var last := |keys| - 1;
      var b := BindAll(earlier, keys[..last], values);
      if keys[last] in b then b else b[keys[last] := SanitizeTemplateValue(values[keys[last]])]
  }

  lemma {:induction false} BindAllAt(earlier: map<string, string>, keys: seq<string>, values: map<string, string>, k: string)
    requires forall j :: j in keys ==> j in values
    ensures var b := BindAll(earlier, keys, values);
            && (k in b <==> k in earlier || k in keys)
            && (k in b ==> b[k] == if k in earlier then earlier[k] else SanitizeTemplateValue(values[k]))
  {
    if keys != [] {
      var last := |keys| - 1;
      BindAllAt(earlier, keys[..last], values, k);
      assert keys == keys[..last] + [keys[last]];
    }
  }

  lemma {:induction false} ReplaceAllFills(ts: seq<Token>, earlier: map<string, string>, keys: seq<string>, values: map<string, string>)
    requires CleanTokens(ts) && CleanValues(earlier) && BraceFreeKeys(values)
    requires forall k :: k in keys ==> k in values
    ensures CleanValues(BindAll(earlier, keys, values))
    ensures ReplaceAll(Fill(ts, earlier), keys, values) == Fill(ts, BindAll(earlier, keys, values))
  {
    if keys != [] {
      var last := |keys| - 1;
      ReplaceAllFills(ts, earlier, keys[..last], values);
      var w := SanitizeTemplateValue(values[keys[last]]);
      SanitizeIsStrip(values[keys[last]]);
      ReplaceFillsOneName(ts, BindAll(earlier, keys[..last], values), keys[last], w);
    }
  }

  ghost predicate AgreeAt(b: map<string, string>, c: map<string, string>, k: string) {
    (k in b <==> k in c) && (k in b ==> b[k] == c[k])
  }

  lemma {:induction false} AgreeEverywhere(b: map<string, string>, c: map<string, string>)
    requires forall k :: AgreeAt(b, c, k)
    ensures b == c
  {
    forall k
      ensures (k in b <==> k in c) && (k in b ==> b[k] == c[k])
    {
      assert AgreeAt(b, c, k);
    }
  }

  lemma {:induction false} BindAllTwiceAt(params: map<string, string>, outputs: map<string, string>, po: seq<string>, oo: seq<string>, k: string)
    requires Enumerates(po, params.Keys) && Enumerates(oo, outputs.Keys)
    ensures AgreeAt(BindAll(BindAll(map[], po, params), oo, outputs), Bindings(params, outputs), k)
  {
    BindAllAt(map[], po, params, k);
    BindAllAt(BindAll(map[], po, params), oo, outputs, k);
  }

  lemma {:induction false} BindAllTwiceIs(params: map<string, string>, outputs: map<string, string>, po: seq<string>, oo: seq<string>)
    requires Enumerates(po, params.Keys) && Enumerates(oo, outputs.Keys)
    ensures BindAll(BindAll(map[], po, params), oo, outputs) == Bindings(params, outputs)
  {
    var b, c := BindAll(BindAll(map[], po, params), oo, outputs), Bindings(params, outputs);
    forall k
      ensures AgreeAt(b, c, k)
    {
      BindAllTwiceAt(params, outputs, po, oo, k);
    }
    AgreeEverywhere(b, c);
  }

  /** For a flat template every iteration order gives the simultaneous substitution. */
  lemma {:induction false} FlatResolvesToSubstitution(v: string, params: map<string, string>, outputs: map<string, string>,
                                   po: seq<string>, oo: seq<string>)
    requires Flat(v) && BraceFreeKeys(params) && BraceFreeKeys(outputs)
    requires Enumerates(po, params.Keys) && Enumerates(oo, outputs.Keys)
    ensures ResolveInOrder(v, params, outputs, po, oo) == Substitute(v, params, outputs)
  {
    var ts := Tokenize(v);
    TokenizeNames(v);
    FillNothing(v);
    ReplaceAllFills(ts, map[], po, params);
    ReplaceAllFills(ts, BindAll(map[], po, params), oo, outputs);
    BindAllTwiceIs(params, outputs, po, oo);
  }

  // ---------------------------------------------------------------------------------------
  // Other templates: the result can differ from the substitution
  // ---------------------------------------------------------------------------------------

  /** With a brace-free text longer than the name, the result starts `name}}` only if the input does. */
  lemma {:induction false} ReplacedCloses(s: string, pat: string, z: string, name: string)
    requires pat != "" && BraceFree(z) && BraceFree(name) && |z| > |name|
    requires name + "}}" <= Replace(s, pat, z)
    ensures name + "}}" <= s
  {
    var r, q := Replace(s, pat, z), name + "}}";
    assert r[|name|] == q[|name|] == '}' && r[0] == q[0];
    var t := Replace(s[1..], pat, z);
    assert r[0] == s[0] && r[1..] == t;
    if name == "" {
      assert t[0] == q[1] == '}';
      assert s[..2] == q;
    } else {
      assert q[1..] == name[1..] + "}}";
      ReplacedCloses(s[1..], pat, z, name[1..]);
      PrefixCons(name[1..] + "}}", s[1..], name[0]);
      assert s == [s[0]] + s[1..] && q == [name[0]] + (name[1..] + "}}");
    }
  }

  lemma {:induction false} PrefixCons(p: string, s: string, c: char)
    requires p <= s
    ensures [c] + p <= [c] + s
  {
  }

  /** Replacing by a long brace-free text leaves no occurrence behind. */
  lemma {:induction false} ReplaceRemovesAll(s: string, name: string, z: string)
    requires BraceFree(name) && BraceFree(z) && |z| > |name|
    ensures !Contains(Replace(s, Placeholder(name), z), Placeholder(name))
    decreases |s|
  {
    var p := Placeholder(name);
    var r := Replace(s, p, z);
    if s != "" {
      if p <= s {
        ReplaceRemovesAll(s[|p|..], name, z);
        NothingInBraceFree(z, Replace(s[|p|..], p, z), p);
      } else {
        ReplaceRemovesAll(s[1..], name, z);
        assert r[1..] == Replace(s[1..], p, z);
        ReplaceStartsNothing(s, name, z);
      }
    }
  }

  lemma {:induction false} ReplaceStartsNothing(s: string, name: string, z: string)
    requires BraceFree(name) && BraceFree(z) && |z| > |name| && s != "" && !(Placeholder(name) <= s)
    ensures !(Placeholder(name) <= Replace(s, Placeholder(name), z))
  {
    var p := Placeholder(name);
    var r, t := Replace(s, p, z), Replace(s[1..], p, z);
    assert r[0] == s[0] && r[1..] == t && p[0] == p[1] == '{' && p[2..] == name + "}}";
    assert s[1..] != "" && p <= s[1..] ==> t[0] == z[0];
    if s[1..] != "" && !(p <= s[1..]) {
      var u := Replace(s[2..], p, z);
      assert s[1..][1..] == s[2..] && t[0] == s[1] && t[1..] == u && r[2..] == u;
      if p <= r {
        ReplacedCloses(s[2..], p, z, name);
        assert false;
      }
    }
  }

  lemma {:induction false} NothingInBraceFree(x: string, rest: string, p: string)
    requires BraceFree(x) && p != "" && IsBrace(p[0]) && !Contains(rest, p)
    ensures !Contains(x + rest, p)
  {
    if x == "" {
      assert x + rest == rest;
    } else {
      assert (x + rest)[1..] == x[1..] + rest && (x + rest)[0] == x[0];
      NothingInBraceFree(x[1..], rest, p);
    }
  }

  /** The name of some placeholder in a text that has one. */
  lemma {:induction false} FindHole(s: string) returns (name: string)
    requires HasHole(s)
    ensures BraceFree(name) && Contains(s, Placeholder(name))
  {
    if OpensHole(s) {
      name := HoleName(s);
    } else {
      name := FindHole(s[1..]);
    }
  }

  /** Filling every placeholder with the empty text gives the skeleton. */
  lemma {:induction false} FillWithEmpty(ts: seq<Token>, values: map<string, string>)
    requires forall i :: 0 <= i < |ts| && ts[i].Hole? ==> ts[i].name in values && values[ts[i].name] == ""
    ensures Fill(ts, values) == Skeleton(ts)
  {
    if ts != [] {
      FillWithEmpty(ts[1..], values);
    }
  }

  /** For every template that is not flat, there are maps on which every order misses the substitution. */
  lemma {:induction false} NestedCanMisresolve(v: string) returns (params: map<string, string>, outputs: map<string, string>)
    requires !Flat(v)
    ensures BraceFreeKeys(params) && BraceFreeKeys(outputs)
    ensures forall po, oo :: Enumerates(po, params.Keys) && Enumerates(oo, outputs.Keys)
              ==> ResolveInOrder(v, params, outputs, po, oo) != Substitute(v, params, outputs)
  {
    var ts := Tokenize(v);
    TokenizeNames(v);
    var name := FindHole(Skeleton(ts));
    var z := seq(|name| + 1, _ => 'x');
    params := map n | n in HoleNames(ts) :: "";
    outputs := map[name := z];
    StripKeepsClean(z);
    SanitizeIsStrip(z);
    SanitizeIsStrip("");
    FillWithEmpty(ts, Bindings(params, outputs));
    forall po, oo | Enumerates(po, params.Keys) && Enumerates(oo, outputs.Keys)
      ensures ResolveInOrder(v, params, outputs, po, oo) != Substitute(v, params, outputs)
    {
      LastPassRemoves(ReplaceAll(v, po, params), name, z, oo);
    }
  }

  ghost function HoleNames(ts: seq<Token>): set<string> {
    set t | t in ts && t.Hole? :: t.name
  }

  lemma {:induction false} LastPassRemoves(mid: string, name: string, z: string, oo: seq<string>)
    requires BraceFree(name) && BraceFree(z) && |z| > |name| && SanitizeTemplateValue(z) == z
    requires Enumerates(oo, map[name := z].Keys)
    ensures !Contains(ReplaceAll(mid, oo, map[name := z]), Placeholder(name))
  {
    assert map[name := z].Keys == {name};
    SingletonEnumeration(oo, name);
    assert oo[..0] == [];
    ReplaceRemovesAll(mid, name, z);
  }

  /**
   * The exact boundary: a template resolves to its simultaneous substitution for all maps with
   * brace-free names and all iteration orders if and only if it is flat.
   */
  lemma {:induction false} ResolvesToSubstitutionIffFlat(v: string)
    ensures Flat(v) <==>
      forall params, outputs, po, oo ::
        BraceFreeKeys(params) && BraceFreeKeys(outputs) && Enumerates(po, params.Keys) && Enumerates(oo, outputs.Keys)
        ==> ResolveInOrder(v, params, outputs, po, oo) == Substitute(v, params, outputs)
  {
    if Flat(v) {
      forall params, outputs, po, oo | BraceFreeKeys(params) && BraceFreeKeys(outputs)
                                       && Enumerates(po, params.Keys) && Enumerates(oo, outputs.Keys)
        ensures ResolveInOrder(v, params, outputs, po, oo) == Substitute(v, params, outputs)
      {
        FlatResolvesToSubstitution(v, params, outputs, po, oo);
      }
    } else {
      var params, outputs := NestedCanMisresolve(v);
      var po := EnumerationExists(params.Keys);
      var oo := EnumerationExists(outputs.Keys);
      assert ResolveInOrder(v, params, outputs, po, oo) != Substitute(v, params, outputs);
    }
  }

  /** What a step receives: with flat arguments and brace-free names, resolution is deterministic. */
  lemma {:induction false} FlatArgsResolveUniquely(args: map<string, string>, params: map<string, string>,
                                outputs: map<string, string>, resolved: map<string, string>)
    requires ArgsResolveTo(args, params, outputs, resolved)
    requires BraceFreeKeys(params) && BraceFreeKeys(outputs) && forall k :: k in args ==> Flat(args[k])
    ensures resolved == map k | k in args :: Substitute(args[k], params, outputs)
  {
    forall k | k in args
      ensures resolved[k] == Substitute(args[k], params, outputs)
    {
      var po, oo :| Enumerates(po, params.Keys) && Enumerates(oo, outputs.Keys)
                    && resolved[k] == ResolveInOrder(args[k], params, outputs, po, oo);
      FlatResolvesToSubstitution(args[k], params, outputs, po, oo);
    }
  }

  lemma {:induction false} PlaceholderIsFlat(name: string)
    requires BraceFree(name)
    ensures Tokenize(Placeholder(name)) == [Hole(name)] && Flat(Placeholder(name))
  {
    var p := Placeholder(name);
    assert p[2..] == name + "}}" && "{{" <= p;
    ClosesIff(p[2..], name);
    assert p[2..][..|name|] == name;
    assert OpensHole(p) && HoleName(p) == name && p[|name| + 4..] == "";
    assert Tokenize("") == [];
    assert [Hole(name)] + [] == [Hole(name)];
    assert [Hole(name)][1..] == [] && Skeleton([Hole(name)]) == "" + Skeleton([]);
  }

  /** An argument that is one placeholder becomes the sanitized value, and exactly the value if all its characters survive. */
  lemma {:induction false} PlainPlaceholderResolves(args: map<string, string>, params: map<string, string>, outputs: map<string, string>,
                                                    resolved: map<string, string>, k: string, name: string)
    requires ArgsResolveTo(args, params, outputs, resolved) && BraceFreeKeys(params) && BraceFreeKeys(outputs)
    requires k in args && args[k] == Placeholder(name) && BraceFree(name) && (name in params || name in outputs)
    ensures var value := if name in params then params[name] else outputs[name];
            && resolved[k] == SanitizeTemplateValue(value)
            && ((forall i :: 0 <= i < |value| ==> Survives(value[i])) ==> resolved[k] == value)
  {
    PlaceholderIsFlat(name);
    var value := if name in params then params[name] else outputs[name];
    var po, oo :| Enumerates(po, params.Keys) && Enumerates(oo, outputs.Keys)
                  && resolved[k] == ResolveInOrder(args[k], params, outputs, po, oo);
    FlatResolvesToSubstitution(args[k], params, outputs, po, oo);
    var b := Bindings(params, outputs);
    assert [Hole(name)][1..] == [] && Fill([], b) == "" && b[name] + "" == b[name];
    if forall i :: 0 <= i < |value| ==> Survives(value[i]) {
      SurvivorsAreKept(value);
    }
  }
}
