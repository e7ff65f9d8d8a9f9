/** The JavaScript string operations the core relies on, over `seq<char>`:
    `startsWith`, `indexOf`/`includes`, `replace` with a string pattern (first
    occurrence only), `split('/').pop()` and `trim`. */
module Strings {
  import opened Wrappers

  predicate HasPrefix(s: string, p: string) {
    |p| <= |s| && s[..|p|] == p
  }

  predicate HasSuffix(s: string, p: string) {
    |p| <= |s| && s[|s| - |p|..] == p
  }

  /** `pat` occurs in `s` starting at index `i`. */
  predicate OccursAt(s: string, pat: string, i: nat) {
    i + |pat| <= |s| && s[i..i + |pat|] == pat
  }

  /** A string with a prefix is that prefix followed by the rest. */
  lemma PrefixSplit(s: string, p: string)
    requires HasPrefix(s, p)
    ensures s == p + s[|p|..]
  {
    assert s == s[..|p|] + s[|p|..];
  }

  /** No string starts with two prefixes whose first characters differ. */
  lemma PrefixesClash(s: string, a: string, b: string)
    requires |a| > 0 && |b| > 0 && a[0] != b[0]
    ensures !(HasPrefix(s, a) && HasPrefix(s, b))
  {
    PrefixHead(s, a);
    PrefixHead(s, b);
  }

  lemma PrefixHead(s: string, a: string)
    requires |a| > 0
    ensures HasPrefix(s, a) ==> s[0] == a[0]
  {
    if HasPrefix(s, a) {
      assert s[..|a|][0] == s[0];
    }
  }

  /** An occurrence of `pat` at `i` puts each of its characters in place. */
  lemma OccursAtChar(s: string, pat: string, i: nat, k: nat)
    requires k < |pat|
    ensures OccursAt(s, pat, i) ==> i + k < |s| && s[i + k] == pat[k]
  {
    if OccursAt(s, pat, i) {
      assert s[i..i + |pat|][k] == s[i + k];
    }
  }

  /** An occurrence of `pat` holds an occurrence of each of its slices. */
  lemma OccursAtSlice(s: string, pat: string, i: nat, a: nat, b: nat)
    requires a <= b <= |pat|
    ensures OccursAt(s, pat, i) ==> OccursAt(s, pat[a..b], i + a)
  {
    if OccursAt(s, pat, i) {
      forall k | 0 <= k < b - a ensures s[i + a..i + b][k] == pat[a..b][k] {
        assert s[i..i + |pat|][a + k] == s[i + a + k];
      }
    }
  }

  /** An occurrence lying wholly within the left part of a concatenation is one in that part. */
  lemma OccursAtLeft(t: string, u: string, pat: string, i: nat)
    requires i + |pat| <= |t|
    ensures OccursAt(t + u, pat, i) ==> OccursAt(t, pat, i)
  {
    assert (t + u)[i..i + |pat|] == t[i..i + |pat|];
  }

  /** The first occurrence of `pat` at or after `from`. */
  function IndexOfFrom(s: string, pat: string, from: nat): (r: Option<nat>)
    decreases |s| - from
    ensures r.Some? ==> from <= r.value && OccursAt(s, pat, r.value)
    ensures r.Some? ==> forall j :: from <= j < r.value ==> !OccursAt(s, pat, j)
    ensures r.None? ==> forall j :: from <= j ==> !OccursAt(s, pat, j)
  {
    if from + |pat| > |s| then None
    else if s[from..from + |pat|] == pat then Some(from)
    else IndexOfFrom(s, pat, from + 1)
  }

  /** `s.indexOf(pat)`, with `None` for -1. */
  function IndexOf(s: string, pat: string): Option<nat> {
    IndexOfFrom(s, pat, 0)
  }

  /** `s.includes(pat)`. */
  predicate Contains(s: string, pat: string) {
    IndexOf(s, pat).Some?
  }

  lemma ContainsIff(s: string, pat: string)
    ensures Contains(s, pat) <==> exists i: nat :: OccursAt(s, pat, i)
  {
  }

  /** `s.replace(pat, rep)` with a string pattern: only the first occurrence is replaced.
      JavaScript's `$` patterns in the replacement (`$&`, `$$`, ...) are not interpreted;
      every replacement used here is `""` or `"~"`, which hold none. */
  function ReplaceFirst(s: string, pat: string, rep: string): (r: string)
    ensures !Contains(s, pat) ==> r == s
    ensures Contains(s, pat) ==>
      var i := IndexOf(s, pat).value;
      OccursAt(s, pat, i) && r == s[..i] + rep + s[i + |pat|..]
  {
    match IndexOf(s, pat)
    case None => s
    case Some(i) => s[..i] + rep + s[i + |pat|..]
  }

  /** A pattern that starts the string is the first occurrence. */
  lemma ReplaceLeading(pat: string, rest: string, rep: string)
    ensures ReplaceFirst(pat + rest, pat, rep) == rep + rest
  {
    assert OccursAt(pat + rest, pat, 0);
    assert (pat + rest)[|pat|..] == rest;
  }

  /** When the first character of `pat` does not occur in `s`, the first occurrence
      of `pat` in `s + pat` is the appended one. */
  lemma {:induction false} ReplaceTrailing(s: string, pat: string, rep: string)
    requires |pat| > 0 && pat[0] !in s
    ensures ReplaceFirst(s + pat, pat, rep) == s + rep
  {
    var t := s + pat;
    forall j | 0 <= j < |s| ensures !OccursAt(t, pat, j) {
      assert t[j] == s[j];
    }
    assert OccursAt(t, pat, |s|) by { assert t[|s|..|s| + |pat|] == pat; }
    assert IndexOf(t, pat) == Some(|s|);
    assert t[..|s|] == s;
    assert t[|s| + |pat|..] == [];
  }

  /** `s.split('/').pop()`: the text after the last `/`, or `s` when it has none. */
  function AfterLastSlash(s: string): (r: string)
    ensures '/' !in r && HasSuffix(s, r)
    ensures |r| < |s| ==> s[|s| - |r| - 1] == '/'
  {
    if s == [] then []
    else if s[|s| - 1] == '/' then []
    else AfterLastSlash(s[..|s| - 1]) + [s[|s| - 1]]
  }

  /** The text before the first `/` (the whole string when it has none): `s.split('/')[0]`. */
  function BeforeFirstSlash(s: string): (r: string)
    ensures '/' !in r && HasPrefix(s, r)
    ensures |r| < |s| ==> s[|r|] == '/'
  {
    if s == [] then []
    else if s[0] == '/' then []
    else [s[0]] + BeforeFirstSlash(s[1..])
  }

  /** Splitting `a/rest` at its first `/` gives back `a`. */
  lemma {:induction false} BeforeFirstSlashOf(a: string, rest: string)
    requires '/' !in a
    ensures BeforeFirstSlash(a + "/" + rest) == a
  {
    if a != [] {
      assert (a + "/" + rest)[1..] == a[1..] + "/" + rest;
      BeforeFirstSlashOf(a[1..], rest);
    }
  }

  /** The code points JavaScript's `trim` removes (WhiteSpace and LineTerminator). */
  predicate IsWhitespace(c: char) {
    c == ' ' || c == '\t' || c == '\n' || c == '\r' || c == '\U{B}' || c == '\U{C}' ||
    c == '\U{A0}' || c == '\U{1680}' || ('\U{2000}' <= c <= '\U{200A}') ||
    c == '\U{2028}' || c == '\U{2029}' || c == '\U{202F}' || c == '\U{205F}' ||
    c == '\U{3000}' || c == '\U{FEFF}'
  }

  predicate AllWhitespace(s: string) {
    forall i :: 0 <= i < |s| ==> IsWhitespace(s[i])
  }

  function TrimStart(s: string): (r: string)
    ensures HasSuffix(s, r) && AllWhitespace(s[..|s| - |r|])
    ensures r != [] ==> !IsWhitespace(r[0])
  {
    if s != [] && IsWhitespace(s[0]) then
      var t := s[1..];
      var r := TrimStart(t);
      assert s[|s| - |r|..] == t[|t| - |r|..];
      assert s[..|s| - |r|] == [s[0]] + t[..|t| - |r|];
      WhitespaceConcat([s[0]], t[..|t| - |r|]);
      r
    else s
  }

  function TrimEnd(s: string): (r: string)
    ensures HasPrefix(s, r) && AllWhitespace(s[|r|..])
    ensures r != [] ==> !IsWhitespace(r[|r| - 1])
  {
    if s != [] && IsWhitespace(s[|s| - 1]) then
      var t := s[..|s| - 1];
      var r := TrimEnd(t);
      assert s[..|r|] == t[..|r|];
      assert s[|r|..] == t[|r|..] + [s[|s| - 1]];
      WhitespaceConcat(t[|r|..], [s[|s| - 1]]);
      r
    else s
  }

  lemma WhitespaceConcat(a: string, b: string)
    requires AllWhitespace(a) && AllWhitespace(b)
    ensures AllWhitespace(a + b)
  {
  }

  /** `s.trim()`: neither starts nor ends with whitespace (see `TrimParts`). */
  function Trim(s: string): (r: string)
    ensures |r| <= |s|
    ensures r != [] ==> !IsWhitespace(r[0]) && !IsWhitespace(r[|r| - 1])
  {
    TrimEnd(TrimStart(s))
  }

  /** `s` is leading whitespace, then `Trim(s)`, then trailing whitespace. */
  lemma TrimParts(s: string)
    ensures exists lead, trail ::
      s == lead + Trim(s) + trail && AllWhitespace(lead) && AllWhitespace(trail)
  {
    var t := TrimStart(s);
    var r := TrimEnd(t);
    SplitAt(s, |s| - |t|);
    SplitAt(t, |r|);
    Framed(s, s[..|s| - |t|], t, r, t[|r|..]);
  }

  /** `s` split as `lead + t` and `t` as `m + trail`, with whitespace on both sides of `m`. */
  lemma Framed(s: string, lead: string, t: string, m: string, trail: string)
    requires s == lead + t && t == m + trail && AllWhitespace(lead) && AllWhitespace(trail)
    ensures exists lead', trail' :: s == lead' + m + trail' && AllWhitespace(lead') && AllWhitespace(trail')
  {
    assert s == lead + m + trail;
  }

  lemma SplitAt(s: string, k: nat)
    requires k <= |s|
    ensures s == s[..k] + s[k..]
  {
  }

  /** Leading whitespace before a non-whitespace character is exactly what `TrimStart` drops. */
  lemma {:induction false} TrimStartOf(lead: string, u: string)
    requires AllWhitespace(lead) && u != [] && !IsWhitespace(u[0])
    ensures TrimStart(lead + u) == u
  {
    if lead != [] {
      assert (lead + u)[1..] == lead[1..] + u;
      TrimStartOf(lead[1..], u);
    } else {
      assert lead + u == u;
    }
  }

  lemma {:induction false} TrimEndOf(u: string, trail: string)
    requires AllWhitespace(trail) && u != [] && !IsWhitespace(u[|u| - 1])
    ensures TrimEnd(u + trail) == u
  {
    if trail != [] {
      assert (u + trail)[..|u + trail| - 1] == u + trail[..|trail| - 1];
      TrimEndOf(u, trail[..|trail| - 1]);
    } else {
      assert u + trail == u;
    }
  }

  /** `trim` gives back the text between whitespace-only margins. */
  lemma TrimOf(lead: string, t: string, trail: string)
    requires AllWhitespace(lead) && AllWhitespace(trail)
    requires t != [] && !IsWhitespace(t[0]) && !IsWhitespace(t[|t| - 1])
    ensures Trim(lead + t + trail) == t
  {
    assert lead + t + trail == lead + (t + trail);
    TrimStartOf(lead, t + trail);
    TrimEndOf(t, trail);
  }

  /** The text after the last `/` of `a/name` is `name` when `name` has no `/`. */
  lemma {:induction false} AfterLastSlashOf(a: string, name: string)
    requires '/' !in name
    ensures AfterLastSlash(a + "/" + name) == name
  {
    var s := a + "/" + name;
    if name != [] {
      var init := name[..|name| - 1];
      assert s[..|s| - 1] == a + "/" + init;
      AfterLastSlashOf(a, init);
      assert name == init + [name[|name| - 1]];
    }
  }
}
