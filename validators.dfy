/** Slug and version validation (src/utils/validators.ts). Each regular expression of the
    source is written twice: as the language it denotes (a ghost predicate over the
    concatenations it accepts) and as the left-to-right check the model runs; a lemma
    shows the two agree. */
module Validators {
  import opened Strings
  import opened Wrappers

  /** `[a-z0-9-]` */
  predicate IsSlugChar(c: char) {
    ('a' <= c <= 'z') || ('0' <= c <= '9') || c == '-'
  }

  /** `[a-z0-9-]+` */
  predicate IsSlugRun(s: string) {
    |s| > 0 && forall i :: 0 <= i < |s| ==> IsSlugChar(s[i])
  }

  /** `\d` (ASCII digits: the source's patterns carry no `u` flag). */
  predicate IsDigit(c: char) {
    '0' <= c <= '9'
  }

  predicate IsDigitRun(s: string) {
    |s| > 0 && forall i :: 0 <= i < |s| ==> IsDigit(s[i])
  }

  /** `[a-zA-Z0-9.]` */
  predicate IsPrereleaseChar(c: char) {
    ('a' <= c <= 'z') || ('A' <= c <= 'Z') || ('0' <= c <= '9') || c == '.'
  }

  predicate IsPrereleaseRun(s: string) {
    |s| > 0 && forall i :: 0 <= i < |s| ==> IsPrereleaseChar(s[i])
  }

  /** The strings matched by `/^[a-z0-9-]+\/[a-z0-9-]+$/`. */
  ghost predicate BlockNamePattern(s: string) {
    exists category, name :: s == category + "/" + name && IsSlugRun(category) && IsSlugRun(name)
  }

  /** The strings matched by `/^\d+\.\d+\.\d+(-[a-zA-Z0-9.]+)?$/`. */
  ghost predicate VersionPattern(s: string) {
    exists major, minor, patch, pre ::
      s == major + "." + minor + "." + patch + pre &&
      IsDigitRun(major) && IsDigitRun(minor) && IsDigitRun(patch) &&
      (pre == [] || (pre[0] == '-' && IsPrereleaseRun(pre[1..])))
  }

  /** `isValidBlockName`: a category, one `/`, a name. A valid name holds a `/` and no dot,
      so it never contains the `.md` its file name adds. */
  predicate IsValidBlockName(name: string): (b: bool)
    ensures b ==> '/' in name && '.' !in name
  {
    var category := BeforeFirstSlash(name);
    var valid := |category| < |name| && IsSlugRun(category) && IsSlugRun(name[|category| + 1..]);
    assert valid ==> '.' !in name by {
      if valid {
        forall i | 0 <= i < |name| ensures name[i] != '.' {
          if i < |category| {
            assert IsSlugChar(category[i]);
          } else if i > |category| {
            assert IsSlugChar(name[|category| + 1..][i - |category| - 1]);
          }
        }
      }
    }
    valid
  }

  lemma BlockNameMatchesPattern(name: string)
    ensures IsValidBlockName(name) <==> BlockNamePattern(name)
  {
    if IsValidBlockName(name) {
      var category := BeforeFirstSlash(name);
      assert name == category + "/" + name[|category| + 1..];
    }
    if BlockNamePattern(name) {
      var category, rest :| name == category + "/" + rest && IsSlugRun(category) && IsSlugRun(rest);
      assert '/' !in category by {
        forall i | 0 <= i < |category| ensures category[i] != '/' {
          assert IsSlugChar(category[i]);
        }
      }
      BeforeFirstSlashOf(category, rest);
      assert name[|category| + 1..] == rest;
    }
  }

  /** `isValidProfileName`: `/^[a-z0-9-]+$/`, which is `[a-z0-9-]+` itself. */
  predicate IsValidProfileName(name: string): (b: bool)
    ensures b ==> name != [] && '/' !in name && '.' !in name
  {
    assert IsSlugRun(name) ==> '/' !in name && '.' !in name by {
      if IsSlugRun(name) {
        forall i | 0 <= i < |name| ensures name[i] != '/' && name[i] != '.' {
          assert IsSlugChar(name[i]);
        }
      }
    }
    IsSlugRun(name)
  }

  /** The first index at or after `from` that does not hold a digit (or `|s|`). */
  function DigitsEnd(s: string, from: nat): (r: nat)
    requires from <= |s|
    decreases |s| - from
    ensures from <= r <= |s|
    ensures forall i :: from <= i < r ==> IsDigit(s[i])
    ensures r < |s| ==> !IsDigit(s[r])
  {
    if from < |s| && IsDigit(s[from]) then DigitsEnd(s, from + 1) else from
  }

  /** `isValidVersion`: three dot-separated digit runs and an optional `-` prerelease tag.
      The shortest valid version is `0.0.0`, and every one starts with a digit. */
  predicate IsValidVersion(v: string): (b: bool)
    ensures b ==> |v| >= 5 && IsDigit(v[0])
  {
    var e1 := DigitsEnd(v, 0);
    0 < e1 < |v| && v[e1] == '.' &&
    var e2 := DigitsEnd(v, e1 + 1);
    e1 + 1 < e2 < |v| && v[e2] == '.' &&
    var e3 := DigitsEnd(v, e2 + 1);
    e2 + 1 < e3 && (e3 == |v| || (v[e3] == '-' && IsPrereleaseRun(v[e3 + 1..])))
  }

  /** The end of a digit run is where the first non-digit stands. */
  lemma DigitsEndAt(s: string, from: nat, k: nat)
    requires from <= k <= |s|
    requires forall i :: from <= i < k ==> IsDigit(s[i])
    requires k < |s| ==> !IsDigit(s[k])
    ensures DigitsEnd(s, from) == k
  {
  }

  lemma VersionMatchesPattern(v: string)
    ensures IsValidVersion(v) <==> VersionPattern(v)
  {
    if IsValidVersion(v) {
      ValidVersionMatches(v);
    }
    if VersionPattern(v) {
      var major, minor, patch, pre :|
        v == major + "." + minor + "." + patch + pre &&
        IsDigitRun(major) && IsDigitRun(minor) && IsDigitRun(patch) &&
        (pre == [] || (pre[0] == '-' && IsPrereleaseRun(pre[1..])));
      PatternIsValidVersion(major, minor, patch, pre);
    }
  }

  lemma ValidVersionMatches(v: string)
    requires IsValidVersion(v)
    ensures VersionPattern(v)
  {
    var e1 := DigitsEnd(v, 0);
    var e2 := DigitsEnd(v, e1 + 1);
    var e3 := DigitsEnd(v, e2 + 1);
    VersionCuts(v);
    DigitRunOf(v, 0);
    DigitRunOf(v, e1 + 1);
    DigitRunOf(v, e2 + 1);
    assert v[0..e1] == v[..e1];
    PatternFromCuts(v, e1, e2, e3);
  }

  /** The pattern's four parts, cut out of `v` at the ends of its digit runs. */
  lemma PatternFromCuts(v: string, e1: nat, e2: nat, e3: nat)
    requires 0 < e1 && e1 + 1 < e2 && e2 + 1 < e3 <= |v| && v[e1] == '.' && v[e2] == '.'
    requires IsDigitRun(v[..e1]) && IsDigitRun(v[e1 + 1..e2]) && IsDigitRun(v[e2 + 1..e3])
    requires e3 < |v| ==> v[e3] == '-' && IsPrereleaseRun(v[e3 + 1..])
    ensures VersionPattern(v)
  {
    SplitVersion(v, e1, e2, e3);
    var pre := v[e3..];
    if e3 < |v| {
      assert pre[0] == v[e3];
      assert pre[1..] == v[e3 + 1..];
    } else {
      assert pre == [];
    }
    VersionWitness(v, v[..e1], v[e1 + 1..e2], v[e2 + 1..e3], pre);
  }

  /** The facts `isValidVersion` checks, at the ends of its three digit runs. */
  lemma VersionCuts(v: string)
    requires IsValidVersion(v)
    ensures var e1 := DigitsEnd(v, 0);
      var e2 := DigitsEnd(v, e1 + 1);
      var e3 := DigitsEnd(v, e2 + 1);
      0 < e1 < e2 < e3 <= |v| && e1 + 1 < e2 && e2 + 1 < e3 && v[e1] == '.' && v[e2] == '.' &&
      (e3 < |v| ==> v[e3] == '-' && IsPrereleaseRun(v[e3 + 1..]))
  {
  }

  /** The digits from `from` up to where they end form a digit run when there is one. */
  lemma DigitRunOf(s: string, from: nat)
    requires from <= |s| && from < DigitsEnd(s, from)
    ensures IsDigitRun(s[from..DigitsEnd(s, from)])
  {
    var r := DigitsEnd(s, from);
    forall i | 0 <= i < r - from ensures IsDigit(s[from..r][i]) {
      assert s[from..r][i] == s[from + i];
    }
  }

  /** A version cut at its two dots and at the end of its patch number. */
  lemma SplitVersion(v: string, e1: nat, e2: nat, e3: nat)
    requires e1 < e2 < e3 <= |v| && e1 + 1 <= e2 && e2 + 1 <= e3 && v[e1] == '.' && v[e2] == '.'
    ensures v == v[..e1] + "." + v[e1 + 1..e2] + "." + v[e2 + 1..e3] + v[e3..]
  {
    assert v == v[..e1] + [v[e1]] + v[e1 + 1..e2] + [v[e2]] + v[e2 + 1..e3] + v[e3..];
  }

  lemma VersionWitness(v: string, major: string, minor: string, patch: string, pre: string)
    requires v == major + "." + minor + "." + patch + pre
    requires IsDigitRun(major) && IsDigitRun(minor) && IsDigitRun(patch)
    requires pre == [] || (pre[0] == '-' && IsPrereleaseRun(pre[1..]))
    ensures VersionPattern(v)
  {
  }

  lemma PatternIsValidVersion(major: string, minor: string, patch: string, pre: string)
    requires IsDigitRun(major) && IsDigitRun(minor) && IsDigitRun(patch)
    requires pre == [] || (pre[0] == '-' && IsPrereleaseRun(pre[1..]))
    ensures IsValidVersion(major + "." + minor + "." + patch + pre)
  {
    var v := major + "." + minor + "." + patch + pre;
    var e1, e2, e3 := |major|, |major| + 1 + |minor|, |major| + 1 + |minor| + 1 + |patch|;
    VersionSlices(major, minor, patch, pre);
    ValidFromParts(v, e1, e2, e3);
  }

  /** `isValidVersion` holds of a string cut into the pattern's parts. */
  lemma ValidFromParts(v: string, e1: nat, e2: nat, e3: nat)
    requires 0 < e1 && e1 + 1 < e2 && e2 + 1 < e3 <= |v| && v[e1] == '.' && v[e2] == '.'
    requires IsDigitRun(v[0..e1]) && IsDigitRun(v[e1 + 1..e2]) && IsDigitRun(v[e2 + 1..e3])
    requires e3 < |v| ==> v[e3] == '-' && IsPrereleaseRun(v[e3 + 1..])
    ensures IsValidVersion(v)
  {
    DigitsEndOf(v, 0, e1);
    DigitsEndOf(v, e1 + 1, e2);
    DigitsEndOf(v, e2 + 1, e3);
    ValidVersionAt(v, e1, e2, e3);
  }

  /** Where the parts of a version written out as `major.minor.patch` and `pre` lie. */
  lemma VersionSlices(major: string, minor: string, patch: string, pre: string)
    ensures var v := major + "." + minor + "." + patch + pre;
      var e1, e2, e3 := |major|, |major| + 1 + |minor|, |major| + 1 + |minor| + 1 + |patch|;
      |v| == e3 + |pre| && v[0..e1] == major && v[e1 + 1..e2] == minor && v[e2 + 1..e3] == patch &&
      v[e1] == '.' && v[e2] == '.' && (pre != [] ==> v[e3] == pre[0] && v[e3 + 1..] == pre[1..])
  {
    var v := major + "." + minor + "." + patch + pre;
    var e1, e2, e3 := |major|, |major| + 1 + |minor|, |major| + 1 + |minor| + 1 + |patch|;
    assert v[0..e1] == major;
    assert v[e1 + 1..e2] == minor;
    assert v[e2 + 1..e3] == patch;
    assert v[e3..] == pre;
  }

  /** A digit run followed by a non-digit (or the end) ends where the run does. */
  lemma DigitsEndOf(v: string, from: nat, k: nat)
    requires from <= k <= |v| && IsDigitRun(v[from..k]) && (k < |v| ==> !IsDigit(v[k]))
    ensures DigitsEnd(v, from) == k
  {
    forall i | from <= i < k ensures IsDigit(v[i]) {
      assert v[i] == v[from..k][i - from];
    }
    DigitsEndAt(v, from, k);
  }

  /** `isValidVersion` once the ends of the three digit runs are known. */
  lemma ValidVersionAt(v: string, e1: nat, e2: nat, e3: nat)
    requires e1 < e2 < e3 <= |v|
    requires DigitsEnd(v, 0) == e1 && 0 < e1 && v[e1] == '.'
    requires DigitsEnd(v, e1 + 1) == e2 && e1 + 1 < e2 && v[e2] == '.'
    requires DigitsEnd(v, e2 + 1) == e3 && e2 + 1 < e3
    requires e3 == |v| || (v[e3] == '-' && IsPrereleaseRun(v[e3 + 1..]))
    ensures IsValidVersion(v)
  {
  }

  /** The `{ valid, error? }` record the validators return. */
  datatype Validation = Validation(valid: bool, error: Option<string>)

  const BLOCK_SLUG_REQUIRED: string := "Block slug is required"
  const BLOCK_SLUG_FORMAT: string := "Block slug must be in format \"category/name\" (e.g., laravel/base)"
  const PROFILE_SLUG_REQUIRED: string := "Profile slug is required"
  const PROFILE_SLUG_FORMAT: string := "Profile slug must be kebab-case (e.g., laravel-package)"

  /** `validateBlockSlug`: the emptiness check comes first, then the format check; a
      result carries an error exactly when it is invalid. */
  function ValidateBlockSlug(slug: string): (r: Validation)
    ensures r.valid <==> BlockNamePattern(slug)
    ensures r.valid <==> r.error == None
    ensures slug == [] ==> r.error == Some(BLOCK_SLUG_REQUIRED)
    ensures slug != [] && !r.valid ==> r.error == Some(BLOCK_SLUG_FORMAT)
  {
    BlockNameMatchesPattern(slug);
    if slug == [] then Validation(false, Some(BLOCK_SLUG_REQUIRED))
    else if !IsValidBlockName(slug) then Validation(false, Some(BLOCK_SLUG_FORMAT))
    else Validation(true, None)
  }

  /** `validateProfileSlug`: the same structure over the kebab-case pattern. */
  function ValidateProfileSlug(slug: string): (r: Validation)
    ensures r.valid <==> IsSlugRun(slug)
    ensures r.valid <==> r.error == None
    ensures slug == [] ==> r.error == Some(PROFILE_SLUG_REQUIRED)
    ensures slug != [] && !r.valid ==> r.error == Some(PROFILE_SLUG_FORMAT)
  {
    if slug == [] then Validation(false, Some(PROFILE_SLUG_REQUIRED))
    else if !IsValidProfileName(slug) then Validation(false, Some(PROFILE_SLUG_FORMAT))
    else Validation(true, None)
  }
}
