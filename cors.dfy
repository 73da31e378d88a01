/**
 * The HTTP server's CORS origin check: an explicit list of origins plus two
 * patterns for the front end's preview deployments.
 */
module Cors {
  import opened Common

  /** The fixed origins of the allow-list. */
  const ListedOrigins: seq<string> := [
    "https://vybe-social-media-4jtt.vercel.app",
    "https://vybe-social-media.vercel.app",
    "http://localhost:3000"]

  /** The allow-list: the fixed origins, then FRONTEND_URL when it is set and non-empty (`filter(Boolean)`). */
  function AllowedOrigins(frontendUrl: Option<string>): (r: seq<string>)
    ensures Truthy(frontendUrl) ==> r == ListedOrigins + [frontendUrl.value]
    ensures !Truthy(frontendUrl) ==> r == ListedOrigins
    ensures forall o :: o in r ==> o != ""
  {
    if Truthy(frontendUrl) then ListedOrigins + [frontendUrl.value] else ListedOrigins
  }

  const PreviewPrefix := "https://vybe-social-media-"
  const PreviewSuffix := ".vercel.app"

  /** `[a-z0-9]`. */
  predicate IsLabelChar(c: char) {
    'a' <= c <= 'z' || '0' <= c <= '9'
  }

  /** `[a-z0-9]+`. */
  predicate IsLabel(s: string) {
    |s| >= 1 && forall i :: 0 <= i < |s| ==> IsLabelChar(s[i])
  }

  /** The index of the first '-' in s, if any. */
  function FirstDash(s: string): (r: Option<nat>)
    ensures r.Some? ==> r.value < |s| && s[r.value] == '-' && forall i :: 0 <= i < r.value ==> s[i] != '-'
    ensures r.None? ==> forall i :: 0 <= i < |s| ==> s[i] != '-'
  {
    if s == [] then None
    else if s[0] == '-' then Some(0)
    else
      var rest := FirstDash(s[1..]);
      if rest.None? then None else Some(rest.value + 1)
  }

  /** What the two patterns allow between the prefix and the suffix: a label, or two labels joined by one dash. */
  predicate PreviewMiddle(m: string) {
    IsLabel(m) || (FirstDash(m).Some? && IsLabel(m[..FirstDash(m).value]) && IsLabel(m[FirstDash(m).value + 1..]))
  }

  /**
   * `allowedPatterns.some(p => p.test(origin))`: the origin is the prefix, a
   * middle the patterns allow, and the suffix, with nothing around them.
   */
  predicate MatchesPreviewPattern(origin: string) {
    && StartsWith(origin, PreviewPrefix) && EndsWith(origin, PreviewSuffix)
    && |origin| >= |PreviewPrefix| + |PreviewSuffix|
    && PreviewMiddle(origin[|PreviewPrefix|..|origin| - |PreviewSuffix|])
  }

  /**
   * The check means what the two regular expressions say: the origin is the
   * prefix, one label or two labels joined by a dash, and the suffix.
   */
  lemma PreviewPatternMeaning(origin: string)
    ensures MatchesPreviewPattern(origin) <==>
      (exists x :: IsLabel(x) && origin == PreviewPrefix + x + PreviewSuffix)
      || (exists x, y :: IsLabel(x) && IsLabel(y) && origin == PreviewPrefix + x + "-" + y + PreviewSuffix)
  {
    PatternSound(origin);
    if x :| IsLabel(x) && origin == PreviewPrefix + x + PreviewSuffix {
      OneLabelMatches(origin, x);
    }
    if x, y :| IsLabel(x) && IsLabel(y) && origin == PreviewPrefix + x + "-" + y + PreviewSuffix {
      TwoLabelsMatch(origin, x, y);
    }
  }

  lemma PatternSound(origin: string)
    ensures MatchesPreviewPattern(origin) ==>
      (exists x :: IsLabel(x) && origin == PreviewPrefix + x + PreviewSuffix)
      || (exists x, y :: IsLabel(x) && IsLabel(y) && origin == PreviewPrefix + x + "-" + y + PreviewSuffix)
  {
    if MatchesPreviewPattern(origin) {
      var m := origin[|PreviewPrefix|..|origin| - |PreviewSuffix|];
      assert origin == PreviewPrefix + m + PreviewSuffix;
      if !IsLabel(m) {
        var k := FirstDash(m).value;
        assert m == m[..k] + "-" + m[k + 1..];
        assert origin == PreviewPrefix + m[..k] + "-" + m[k + 1..] + PreviewSuffix;
      }
    }
  }

  lemma OneLabelMatches(origin: string, x: string)
    requires IsLabel(x) && origin == PreviewPrefix + x + PreviewSuffix
    ensures MatchesPreviewPattern(origin)
  {
    FramedMiddle(origin, x);
  }

  lemma TwoLabelsMatch(origin: string, x: string, y: string)
    requires IsLabel(x) && IsLabel(y) && origin == PreviewPrefix + x + "-" + y + PreviewSuffix
    ensures MatchesPreviewPattern(origin)
  {
    var m := x + "-" + y;
    assert origin == PreviewPrefix + m + PreviewSuffix;
    FramedMiddle(origin, m);
    DashAfterLabel(x, y);
  }

  /** An origin built from the prefix, a middle and the suffix is framed, and the middle is what lies between. */
  lemma FramedMiddle(origin: string, m: string)
    requires origin == PreviewPrefix + m + PreviewSuffix
    ensures StartsWith(origin, PreviewPrefix) && EndsWith(origin, PreviewSuffix)
    ensures |origin| >= |PreviewPrefix| + |PreviewSuffix|
    ensures origin[|PreviewPrefix|..|origin| - |PreviewSuffix|] == m
  {
  }

  /** Two labels joined by a dash split at that dash, and their join is not itself a label. */
  lemma DashAfterLabel(x: string, y: string)
    requires IsLabel(x) && IsLabel(y)
    ensures var m := x + "-" + y; FirstDash(m) == Some(|x|) && m[..|x|] == x && m[|x| + 1..] == y && !IsLabel(m)
  {
    var m := x + "-" + y;
    assert m[|x|] == '-';
    assert forall i :: 0 <= i < |x| ==> m[i] == x[i] && m[i] != '-';
    assert !IsLabelChar(m[|x|]);
  }

  /**
   * The CORS origin callback: an absent (or empty) origin is allowed, as is
   * one in the allow-list or one matching a preview pattern; every other
   * origin is refused.
   */
  function OriginAllowed(origin: Option<string>, frontendUrl: Option<string>): (b: bool)
    ensures !Truthy(origin) ==> b
    ensures Truthy(origin) ==> (b <==> origin.value in AllowedOrigins(frontendUrl) || MatchesPreviewPattern(origin.value))
  {
    !Truthy(origin) || origin.value in AllowedOrigins(frontendUrl) || MatchesPreviewPattern(origin.value)
  }

  /** The production origin and one-label and two-label preview origins pass. */
  lemma PreviewOriginsAllowed()
    ensures OriginAllowed(Some("https://vybe-social-media.vercel.app"), None)
    ensures OriginAllowed(Some("https://vybe-social-media-abc123.vercel.app"), None)
    ensures OriginAllowed(Some("https://vybe-social-media-git-main.vercel.app"), None)
  {
    assert "https://vybe-social-media.vercel.app" == ListedOrigins[1];
    assert IsLabel("abc123") && IsLabel("git") && IsLabel("main");
    OneLabelMatches("https://vybe-social-media-abc123.vercel.app", "abc123");
    TwoLabelsMatch("https://vybe-social-media-git-main.vercel.app", "git", "main");
  }

  /** A preview name with an upper-case letter is refused. */
  lemma UppercasePreviewRefused()
    ensures !OriginAllowed(Some("https://vybe-social-media-ABC.vercel.app"), None)
  {
    var q := "https://vybe-social-media-ABC.vercel.app";
    var m := "ABC";
    assert q == PreviewPrefix + m + PreviewSuffix;
    FramedMiddle(q, m);
    assert !IsLabelChar(m[0]);
    assert FirstDash(m).None? by { assert m[0] != '-' && m[1] != '-' && m[2] != '-'; }
    NotListed(q);
  }

  /** A preview name with two dashes is refused. */
  lemma MultiDashPreviewRefused()
    ensures !OriginAllowed(Some("https://vybe-social-media-git-main-team.vercel.app"), None)
  {
    var q := "https://vybe-social-media-git-main-team.vercel.app";
    var m := "git-main-team";
    assert q == PreviewPrefix + m + PreviewSuffix;
    FramedMiddle(q, m);
    TwoDashMiddleRefused();
    NotListed(q);
  }

  lemma TwoDashMiddleRefused()
    ensures !PreviewMiddle("git-main-team")
  {
    var m := "git-main-team";
    assert !IsLabelChar(m[3]);
    assert FirstDash(m) == Some(3) by { assert m[3] == '-' && m[0] != '-' && m[1] != '-' && m[2] != '-'; }
    assert !IsLabelChar(m[4..][4]);
  }

  /** A string whose length differs from every fixed origin is not on the list. */
  lemma NotListed(q: string)
    requires |q| != |ListedOrigins[0]| && |q| != |ListedOrigins[1]| && |q| != |ListedOrigins[2]|
    ensures q !in AllowedOrigins(None)
  {
  }

  /** A foreign origin is refused unless it is the configured front end. */
  lemma ForeignOriginRefused()
    ensures !OriginAllowed(Some("https://evil.example"), None)
    ensures OriginAllowed(Some("https://evil.example"), Some("https://evil.example"))
  {
    var q := "https://evil.example";
    assert !StartsWith(q, PreviewPrefix) by { assert q[8] != PreviewPrefix[8]; }
    NotListed(q);
  }
}
