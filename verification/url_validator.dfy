/**
 The URL gate of the downloader: the fixed, anchored, case-sensitive pattern
   ^(https?://)?(www\.youtube\.com|youtu\.?be)/.+$
 written out as a string predicate. `ValidateUrl` decides it by stripping
 prefixes; `MatchesPattern` is the declarative reading of the pattern (some
 split of the string into scheme, host, `/` and a path). The two are proved
 equal for every string.
 */
module UrlValidator {
  import opened Wrappers
  import opened LineTerminators

  /** What `.+` accepts when it has to reach the end of the string (`$`). */
  predicate IsPath(p: string) {
    |p| >= 1 && SingleLine(p)
  }

  /** The optional group `(https?://)?`. */
  predicate IsScheme(x: string) {
    x == "" || x == "http://" || x == "https://"
  }

  /** The group `(www\.youtube\.com|youtu\.?be)`: three literal hosts. */
  predicate IsHost(x: string) {
    x == "www.youtube.com" || x == "youtu.be" || x == "youtube"
  }

  /** The pattern, read declaratively: the string splits as scheme, host, `/`, path. */
  ghost predicate MatchesPattern(s: string) {
    exists i, j :: 0 <= i <= j < |s| && IsScheme(s[..i]) && IsHost(s[i..j]) && s[j] == '/' && IsPath(s[j+1..])
  }

  predicate HasPrefix(s: string, pre: string) {
    |pre| <= |s| && s[..|pre|] == pre
  }

  /** Drops `https://` or `http://` when the string starts with one of them. */
  function StripScheme(s: string): (r: string)
    ensures |r| <= |s| && r == s[|s| - |r|..]
    ensures IsScheme(s[..|s| - |r|])
  {
    if HasPrefix(s, "https://") then s[8..]
    else if HasPrefix(s, "http://") then s[7..]
    else s
  }

  /** The text after `host/` when `r` starts with one of the three hosts and a slash. */
  function AfterHost(r: string): (rest: Option<string>)
    ensures rest.Some? ==> |rest.value| < |r| && rest.value == r[|r| - |rest.value|..]
    ensures rest.Some? ==> r[|r| - |rest.value| - 1] == '/' && IsHost(r[..|r| - |rest.value| - 1])
  {
    if HasPrefix(r, "www.youtube.com/") then Some(r[16..])
    else if HasPrefix(r, "youtu.be/") then Some(r[9..])
    else if HasPrefix(r, "youtube/") then Some(r[8..])
    else None
  }

  /** `validateUrl` (App.js:154-157): `pattern.test(url)`. */
  predicate ValidateUrl(s: string) {
    match AfterHost(StripScheme(s))
    case Some(path) => IsPath(path)
    case None => false
  }

  /** Every string the gate accepts has the shape of the pattern. */
  lemma ValidateUrlSound(s: string)
    requires ValidateUrl(s)
    ensures MatchesPattern(s)
  {
    var r := StripScheme(s);
    var i := |s| - |r|;
    var rest := AfterHost(r).value;
    var j := i + (|r| - |rest| - 1);
    assert s[i..j] == r[..|r| - |rest| - 1];
    assert s[j] == r[|r| - |rest| - 1];
    assert s[j+1..] == rest;
    assert IsScheme(s[..i]) && IsHost(s[i..j]) && s[j] == '/' && IsPath(s[j+1..]);
  }

  /** The scheme group is decided by the first characters alone. */
  lemma StripSchemeOfSplit(s: string, i: nat, j: nat)
    requires i <= j < |s| && IsScheme(s[..i]) && IsHost(s[i..j])
    ensures StripScheme(s) == s[i..]
  {
    assert s[i] == s[i..j][0];
    if i == 0 {
      assert s[0] != 'h';
      assert !HasPrefix(s, "https://");
      assert !HasPrefix(s, "http://");
    } else if i == 7 {
      assert s[..7] == "http://";
      assert s[4] == ':' by { assert s[4] == s[..7][4]; }
      assert !HasPrefix(s, "https://");
    } else {
      assert s[..i] == "https://";
    }
  }

  /** The host group is decided by the text after the scheme. */
  lemma AfterHostOfSplit(r: string, j: nat)
    requires j < |r| && IsHost(r[..j]) && r[j] == '/'
    ensures AfterHost(r) == Some(r[j+1..])
  {
  }

  /** Every string of the pattern's shape passes the gate. */
  lemma ValidateUrlComplete(s: string)
    requires MatchesPattern(s)
    ensures ValidateUrl(s)
  {
    var i, j :| 0 <= i <= j < |s| && IsScheme(s[..i]) && IsHost(s[i..j]) && s[j] == '/' && IsPath(s[j+1..]);
    ValidateUrlOfSplit(s, i, j);
  }

  /** One concrete split of the pattern is enough for the gate to accept. */
  lemma ValidateUrlOfSplit(s: string, i: nat, j: nat)
    requires i <= j < |s| && IsScheme(s[..i]) && IsHost(s[i..j]) && s[j] == '/' && IsPath(s[j+1..])
    ensures ValidateUrl(s)
  {
    StripSchemeOfSplit(s, i, j);
    var r := s[i..];
    assert forall m :: 0 <= m < j - i ==> r[m] == s[i + m];
    assert r[..j - i] == s[i..j];
    AfterHostOfSplit(r, j - i);
    assert r[j - i + 1..] == s[j+1..];
  }

  /** `validateUrl` accepts exactly the strings of the pattern's shape. */
  lemma ValidateUrlIffPattern(s: string)
    ensures ValidateUrl(s) <==> MatchesPattern(s)
  {
    if ValidateUrl(s) { ValidateUrlSound(s); }
    if MatchesPattern(s) { ValidateUrlComplete(s); }
  }

  /** The three parts of a concatenation can be sliced back out of it. */
  lemma SliceConcat(x: string, y: string, z: string)
    ensures (x + y + z)[..|x|] == x
    ensures (x + y + z)[|x|..|x| + |y|] == y
    ensures (x + y + z)[|x| + |y|..] == z
  {
  }

  /** Any scheme, host and non-empty single-line path compose to an accepted URL. */
  lemma ValidateUrlAcceptsComposed(scheme: string, host: string, path: string)
    requires IsScheme(scheme) && IsHost(host) && IsPath(path)
    ensures ValidateUrl(scheme + host + "/" + path)
  {
    var tail := "/" + path;
    var s := scheme + host + tail;
    assert scheme + host + "/" + path == s;
    SliceConcat(scheme, host, tail);
    var i, j := |scheme|, |scheme| + |host|;
    assert s[j] == tail[0] == '/';
    assert s[j+1..] == tail[1..] == path;
    ValidateUrlOfSplit(s, i, j);
  }

  /** The empty string is refused, so `!videoUrl ||` adds nothing to the gate. */
  lemma EmptyUrlRejected()
    ensures !ValidateUrl("")
  {
  }

  /** The short-link host passes without a scheme. */
  lemma ShortLinkAccepted()
    ensures ValidateUrl("youtu.be/x")
  {
    var s := "youtu.be/x";
    assert s[..0] == "" && s[0..8] == "youtu.be" && s[9..] == "x";
    ValidateUrlOfSplit(s, 0, 8);
  }

  /** `\.?` makes the dot optional, so the bare word `youtube` is a host. */
  lemma DotlessHostAccepted()
    ensures ValidateUrl("youtube/x")
  {
    var s := "youtube/x";
    assert s[..0] == "" && s[0..7] == "youtube" && s[8..] == "x";
    ValidateUrlOfSplit(s, 0, 7);
  }

  /** The canonical watch URL passes. */
  lemma WatchUrlAccepted()
    ensures ValidateUrl("https://www.youtube.com/watch?v=abc123")
  {
    var scheme, host, path := "https://", "www.youtube.com", "watch?v=abc123";
    assert scheme + host + "/" + path == "https://www.youtube.com/watch?v=abc123";
    ValidateUrlAcceptsComposed(scheme, host, path);
  }

  /** `youtube.com` is not one of the hosts: after `youtube` the pattern needs `/`. */
  lemma DottedShortHostRejected()
    ensures !ValidateUrl("youtube.com/watch")
  {
  }

  /** Hosts other than the three literals are refused, subdomains included. */
  lemma MobileHostRejected()
    ensures !ValidateUrl("m.youtube.com/x")
  {
  }

  /** A bare host with an empty path is refused: `.+` needs a character. */
  lemma EmptyPathRejected()
    ensures !ValidateUrl("https://www.youtube.com/")
  {
  }

  /** Matching is case-sensitive: an upper-case scheme is not a scheme. */
  lemma UpperCaseSchemeRejected()
    ensures !ValidateUrl("HTTPS://www.youtube.com/x")
  {
    var s := "HTTPS://www.youtube.com/x";
    assert s[0] == 'H';
    assert StripScheme(s) == s;
  }

  /** A line terminator in the path is refused: `.` does not match it. */
  lemma LineTerminatorInPathRejected()
    ensures !ValidateUrl("youtu.be/a\nb")
  {
    var s := "youtu.be/a\nb";
    assert s[0] == 'y';
    assert StripScheme(s) == s;
    assert s[..9] == "youtu.be/";
    assert AfterHost(s) == Some(s[9..]);
    assert s[9..][1] == '\n';
  }
}
