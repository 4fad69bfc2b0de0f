/**
 The save name of a download (App.js:120-126). A falsy `Content-Disposition`
 value (absent, or the empty string) gives `"krystalDownloader_" + Date.now()`;
 any other value gives capture group 1 of `/filename="(.+)"/`, and when the
 pattern does not match, `match` returns `null` and indexing it throws, which
 the model reports as an `Err`.

 The regular expression is not anchored and `.+` is greedy, so JavaScript picks
 the LEFTMOST position where the pattern matches at all and, at that position,
 the LONGEST capture that is followed by a `"`. `IsMatch` is one way the pattern
 can match; `IsLeftmostGreedy` is the one JavaScript reports.
 */
module Filename {
  import opened Wrappers
  import opened LineTerminators
  import opened Decimal

  /** The literal part of the pattern in front of the capture group. */
  const Literal: string := "filename=\""

  /** The fixed part of a name synthesized from the clock. */
  const FallbackPrefix: string := "krystalDownloader_"

  /** Why no name could be derived: the header did not match (the code throws). */
  datatype FilenameError = NoFilenameMatch

  predicate LiteralAt(s: string, p: nat) {
    p + |Literal| <= |s| && s[p..p + |Literal|] == Literal
  }

  /** The pattern matches at `p`, with the capture ending just before the `"` at `k`. */
  ghost predicate IsMatch(s: string, p: nat, k: nat) {
    && LiteralAt(s, p)
    && p + |Literal| < k < |s|
    && s[k] == '"'
    && forall m :: p + |Literal| <= m < k ==> !IsLineTerminator(s[m])
  }

  /** The match JavaScript reports: leftmost start, then the longest capture there. */
  ghost predicate IsLeftmostGreedy(s: string, p: nat, k: nat) {
    && IsMatch(s, p, k)
    && (forall p': nat, k': nat :: p' < p ==> !IsMatch(s, p', k'))
    && (forall k': nat :: k < k' ==> !IsMatch(s, p, k'))
  }

  /** The first line terminator at or after `i`, or the end of the string. */
  function LineEnd(s: string, i: nat): (e: nat)
    requires i <= |s|
    ensures i <= e <= |s|
    ensures forall m :: i <= m < e ==> !IsLineTerminator(s[m])
    ensures e < |s| ==> IsLineTerminator(s[e])
    decreases |s| - i
  {
    if i == |s| || IsLineTerminator(s[i]) then i else LineEnd(s, i + 1)
  }

  /** The last `"` in `s[lo..hi]`, the point where greedy `.+` stops backtracking. */
  function LastQuote(s: string, lo: nat, hi: nat): (k: Option<nat>)
    requires lo <= hi <= |s|
    ensures k.Some? ==> lo <= k.value < hi && s[k.value] == '"'
    ensures k.Some? ==> forall m :: k.value < m < hi ==> s[m] != '"'
    ensures k.None? ==> forall m :: lo <= m < hi ==> s[m] != '"'
    decreases hi - lo
  {
    if hi == lo then None
    else if s[hi - 1] == '"' then Some(hi - 1)
    else LastQuote(s, lo, hi - 1)
  }

  /** The end of the longest capture at `p`, if the pattern matches there at all. */
  function MatchEnd(s: string, p: nat): (k: Option<nat>)
    ensures k.Some? ==> IsMatch(s, p, k.value)
    ensures k.Some? ==> forall k': nat :: k.value < k' ==> !IsMatch(s, p, k')
    ensures k.None? ==> forall k': nat :: !IsMatch(s, p, k')
  {
    if !LiteralAt(s, p) then None
    else
      var e := LineEnd(s, p + |Literal|);
      if e < p + |Literal| + 1 then None
      else LastQuote(s, p + |Literal| + 1, e)
  }

  /** The leftmost match starting at `p` or later. */
  function SearchFrom(s: string, p: nat): (r: Option<(nat, nat)>)
    requires p <= |s|
    ensures r.Some? ==> p <= r.value.0 && IsMatch(s, r.value.0, r.value.1)
    ensures r.Some? ==> forall p': nat, k': nat :: p <= p' < r.value.0 ==> !IsMatch(s, p', k')
    ensures r.Some? ==> forall k': nat :: r.value.1 < k' ==> !IsMatch(s, r.value.0, k')
    ensures r.None? ==> forall p': nat, k': nat :: p <= p' ==> !IsMatch(s, p', k')
    decreases |s| - p
  {
    match MatchEnd(s, p)
    case Some(k) => Some((p, k))
    case None => if p == |s| then None else SearchFrom(s, p + 1)
  }

  /** `s.match(/filename="(.+)"/)`, reduced to capture group 1 when it matches. */
  function MatchFilename(s: string): (c: Option<string>)
    ensures c.Some? <==> exists p: nat, k: nat :: IsMatch(s, p, k)
    ensures c.Some? ==> exists p: nat, k: nat :: IsLeftmostGreedy(s, p, k) && c.value == s[p + |Literal|..k]
  {
    match SearchFrom(s, 0)
    case Some((p, k)) =>
      assert IsLeftmostGreedy(s, p, k);
      Some(s[p + |Literal|..k])
    case None => None
  }

  /** The name a download is saved under, or the failure the code throws. */
  function DeriveFilename(header: Option<string>, nowMillis: nat): (r: Result<string, FilenameError>)
    ensures r.Ok? ==> |r.value| >= 1
    ensures r.Err? <==> header.Some? && header.value != "" && MatchFilename(header.value).None?
    ensures r.Ok? && header.Some? && header.value != "" ==> r.value == MatchFilename(header.value).value
  {
    match header
    case None => Ok(FallbackPrefix + NatToString(nowMillis))
    case Some(h) =>
      if h == "" then Ok(FallbackPrefix + NatToString(nowMillis))
      else
        match MatchFilename(h)
        case Some(name) => Ok(name)
        case None => Err(NoFilenameMatch)
  }

  /** The literal occurs somewhere in `s`. */
  ghost predicate ContainsLiteral(s: string) {
    exists p: nat :: LiteralAt(s, p)
  }

  /** The literal starts with `f`, so a string without `f` cannot contain it. */
  lemma NoLiteralWithoutF(s: string)
    requires forall m :: 0 <= m < |s| ==> s[m] != 'f'
    ensures !ContainsLiteral(s)
  {
    forall p: nat
      ensures !LiteralAt(s, p)
    {
      if p + |Literal| <= |s| {
        assert s[p..p + |Literal|][0] == s[p];
      }
    }
  }

  /** Every match of a header `P + Literal + rest` whose prefix `P` lacks the literal starts at `|P|`. */
  lemma NoEarlierMatch(pre: string, rest: string, p: nat)
    requires !ContainsLiteral(pre)
    requires p < |pre|
    ensures !LiteralAt(pre + Literal + rest, p)
  {
    var s := pre + Literal + rest;
    if p + |Literal| <= |pre| {
      assert s[p..p + |Literal|] == pre[p..p + |Literal|];
      assert !LiteralAt(pre, p);
    } else {
      var d := |pre| - p;
      assert s[p..p + |Literal|][d] == s[|pre|] == 'f';
    }
  }

  /** In `P + Literal + N + "\"" + R`, the pattern matches at `|P|` with the capture ending at
      the quote after `N`, and no `"` in `R` allows a longer capture there. */
  lemma QuotedNameMatch(s: string, pre: string, name: string, rest: string)
    requires s == pre + Literal + name + "\"" + rest
    requires |name| >= 1 && SingleLine(name)
    requires forall m :: 0 <= m < |rest| ==> rest[m] != '"'
    ensures IsMatch(s, |pre|, |pre| + |Literal| + |name|)
    ensures s[|pre| + |Literal|..|pre| + |Literal| + |name|] == name
    ensures forall k: nat :: |pre| + |Literal| + |name| < k ==> !IsMatch(s, |pre|, k)
  {
    var p0, k0 := |pre|, |pre| + |Literal| + |name|;
    assert s[p0..p0 + |Literal|] == Literal;
    assert s[k0] == '"';
    assert s[p0 + |Literal|..k0] == name;
    assert forall m :: p0 + |Literal| <= m < k0 ==> s[m] == name[m - p0 - |Literal|];
    forall k: nat | k0 < k < |s|
      ensures s[k] != '"'
    {
      assert s[k] == rest[k - k0 - 1];
    }
  }

  /** A quoted, single-line, non-empty name after a prefix free of the literal, followed by
      parameters without a `"` (`; size=3`, `; filename*=UTF-8''…`), is exactly what the
      pattern captures; the name may itself contain `"`, since `.+` is greedy and only the
      last `"` closes it. */
  lemma MatchFilenameOfQuotedName(pre: string, name: string, rest: string)
    requires !ContainsLiteral(pre)
    requires |name| >= 1 && SingleLine(name)
    requires forall m :: 0 <= m < |rest| ==> rest[m] != '"'
    ensures MatchFilename(pre + Literal + name + "\"" + rest) == Some(name)
  {
    var s := pre + Literal + name + "\"" + rest;
    var p0, k0 := |pre|, |pre| + |Literal| + |name|;
    QuotedNameMatch(s, pre, name, rest);
    forall p': nat, k': nat | p' < p0
      ensures !IsMatch(s, p', k')
    {
      assert s == pre + Literal + (name + "\"" + rest);
      NoEarlierMatch(pre, name + "\"" + rest, p');
    }
    MatchFilenameOfLeftmostGreedy(s, p0, k0);
  }

  /** The leftmost, longest match is unique, so it is the one `MatchFilename` reports. */
  lemma MatchFilenameOfLeftmostGreedy(s: string, p: nat, k: nat)
    requires IsLeftmostGreedy(s, p, k)
    ensures MatchFilename(s) == Some(s[p + |Literal|..k])
  {
    var c := MatchFilename(s);
    var p1: nat, k1: nat :| IsLeftmostGreedy(s, p1, k1) && c.value == s[p1 + |Literal|..k1];
    assert p1 == p;
    assert k1 == k;
  }

  /** A name synthesized from the clock reads back as that clock value. */
  lemma FallbackNameEncodesClock(header: Option<string>, nowMillis: nat)
    requires header.None? || header.value == ""
    ensures DeriveFilename(header, nowMillis).Ok?
    ensures var name := DeriveFilename(header, nowMillis).value;
      && |name| > |FallbackPrefix| && name[..|FallbackPrefix|] == FallbackPrefix
      && (forall m :: |FallbackPrefix| <= m < |name| ==> IsDigit(name[m]))
      && (|name| > |FallbackPrefix| + 1 ==> name[|FallbackPrefix|] != '0')
      && DigitsValue(name[|FallbackPrefix|..]) == nowMillis
  {
    var name := DeriveFilename(header, nowMillis).value;
    assert name[|FallbackPrefix|..] == NatToString(nowMillis);
    NatToStringRoundTrip(nowMillis);
  }

  /** Two different clock readings never synthesize the same name. */
  lemma FallbackNamesDistinct(header: Option<string>, a: nat, b: nat)
    requires header.None? || header.value == ""
    requires a != b
    ensures DeriveFilename(header, a) != DeriveFilename(header, b)
  {
    FallbackNameEncodesClock(header, a);
    FallbackNameEncodesClock(header, b);
  }

  /** With a well-formed header the saved name is the quoted name, whatever the clock. */
  lemma DeriveFilenameOfQuotedName(header: string, pre: string, name: string, nowMillis: nat)
    requires header == pre + Literal + name + "\""
    requires !ContainsLiteral(pre)
    requires |name| >= 1 && SingleLine(name)
    ensures DeriveFilename(Some(header), nowMillis) == Ok(name)
  {
    MatchFilenameOfQuotedName(pre, name, "");
    assert header == pre + Literal + name + "\"" + "";
  }

  /** Parameters after the quoted name that hold no `"` do not change the saved name. */
  lemma DeriveFilenameWithTrailingParameters(header: string, pre: string, name: string, rest: string, nowMillis: nat)
    requires header == pre + Literal + name + "\"" + rest
    requires !ContainsLiteral(pre)
    requires |name| >= 1 && SingleLine(name)
    requires forall m :: 0 <= m < |rest| ==> rest[m] != '"'
    ensures DeriveFilename(Some(header), nowMillis) == Ok(name)
  {
    MatchFilenameOfQuotedName(pre, name, rest);
  }

  /** A non-empty header without the literal makes the derivation fail. */
  lemma DeriveFilenameFailsWithoutLiteral(header: string, nowMillis: nat)
    requires header != "" && !ContainsLiteral(header)
    ensures DeriveFilename(Some(header), nowMillis) == Err(NoFilenameMatch)
  {
  }

  /** `attachment; filename="clip.mp4"` saves as `clip.mp4`. */
  lemma AttachmentExample(header: string, nowMillis: nat)
    // a parameter pinned to the literal, so the solver does not unroll definitions over it
    requires header == "attachment; filename=\"clip.mp4\""
    ensures DeriveFilename(Some(header), nowMillis) == Ok("clip.mp4")
  {
    var pre, name := "attachment; ", "clip.mp4";
    NoLiteralWithoutF(pre);
    assert header == pre + Literal + name + "\"";
    DeriveFilenameOfQuotedName(header, pre, name, nowMillis);
  }

  /** `attachment; filename="clip.mp4"; size=3` also saves as `clip.mp4`. */
  lemma TrailingParameterExample(header: string, nowMillis: nat)
    // a parameter pinned to the literal, so the solver does not unroll definitions over it
    requires header == "attachment; filename=\"clip.mp4\"; size=3"
    ensures DeriveFilename(Some(header), nowMillis) == Ok("clip.mp4")
  {
    var pre, name, rest := "attachment; ", "clip.mp4", "; size=3";
    NoLiteralWithoutF(pre);
    assert header == pre + Literal + name + "\"" + rest;
    DeriveFilenameWithTrailingParameters(header, pre, name, rest, nowMillis);
  }

  /** Greedy capture: a later quoted parameter is swallowed into the name. */
  lemma GreedyCaptureExample(header: string, nowMillis: nat)
    // a parameter pinned to the literal, so the solver does not unroll definitions over it
    requires header == "attachment; filename=\"a\"; x=\"b\""
    ensures DeriveFilename(Some(header), nowMillis) == Ok("a\"; x=\"b")
  {
    var pre, name := "attachment; ", "a\"; x=\"b";
    NoLiteralWithoutF(pre);
    assert header == pre + Literal + name + "\"";
    DeriveFilenameOfQuotedName(header, pre, name, nowMillis);
  }

  /** A header with the literal but an empty quoted name does not match: `.+` needs a character. */
  lemma EmptyQuotedNameFails(header: string, nowMillis: nat)
    // a parameter pinned to the literal, so the solver does not unroll definitions over it
    requires header == "attachment; filename=\"\""
    ensures DeriveFilename(Some(header), nowMillis) == Err(NoFilenameMatch)
  {
    var pre := "attachment; ";
    NoLiteralWithoutF(pre);
    assert header == pre + Literal + "\"";
    forall p: nat, k: nat
      ensures !IsMatch(header, p, k)
    {
      if p < |pre| {
        NoEarlierMatch(pre, "\"", p);
      }
    }
  }
}
