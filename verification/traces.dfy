/**
 Runs of the page: events applied one at a time from some state, collecting
 the effects in order. The lemmas here hold for EVERY sequence of events,
 including the interleavings the page allows (typing or going back while a
 request is in flight, responses arriving late, a second format click).
 */
module Traces {
  import opened Wrappers
  import opened UrlValidator
  import opened LineTerminators
  import opened Filename
  import opened Workflow
  import opened View

  datatype Trace = Trace(final: State, effects: seq<Effect>)

  function EffectSeq(e: Option<Effect>): seq<Effect> {
    match e
    case Some(x) => [x]
    case None => []
  }

  /** Applies the events in order. */
  function Run(s: State, events: seq<Event>): Trace
    decreases |events|
  {
    if |events| == 0 then Trace(s, [])
    else
      var step := Apply(s, events[0]);
      var rest := Run(step.state, events[1..]);
      Trace(rest.final, EffectSeq(step.effect) + rest.effects)
  }

  /** Running a non-empty list is applying its first event, then running the rest. */
  lemma RunCons(s: State, e: Event, rest: seq<Event>)
    ensures Run(s, [e] + rest) ==
      Trace(Run(Apply(s, e).state, rest).final, EffectSeq(Apply(s, e).effect) + Run(Apply(s, e).state, rest).effects)
  {
  }

  /** Every catalog request carries a URL the gate accepted. */
  ghost predicate SuggestRequestsValidated(effects: seq<Effect>) {
    forall i :: 0 <= i < |effects| && effects[i].Post? && effects[i].endpoint == SuggestFormatsEndpoint ==>
      effects[i].body.UrlBody? && ValidateUrl(effects[i].body.url)
  }

  /** Every notification the fetch, download, Go Back and paste handlers raise is one
      of the two "Invalid URL" messages (the promotional "Greetings!" buttons are
      not among the modelled events). */
  ghost predicate NotificationsAreInvalidUrl(effects: seq<Effect>) {
    forall i :: 0 <= i < |effects| && effects[i].Notify? ==>
      effects[i].title == InvalidUrlTitle &&
      (effects[i].message == PastedInvalidMessage || effects[i].message == CopiedInvalidMessage)
  }

  /** Every saved file has a non-empty name. */
  ghost predicate SavedNamesNonEmpty(effects: seq<Effect>) {
    forall i :: 0 <= i < |effects| && effects[i].Save? ==> |effects[i].name| >= 1
  }

  ghost predicate WellBehaved(effects: seq<Effect>) {
    SuggestRequestsValidated(effects) && NotificationsAreInvalidUrl(effects) && SavedNamesNonEmpty(effects)
  }

  /** One event keeps the three guarantees. */
  lemma ApplyWellBehaved(s: State, e: Event)
    ensures WellBehaved(EffectSeq(Apply(s, e).effect))
  {
  }

  lemma ConcatWellBehaved(a: seq<Effect>, b: seq<Effect>)
    requires WellBehaved(a) && WellBehaved(b)
    ensures WellBehaved(a + b)
  {
    forall i | 0 <= i < |a + b|
      ensures (a + b)[i] == if i < |a| then a[i] else b[i - |a|]
    {
    }
  }

  /** Whatever the events and their order, no catalog request goes out with a URL the
      gate refused, every notification is an "Invalid URL" one, and every saved file
      has a name. */
  lemma {:induction false} RunWellBehaved(s: State, events: seq<Event>)
    ensures SuggestRequestsValidated(Run(s, events).effects)
    ensures NotificationsAreInvalidUrl(Run(s, events).effects)
    ensures SavedNamesNonEmpty(Run(s, events).effects)
    decreases |events|
  {
    if |events| > 0 {
      var step := Apply(s, events[0]);
      ApplyWellBehaved(s, events[0]);
      RunWellBehaved(step.state, events[1..]);
      ConcatWellBehaved(EffectSeq(step.effect), Run(step.state, events[1..]).effects);
    }
  }

  /** Each event causes at most one effect. */
  lemma {:induction false} RunEffectsBounded(s: State, events: seq<Event>)
    ensures |Run(s, events).effects| <= |events|
    decreases |events|
  {
    if |events| > 0 {
      RunEffectsBounded(Apply(s, events[0]).state, events[1..]);
    }
  }

  /** The initial `[]` and a non-empty title never coexist: the only response that
      brings a title also replaces `downloadOptions`. */
  ghost predicate InitialArrayHasNoTitle(s: State) {
    s.downloadOptions == InitialEmptyArray ==> TitleMissing(s.downloadInfo)
  }

  lemma {:induction false} RunKeepsInitialArrayUntitled(s: State, events: seq<Event>)
    requires InitialArrayHasNoTitle(s)
    ensures InitialArrayHasNoTitle(Run(s, events).final)
    decreases |events|
  {
    if |events| > 0 {
      RunKeepsInitialArrayUntitled(Apply(s, events[0]).state, events[1..]);
    }
  }

  /** From the opening page, whatever happens, the catalog panel only shows when a
      server catalog is stored, so its buttons are the server's labels. */
  lemma CatalogPanelHasCatalog(events: seq<Event>)
    ensures var r := Run(Initial, events).final;
      CatalogPanelShown(r) ==>
        (r.downloadOptions.Loaded? &&
         FormatLabels(r) == r.downloadOptions.formats.video + r.downloadOptions.formats.audio)
  {
    RunKeepsInitialArrayUntitled(Initial, events);
  }

  /** A catalog round for a valid URL: loading while the request is out, then exactly one
      of "catalog stored" or "nothing stored", never a notification, loading off. */
  lemma FetchRound(s: State, o: FetchOutcome)
    requires ValidateUrl(s.videoUrl)
    ensures var t := Run(s, [FetchClicked, FetchResponded(o)]);
      && Apply(s, FetchClicked).state.loading
      && t.effects == [Post(SuggestFormatsEndpoint, UrlBody(s.videoUrl))]
      && !t.final.loading
      && (t.final.downloadOptions.Loaded? <==> o.FetchOk? && o.payload.formats.Some?)
      && (!t.final.downloadOptions.Loaded? ==> t.final.downloadOptions == NullOptions)
  {
    var s1 := FetchStart(s);
    var s2 := FetchRespond(s1.state, o);
    RunCons(s1.state, FetchResponded(o), []);
    RunCons(s, FetchClicked, [FetchResponded(o)]);
    assert [FetchResponded(o)] + [] == [FetchResponded(o)];
    assert [FetchClicked] + [FetchResponded(o)] == [FetchClicked, FetchResponded(o)];
    assert Run(s, [FetchClicked, FetchResponded(o)]) == Trace(s2.state, [Post(SuggestFormatsEndpoint, UrlBody(s.videoUrl))]);
  }

  /** A catalog request for a refused URL: one notification, no request, the catalog and
      selection cleared, everything else as it was. */
  lemma FetchRefused(s: State)
    requires !ValidateUrl(s.videoUrl)
    ensures Run(s, [FetchClicked]) ==
      Trace(s.(downloadOptions := NullOptions, selectedFormat := None), [Notify(InvalidUrlTitle, PastedInvalidMessage)])
  {
  }

  /** A download whose header names the file: the request, then one Save of that name,
      and the page reset for the next URL. */
  lemma DownloadRound(s: State, format: string, header: string, pre: string, name: string, nowMillis: nat)
    requires header == pre + Literal + name + "\""
    requires !ContainsLiteral(pre) && |name| >= 1 && SingleLine(name)
    ensures Run(s, [FormatClicked(format), DownloadResponded(DownloadReceived(Some(header), nowMillis, true))]) ==
      Trace(AfterDownload, [Post(DownloadEndpoint, UrlQualityBody(s.videoUrl, format)), Save(name)])
  {
    DeriveFilenameOfQuotedName(header, pre, name, nowMillis);
    var o := DownloadReceived(Some(header), nowMillis, true);
    var events := [FormatClicked(format), DownloadResponded(o)];
    var s1 := DownloadStart(s, format);
    assert events[1..] == [DownloadResponded(o)];
    assert Run(s1.state, [DownloadResponded(o)]) == Trace(AfterDownload, [Save(name)]);
  }

  /** A download whose header is present but names no file: no Save, and only `loading`
      changes; the catalog, the info, the selection and the URL stay. */
  lemma DownloadUnnamed(s: State, format: string, header: string, nowMillis: nat)
    requires header != "" && !ContainsLiteral(header)
    ensures Run(s, [FormatClicked(format), DownloadResponded(DownloadReceived(Some(header), nowMillis, true))]) ==
      Trace(s.(selectedFormat := Some(format), loading := false), [Post(DownloadEndpoint, UrlQualityBody(s.videoUrl, format))])
  {
    DeriveFilenameFailsWithoutLiteral(header, nowMillis);
    var o := DownloadReceived(Some(header), nowMillis, true);
    var events := [FormatClicked(format), DownloadResponded(o)];
    var s1 := DownloadStart(s, format);
    assert events[1..] == [DownloadResponded(o)];
    assert Run(s1.state, [DownloadResponded(o)]) == Trace(s1.state.(loading := false), []);
  }

  /** Running two event lists back to back is running their concatenation. */
  lemma {:induction false} RunAppend(s: State, a: seq<Event>, b: seq<Event>)
    ensures Run(s, a + b) ==
      Trace(Run(Run(s, a).final, b).final, Run(s, a).effects + Run(Run(s, a).final, b).effects)
    decreases |a|
  {
    if |a| > 0 {
      var step := Apply(s, a[0]);
      assert a == [a[0]] + a[1..];
      assert a + b == [a[0]] + (a[1..] + b);
      RunCons(s, a[0], a[1..] + b);
      RunCons(s, a[0], a[1..]);
      RunAppend(step.state, a[1..], b);
      var mid := Run(step.state, a[1..]);
      var tail := Run(mid.final, b);
      assert Run(s, a) == Trace(mid.final, EffectSeq(step.effect) + mid.effects);
      assert Run(s, a + b) == Trace(tail.final, EffectSeq(step.effect) + (mid.effects + tail.effects));
      assert EffectSeq(step.effect) + (mid.effects + tail.effects) == (EffectSeq(step.effect) + mid.effects) + tail.effects;
    } else {
      assert a + b == b;
    }
  }

  const DemoPayload := SuggestPayload(
    Some(Formats(["720p", "1080p"], ["128kbps"])),
    Some(MediaInfo(Some("Demo"), Some("X"), Some(30), Some("http://x/y.jpg"))))

  /** From the opening page: enter the watch URL and fetch; the catalog panel then offers
      exactly the three labels the server sent, with the request carrying the URL. */
  lemma DemoCatalog(url: string)
    // a parameter pinned to the literal, so the solver does not unroll definitions over it
    requires url == "https://www.youtube.com/watch?v=abc123"
    ensures var t := Run(Initial, [UrlEdited(url), FetchClicked, FetchResponded(FetchOk(DemoPayload))]);
      && t.effects == [Post(SuggestFormatsEndpoint, UrlBody(url))]
      && CatalogPanelShown(t.final) && !t.final.loading && t.final.videoUrl == url
      && FormatLabels(t.final) == ["720p", "1080p", "128kbps"]
  {
    WatchUrlAccepted();
    var s1 := Initial.(videoUrl := url);
    var s2 := FetchStart(s1).state;
    var s3 := FetchRespond(s2, FetchOk(DemoPayload)).state;
    RunCons(s2, FetchResponded(FetchOk(DemoPayload)), []);
    RunCons(s1, FetchClicked, [FetchResponded(FetchOk(DemoPayload))]);
    RunCons(Initial, UrlEdited(url), [FetchClicked, FetchResponded(FetchOk(DemoPayload))]);
    assert [UrlEdited(url)] + [FetchClicked, FetchResponded(FetchOk(DemoPayload))] ==
      [UrlEdited(url), FetchClicked, FetchResponded(FetchOk(DemoPayload))];
    assert [FetchClicked] + [FetchResponded(FetchOk(DemoPayload))] == [FetchClicked, FetchResponded(FetchOk(DemoPayload))];
    assert [FetchResponded(FetchOk(DemoPayload))] + [] == [FetchResponded(FetchOk(DemoPayload))];
    FetchOkShowsCatalog(s2, DemoPayload);
    assert Run(Initial, [UrlEdited(url), FetchClicked, FetchResponded(FetchOk(DemoPayload))]).final == s3;
  }

  /** From any state, clicking `1080p` with the server naming the file `demo.mp4` posts
      the download request and then saves `demo.mp4`. */
  lemma DemoSave(s: State, header: string, nowMillis: nat)
    // a parameter pinned to the literal, so the solver does not unroll definitions over it
    requires header == "attachment; filename=\"demo.mp4\""
    ensures Run(s, [FormatClicked("1080p"), DownloadResponded(DownloadReceived(Some(header), nowMillis, true))]) ==
      Trace(AfterDownload, [Post(DownloadEndpoint, UrlQualityBody(s.videoUrl, "1080p")), Save("demo.mp4")])
  {
    var pre, name := "attachment; ", "demo.mp4";
    NoLiteralWithoutF(pre);
    assert header == pre + Literal + name + "\"";
    DownloadRound(s, "1080p", header, pre, name, nowMillis);
  }

  /** The whole happy path: pick `1080p`, the server names the file `demo.mp4`, one Save
      of that name follows the two requests, and the page is reset. */
  lemma DemoDownload(url: string, header: string, nowMillis: nat)
    // a parameter pinned to the literal, so the solver does not unroll definitions over it
    requires url == "https://www.youtube.com/watch?v=abc123"
    requires header == "attachment; filename=\"demo.mp4\""
    ensures Run(Initial, [UrlEdited(url), FetchClicked, FetchResponded(FetchOk(DemoPayload)),
                          FormatClicked("1080p"), DownloadResponded(DownloadReceived(Some(header), nowMillis, true))]) ==
      Trace(AfterDownload, [Post(SuggestFormatsEndpoint, UrlBody(url)),
                            Post(DownloadEndpoint, UrlQualityBody(url, "1080p")),
                            Save("demo.mp4")])
  {
    var a := [UrlEdited(url), FetchClicked, FetchResponded(FetchOk(DemoPayload))];
    var b := [FormatClicked("1080p"), DownloadResponded(DownloadReceived(Some(header), nowMillis, true))];
    DemoCatalog(url);
    DemoSave(Run(Initial, a).final, header, nowMillis);
    RunAppend(Initial, a, b);
    assert a + b == [UrlEdited(url), FetchClicked, FetchResponded(FetchOk(DemoPayload)),
                     FormatClicked("1080p"), DownloadResponded(DownloadReceived(Some(header), nowMillis, true))];
  }

  /** `not a url` fails the gate: it starts with none of the schemes or hosts. */
  lemma NotAUrlRejected(text: string)
    // a parameter pinned to the literal, so the solver does not unroll definitions over it
    requires text == "not a url"
    ensures !ValidateUrl(text)
  {
  }

  /** Typing something that is not a URL and fetching: one notification, no request, and
      the page still on its input panel with nothing loading. */
  lemma NotAUrlScenario(text: string)
    // a parameter pinned to the literal, so the solver does not unroll definitions over it
    requires text == "not a url"
    ensures var t := Run(Initial, [UrlEdited(text), FetchClicked]);
      && t.effects == [Notify(InvalidUrlTitle, PastedInvalidMessage)]
      && InputPanelShown(t.final) && !t.final.loading
  {
    NotAUrlRejected(text);
    RejectedTextScenario(text);
  }

  /** Typing any text the gate refuses and fetching: one notification, no request, and
      the page still on its input panel with nothing loading. */
  lemma RejectedTextScenario(text: string)
    requires !ValidateUrl(text)
    ensures var t := Run(Initial, [UrlEdited(text), FetchClicked]);
      && t.effects == [Notify(InvalidUrlTitle, PastedInvalidMessage)]
      && InputPanelShown(t.final) && !t.final.loading
  {
    var s1 := Initial.(videoUrl := text);
    RunCons(Initial, UrlEdited(text), [FetchClicked]);
    assert [UrlEdited(text)] + [FetchClicked] == [UrlEdited(text), FetchClicked];
    FetchRefused(s1);
  }

  /** The download request is not gated: editing the input while the catalog request is in
      flight leaves an unchecked string in `videoUrl`, the catalog still appears, and a
      format click posts that string to the download endpoint. */
  lemma UncheckedUrlReachesDownload(url: string, text: string)
    // a parameter pinned to the literal, so the solver does not unroll definitions over it
    requires url == "https://www.youtube.com/watch?v=abc123"
    requires text == "not a url"
    ensures var before := Run(Initial, [UrlEdited(url), FetchClicked, UrlEdited(text),
                                        FetchResponded(FetchOk(DemoPayload))]).final;
      && FormatClickable(before, "720p")
      && !ValidateUrl(before.videoUrl)
      && DownloadStart(before, "720p").effect == Some(Post(DownloadEndpoint, UrlQualityBody(text, "720p")))
  {
    NotAUrlRejected(text);
    var s3 := FetchStart(Initial.(videoUrl := url)).state.(videoUrl := text);
    EditDuringFetch(url, text, DemoPayload);
    FetchOkShowsCatalog(s3, DemoPayload);
    var s4 := FetchRespond(s3, FetchOk(DemoPayload)).state;
    assert FormatLabels(s4)[0] == "720p";
  }

  /** The state after typing over a valid URL while its catalog request is in flight. */
  lemma EditDuringFetch(url: string, text: string, payload: SuggestPayload)
    ensures Run(Initial, [UrlEdited(url), FetchClicked, UrlEdited(text), FetchResponded(FetchOk(payload))]).final ==
      FetchRespond(FetchStart(Initial.(videoUrl := url)).state.(videoUrl := text), FetchOk(payload)).state
  {
    var o := FetchResponded(FetchOk(payload));
    var s1 := Initial.(videoUrl := url);
    var s2 := FetchStart(s1).state;
    var s3 := s2.(videoUrl := text);
    RunCons(s3, o, []);
    RunCons(s2, UrlEdited(text), [o]);
    RunCons(s1, FetchClicked, [UrlEdited(text), o]);
    RunCons(Initial, UrlEdited(url), [FetchClicked, UrlEdited(text), o]);
    assert [o] + [] == [o];
    assert [UrlEdited(text)] + [o] == [UrlEdited(text), o];
    assert [FetchClicked] + [UrlEdited(text), o] == [FetchClicked, UrlEdited(text), o];
    assert [UrlEdited(url)] + [FetchClicked, UrlEdited(text), o] == [UrlEdited(url), FetchClicked, UrlEdited(text), o];
  }
}
