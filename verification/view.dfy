/**
 What the page shows for a state (App.js:219-338), reduced to the decisions
 that depend on the state: which panel is visible, whether the Fetch button or
 its "Fetching..." placeholder is visible, which format buttons exist, and
 which of them shows "Downloading...".
 */
module View {
  import opened Wrappers
  import opened Workflow

  /** `!downloadInfo?.title`: no info, no title, or the empty title. */
  predicate TitleMissing(info: Option<MediaInfo>) {
    info.None? || info.value.title.None? || info.value.title.value == ""
  }

  /** `!downloadOptions || !downloadInfo?.title` (App.js:219): the URL input is shown. */
  predicate InputPanelShown(s: State) {
    s.downloadOptions.NullOptions? || TitleMissing(s.downloadInfo)
  }

  /** The other branch: the media details, Go Back and the format buttons. */
  predicate CatalogPanelShown(s: State) {
    !InputPanelShown(s)
  }

  /** The Fetch button is visible (App.js:235-239). */
  predicate FetchButtonShown(s: State) {
    InputPanelShown(s) && s.videoUrl != "" && !s.loading
  }

  /** The "Fetching..." placeholder is visible instead (App.js:240-243). */
  predicate FetchingShown(s: State) {
    InputPanelShown(s) && s.videoUrl != "" && s.loading
  }

  /** `downloadOptions?.video` then `downloadOptions?.audio`; the `[]` literal has neither. */
  function FormatLabels(s: State): (labels: seq<string>)
    ensures s.downloadOptions.Loaded? ==>
      labels == s.downloadOptions.formats.video + s.downloadOptions.formats.audio
    ensures !s.downloadOptions.Loaded? ==> labels == []
  {
    match s.downloadOptions
    case Loaded(f) => f.video + f.audio
    case _ => []
  }

  /** `loading && selectedFormat === format` (App.js:287, 313). */
  predicate ShowsDownloading(s: State, format: string) {
    s.loading && s.selectedFormat == Some(format)
  }

  /** A visible button that still carries its click handler. */
  predicate FormatClickable(s: State, format: string) {
    CatalogPanelShown(s) && format in FormatLabels(s) && !ShowsDownloading(s, format)
  }

  /** The page opens on the input panel, with nothing typed and so no Fetch button. */
  lemma InitialShowsEmptyInput()
    ensures InputPanelShown(Initial) && !FetchButtonShown(Initial) && !FetchingShown(Initial)
    ensures forall f :: !ShowsDownloading(Initial, f)
  {
  }

  /** At most one label shows "Downloading..." at a time, though it may appear in both lists. */
  lemma DownloadingLabelUnique(s: State, f: string, g: string)
    requires ShowsDownloading(s, f) && ShowsDownloading(s, g)
    ensures f == g
  {
  }

  /** An ok catalog response shows the catalog panel exactly when it has formats and a
      non-empty title, and then offers exactly the server's labels in server order. */
  lemma FetchOkShowsCatalog(s: State, payload: SuggestPayload)
    ensures var r := FetchRespond(s, FetchOk(payload)).state;
      CatalogPanelShown(r) <==> payload.formats.Some? && !TitleMissing(payload.info)
    ensures var r := FetchRespond(s, FetchOk(payload)).state;
      payload.formats.Some? ==> FormatLabels(r) == payload.formats.value.video + payload.formats.value.audio
  {
  }

  /** A refused catalog request lands on the input panel, with no label downloading. */
  lemma FetchStartInvalidShowsInput(s: State)
    requires !UrlValidator.ValidateUrl(s.videoUrl)
    ensures var r := FetchStart(s).state;
      InputPanelShown(r) && FormatLabels(r) == [] && forall f :: !ShowsDownloading(r, f)
  {
  }

  /** Go Back returns to an empty input panel; no label shows "Downloading...", even if
      a download is still in flight and `loading` stays true. */
  lemma GoBackShowsEmptyInput(s: State)
    ensures var r := GoBack(s).state;
      InputPanelShown(r) && !FetchButtonShown(r) && !FetchingShown(r) && FormatLabels(r) == []
    ensures forall f :: !ShowsDownloading(GoBack(s).state, f)
  {
  }

  /** Go Back twice is Go Back once. */
  lemma GoBackIdempotent(s: State)
    ensures GoBack(GoBack(s).state) == GoBack(s)
  {
  }

  /** After a saved download the page is back on an empty input panel. */
  lemma AfterDownloadShowsEmptyInput()
    ensures InputPanelShown(AfterDownload) && !FetchButtonShown(AfterDownload)
    ensures FormatLabels(AfterDownload) == [] && forall f :: !ShowsDownloading(AfterDownload, f)
  {
  }

  /** Clicking a label moves "Downloading..." onto it and off every other label, and
      posts a request, whether or not another download is still in flight. */
  lemma FormatClickMovesIndicator(s: State, f: string)
    ensures var r := DownloadStart(s, f);
      && ShowsDownloading(r.state, f)
      && (forall g :: g != f ==> !ShowsDownloading(r.state, g))
      && r.effect == Some(Post(DownloadEndpoint, UrlQualityBody(s.videoUrl, f)))
  {
  }

  /** Nothing guards a second click: while one label downloads, any other visible label
      is still clickable and starts a second request. */
  lemma SecondClickNotGuarded(s: State, f: string, g: string)
    requires CatalogPanelShown(s) && ShowsDownloading(s, f)
    requires g in FormatLabels(s) && g != f
    ensures FormatClickable(s, g)
    ensures DownloadStart(s, g).effect == Some(Post(DownloadEndpoint, UrlQualityBody(s.videoUrl, g)))
    ensures !ShowsDownloading(DownloadStart(s, g).state, f)
  {
  }
}
