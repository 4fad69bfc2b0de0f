/**
 The state of the downloader page (App.js:41-45) and the pure transitions its
 handlers perform. Each handler is split at its `await`: the click that issues
 a request, and the later event that carries the response. A transition
 returns the next state and at most one effect for the host to perform:
 a notification, a POST request, or saving the downloaded file.

 The code has no error state and no guard against a second request while one
 is in flight; failures only reset `loading`. Response events are applied to
 whatever the state is when they arrive, as React applies the setters.
 */
module Workflow {
  import opened Wrappers
  import opened UrlValidator
  import opened Filename

  /** `data.formats`: labels per track kind, in server order. */
  datatype Formats = Formats(video: seq<string>, audio: seq<string>)

  /** `downloadOptions`: `null`/`undefined`, the initial `[]`, or a server catalog. */
  datatype DownloadOptions = NullOptions | InitialEmptyArray | Loaded(formats: Formats)

  /** `data.info`; a field the server leaves out is `None`. */
  datatype MediaInfo = MediaInfo(
    title: Option<string>,
    author: Option<string>,
    lengthSeconds: Option<int>,
    thumbnailUrl: Option<string>)

  /** The object literal `{}`. */
  const EmptyInfo := MediaInfo(None, None, None, None)

  /** The five state cells of the page; `downloadInfo` is `None` when it holds `undefined`. */
  datatype State = State(
    videoUrl: string,
    downloadOptions: DownloadOptions,
    downloadInfo: Option<MediaInfo>,
    loading: bool,
    selectedFormat: Option<string>)

  /** The `useState` initial values. */
  const Initial := State("", InitialEmptyArray, Some(EmptyInfo), false, None)

  /** What a completed download leaves behind (App.js:143-147). */
  const AfterDownload := State("", NullOptions, Some(EmptyInfo), false, None)

  const SuggestFormatsEndpoint := "https://audiotuber.vercel.app/suggest_formats"
  const DownloadEndpoint := "https://audiotuber.vercel.app/download"
  const InvalidUrlTitle := "Invalid URL"
  const PastedInvalidMessage := "Please make sure you have pasted a valid YouTube video URL."
  const CopiedInvalidMessage := "Please make sure you have copied a valid YouTube video URL."

  /** The JSON body of a POST: `{url}` or `{url, quality}`. */
  datatype RequestBody = UrlBody(url: string) | UrlQualityBody(url: string, quality: string)

  /** What a transition asks the host to do. */
  datatype Effect =
    | Notify(title: string, message: string)
    | Post(endpoint: string, body: RequestBody)
    | Save(name: string)

  /** The decoded body of an ok `/suggest_formats` response. */
  datatype SuggestPayload = SuggestPayload(formats: Option<Formats>, info: Option<MediaInfo>)

  /** How the `/suggest_formats` request ended. */
  datatype FetchOutcome =
    | FetchNotOk(statusText: string)
    | FetchNetworkError
    | FetchBadJson
    | FetchOk(payload: SuggestPayload)

  /** How the `/download` request ended; `nowMillis` is `Date.now()` when the headers arrive. */
  datatype DownloadOutcome =
    | DownloadNotOk(statusText: string)
    | DownloadNetworkError
    | DownloadReceived(contentDisposition: Option<string>, nowMillis: nat, bodyReadOk: bool)

  /** Everything that can happen to the page, one at a time. */
  datatype Event =
    | UrlEdited(text: string)
    | FetchClicked
    | FetchResponded(fetchOutcome: FetchOutcome)
    | FormatClicked(format: string)
    | DownloadResponded(downloadOutcome: DownloadOutcome)
    | GoBackClicked
    | PasteResolved(text: string)

  datatype Step = Step(state: State, effect: Option<Effect>)

  /** The input's `onChange` (App.js:232). */
  function EditUrl(s: State, text: string): (r: Step)
    ensures r.state.videoUrl == text && r.effect.None?
    ensures r.state.(videoUrl := s.videoUrl) == s
  {
    Step(s.(videoUrl := text), None)
  }

  /** `fetchOptions` up to its `await` (App.js:63-84). */
  function FetchStart(s: State): (r: Step)
    ensures r.state.downloadOptions == NullOptions && r.state.selectedFormat == None
    ensures r.state.videoUrl == s.videoUrl && r.state.downloadInfo == s.downloadInfo
    ensures ValidateUrl(s.videoUrl) ==>
      r.state.loading && r.effect == Some(Post(SuggestFormatsEndpoint, UrlBody(s.videoUrl)))
    ensures !ValidateUrl(s.videoUrl) ==>
      r.state.loading == s.loading && r.effect == Some(Notify(InvalidUrlTitle, PastedInvalidMessage))
  {
    var cleared := s.(downloadOptions := NullOptions, selectedFormat := None);
    if s.videoUrl == "" || !ValidateUrl(s.videoUrl) then
      Step(cleared, Some(Notify(InvalidUrlTitle, PastedInvalidMessage)))
    else
      Step(cleared.(loading := true), Some(Post(SuggestFormatsEndpoint, UrlBody(s.videoUrl))))
  }

  /** `setDownloadOptions(data.formats)`: a missing catalog stores `undefined`. */
  function StoredOptions(formats: Option<Formats>): (o: DownloadOptions)
    ensures o.Loaded? <==> formats.Some?
    ensures o.Loaded? ==> o.formats == formats.value
    ensures o != InitialEmptyArray
  {
    match formats
    case Some(f) => Loaded(f)
    case None => NullOptions
  }

  /** The rest of `fetchOptions` once the response (or its failure) is in (App.js:86-100). */
  function FetchRespond(s: State, o: FetchOutcome): (r: Step)
    ensures !r.state.loading && r.effect.None?
    ensures r.state.videoUrl == s.videoUrl && r.state.selectedFormat == s.selectedFormat
    ensures o.FetchOk? ==>
      r.state.downloadOptions.Loaded? == o.payload.formats.Some? && r.state.downloadInfo == o.payload.info
    ensures o.FetchOk? && o.payload.formats.Some? ==> r.state.downloadOptions.formats == o.payload.formats.value
    ensures o.FetchOk? && o.payload.formats.None? ==> r.state.downloadOptions == NullOptions
    ensures !o.FetchOk? ==> r.state == s.(loading := false)
  {
    match o
    case FetchOk(payload) =>
      Step(s.(downloadOptions := StoredOptions(payload.formats), downloadInfo := payload.info, loading := false), None)
    case _ => Step(s.(loading := false), None)
  }

  /** A format button's `onClick`: select it and run `handleDownload` up to its `await`
      (App.js:296-299, 322-325, 103-113). Nothing checks `loading` first. */
  function DownloadStart(s: State, format: string): (r: Step)
    ensures r.state.loading && r.state.selectedFormat == Some(format)
    ensures r.effect == Some(Post(DownloadEndpoint, UrlQualityBody(s.videoUrl, format)))
    ensures r.state.(loading := s.loading, selectedFormat := s.selectedFormat) == s
  {
    Step(s.(selectedFormat := Some(format), loading := true), Some(Post(DownloadEndpoint, UrlQualityBody(s.videoUrl, format))))
  }

  /** The rest of `handleDownload` once the response (or its failure) is in (App.js:115-151).
      The name is derived before the body is read; either failing lands in the `catch`. */
  function DownloadRespond(s: State, o: DownloadOutcome): (r: Step)
    ensures !r.state.loading
    ensures r.effect.Some? <==>
      o.DownloadReceived? && DeriveFilename(o.contentDisposition, o.nowMillis).Ok? && o.bodyReadOk
    ensures r.effect.Some? ==>
      r.effect.value == Save(DeriveFilename(o.contentDisposition, o.nowMillis).value) && r.state == AfterDownload
    ensures r.effect.None? ==> r.state == s.(loading := false)
  {
    match o
    case DownloadReceived(header, now, bodyReadOk) =>
      (match DeriveFilename(header, now)
       case Ok(name) =>
         if bodyReadOk then Step(AfterDownload, Some(Save(name)))
         else Step(s.(loading := false), None)
       case Err(_) => Step(s.(loading := false), None))
    case _ => Step(s.(loading := false), None)
  }

  /** The Go Back button (App.js:251-255). */
  function GoBack(s: State): (r: Step)
    ensures r.effect.None?
    ensures r.state.downloadOptions == NullOptions && r.state.videoUrl == "" && r.state.selectedFormat == None
    ensures r.state.downloadInfo == s.downloadInfo && r.state.loading == s.loading
  {
    Step(s.(downloadOptions := NullOptions, videoUrl := "", selectedFormat := None), None)
  }

  /** `handlePaste` once the clipboard text is in (App.js:159-170). */
  function Paste(s: State, text: string): (r: Step)
    ensures ValidateUrl(text) ==> r.state == s.(videoUrl := text) && r.effect.None?
    ensures !ValidateUrl(text) ==> r.state == s && r.effect == Some(Notify(InvalidUrlTitle, CopiedInvalidMessage))
  {
    if ValidateUrl(text) then Step(s.(videoUrl := text), None)
    else Step(s, Some(Notify(InvalidUrlTitle, CopiedInvalidMessage)))
  }

  /** The page's reaction to one event. */
  function Apply(s: State, e: Event): Step {
    match e
    case UrlEdited(text) => EditUrl(s, text)
    case FetchClicked => FetchStart(s)
    case FetchResponded(o) => FetchRespond(s, o)
    case FormatClicked(format) => DownloadStart(s, format)
    case DownloadResponded(o) => DownloadRespond(s, o)
    case GoBackClicked => GoBack(s)
    case PasteResolved(text) => Paste(s, text)
  }
}
