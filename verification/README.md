# Krystal Tuber front end, modelled in Dafny

The page lets a user paste a YouTube URL, ask a conversion service which video
and audio formats it can produce (`POST /suggest_formats`), and download one of
them (`POST /download`) as a file named after the response's
`Content-Disposition` header. All of its logic lives in `src/App.js`. This
project models that logic as pure functions:

- **`LineTerminators`**: the four characters JavaScript's regular-expression
  `.` refuses to match, shared by both patterns below.
- **`UrlValidator`**: the URL gate `validateUrl`. It is the anchored,
  case-sensitive pattern `^(https?://)?(www\.youtube\.com|youtu\.?be)/.+$`,
  written as a string predicate. It is proved equal to a declarative reading
  of the pattern: some split into scheme, host, `/` and a path.
- **`Decimal`**: how `"krystalDownloader_" + Date.now()` renders the clock,
  with a read-back function that proves the rendering injective.
- **`Filename`**: the save name. It is capture group 1 of
  `/filename="(.+)"/`, with JavaScript's leftmost-then-greedy match semantics.
  A falsy header uses the clock fallback instead. A header that is present but
  does not match is an `Err`, because the code throws there.
- **`Workflow`**: the five state cells `{videoUrl, downloadOptions,
  downloadInfo, loading, selectedFormat}`. Every handler is a function
  `(State, Event) -> (State, Option<Effect>)`. Each async handler is split at
  its `await` into a click event and a response event. The effects are
  `Notify(title, message)`, `Post(endpoint, body)` and `Save(name)`.
- **`View`**: the rendering decisions that depend on state. These are which
  panel shows, whether Fetch or "Fetching..." shows, which format buttons
  exist, and which button shows "Downloading...".
- **`Traces`**: runs of arbitrary event sequences, and guarantees that hold for
  every run. Also the end-to-end happy path, the "not a url" path, and a run
  showing that the download request is never re-validated.

Behaviour of the code worth noting:

- URL matching is case-sensitive.
- The bare host `youtube` is accepted.
- A present but unparseable `Content-Disposition` makes the download fail.
  There is no fallback to a synthesized name in that case.
- There is no error state, and nothing returns to an earlier screen on its own.
  A failed request only sets `loading` to false.
- Nothing guards against a second format click while a download is in flight
  (`View.SecondClickNotGuarded`).
- The URL sent to `/download` is whatever `videoUrl` holds at the click. Text
  typed while the catalog request is in flight gets there without validation
  (`Traces.UncheckedUrlReachesDownload`).
- The initial `downloadOptions` is the literal `[]`, which is truthy. It is kept
  distinct from `null` as `InitialEmptyArray`.

## Model

| member | source | states |
|---|---|---|
| UrlValidator.ValidateUrl | src/App.js:154-157 | `pattern.test(url)`: after dropping an optional `http://` or `https://`, the string must start with `www.youtube.com/`, `youtu.be/` or `youtube/` and continue with one or more characters, none a line terminator |
| UrlValidator.ValidateUrlIffPattern | src/App.js:154-157 | the gate accepts a string exactly when it splits as an optional `http://`/`https://`, then `www.youtube.com`, `youtu.be` or `youtube`, then `/`, then one or more characters none of which is a line terminator |
| UrlValidator.ValidateUrlAcceptsComposed | src/App.js:155 | every scheme, host and non-empty single-line path put together is accepted |
| UrlValidator.EmptyUrlRejected | src/App.js:66 | the empty URL fails the gate, so the `!videoUrl` test adds nothing to it |
| UrlValidator.ShortLinkAccepted | src/App.js:155 | `youtu.be/x` is accepted |
| UrlValidator.DotlessHostAccepted | src/App.js:155 | `youtube/x` is accepted, because `\.?` makes the dot optional |
| UrlValidator.WatchUrlAccepted | src/App.js:155 | `https://www.youtube.com/watch?v=abc123` is accepted |
| UrlValidator.DottedShortHostRejected | src/App.js:155 | `youtube.com/watch` is refused |
| UrlValidator.MobileHostRejected | src/App.js:155 | `m.youtube.com/x` is refused |
| UrlValidator.EmptyPathRejected | src/App.js:155 | `https://www.youtube.com/` is refused, because the path needs a character |
| UrlValidator.UpperCaseSchemeRejected | src/App.js:155 | matching is case-sensitive: `HTTPS://www.youtube.com/x` is refused |
| UrlValidator.LineTerminatorInPathRejected | src/App.js:155 | a newline in the path is refused, because `.` does not match it |
| Decimal.NatToString | src/App.js:126 | the rendered clock is one or more decimal digits with no leading zero |
| Decimal.NatToStringRoundTrip | src/App.js:126 | reading the rendered digits back gives the clock value |
| Decimal.NatToStringInjective | src/App.js:126 | different clock values render differently |
| Filename.LastQuote | src/App.js:125 | the last `"` before the end of the line, which is where greedy `.+` stops backtracking; no `"` lies after it |
| Filename.MatchEnd | src/App.js:125 | at a given start, the pattern either matches with the longest capture or does not match at all |
| Filename.SearchFrom | src/App.js:125 | the first start, from a position on, at which the pattern matches; none earlier matches |
| Filename.MatchFilename | src/App.js:125 | a capture exists exactly when the pattern matches somewhere, and it is the leftmost, longest one |
| Filename.DeriveFilename | src/App.js:124-126 | a derived name is never empty; derivation fails exactly when the header is non-empty and the pattern does not match it; a name derived from a non-empty header is exactly `MatchFilename`'s leftmost, longest capture |
| Filename.QuotedNameMatch | src/App.js:125 | in `P + filename=" + N + " + R`, the pattern matches right after `P` with capture `N`, and no `"` in `R` allows a longer capture there |
| Filename.MatchFilenameOfLeftmostGreedy | src/App.js:125 | the leftmost, longest match is unique, so whenever one exists `match` reports exactly its capture |
| Filename.MatchFilenameOfQuotedName | src/App.js:125 | for `P + filename=" + N + " + R`, with `P` free of `filename="`, `N` non-empty and single-line, and `R` free of `"`, the capture is exactly `N`, even if `N` contains quotes |
| Filename.DeriveFilenameOfQuotedName | src/App.js:124-126 | such a header yields the name `N`, whatever the clock |
| Filename.DeriveFilenameWithTrailingParameters | src/App.js:124-126 | parameters after the quoted name that hold no `"` (such as `; size=3` or `; filename*=UTF-8''…`) leave the saved name `N` unchanged |
| Filename.DeriveFilenameFailsWithoutLiteral | src/App.js:124-125 | a non-empty header without `filename="` makes the derivation fail |
| Filename.FallbackNameEncodesClock | src/App.js:126 | a null or empty header gives `krystalDownloader_` followed by digits with no leading zero that read back as the clock, i.e. exactly the decimal rendering of `Date.now()` |
| Filename.FallbackNamesDistinct | src/App.js:126 | two different clock readings never give the same fallback name |
| Filename.AttachmentExample | src/App.js:124-125 | `attachment; filename="clip.mp4"` gives `clip.mp4` |
| Filename.TrailingParameterExample | src/App.js:124-125 | `attachment; filename="clip.mp4"; size=3` also gives `clip.mp4` |
| Filename.GreedyCaptureExample | src/App.js:125 | `attachment; filename="a"; x="b"` gives `a"; x="b`, because the capture is greedy |
| Filename.EmptyQuotedNameFails | src/App.js:125 | `attachment; filename=""` fails, because the capture needs a character |
| Workflow.EditUrl | src/App.js:232 | typing replaces `videoUrl` and changes nothing else |
| Workflow.FetchStart | src/App.js:63-84 | the catalog and selection are always cleared. A URL that passes the gate sets `loading` and posts `{url}` to `/suggest_formats`. Any other URL gives one "Invalid URL" notification and leaves `loading`, `downloadInfo` and `videoUrl` unchanged |
| Workflow.StoredOptions | src/App.js:94 | a payload catalog is stored as-is; a missing one is stored as null, never as the initial `[]` |
| Workflow.FetchRespond | src/App.js:86-100 | every outcome clears `loading` and emits nothing. An ok response stores the payload's `formats` and `info`, and a missing `formats` is stored as the falsy null, never as the initial `[]`. A non-ok, network or JSON failure changes only `loading` |
| Workflow.DownloadStart | src/App.js:103-113 | a format click selects the label, sets `loading` and posts `{url, quality}` with the current `videoUrl`. It does not check `loading` first |
| Workflow.DownloadRespond | src/App.js:115-151 | a Save is emitted exactly when a response arrived, its name derived and its body was read. The Save carries the derived name and resets the page. Every other outcome changes only `loading`, to false |
| Workflow.GoBack | src/App.js:251-255 | catalog, URL and selection are cleared; `downloadInfo` and `loading` are kept |
| Workflow.Paste | src/App.js:159-170 | text that passes the gate becomes `videoUrl`; any other text gives one "Invalid URL" notification and changes nothing |
| View.InputPanelShown | src/App.js:219 | either `!downloadOptions` or `!downloadInfo?.title` holds: the options are null, or there is no info, no title or an empty title; the truthy initial `[]` does not by itself show the input panel |
| View.CatalogPanelShown | src/App.js:219 | the other branch of that condition: options that are not null together with a non-empty title |
| View.FetchButtonShown | src/App.js:235-239 | on the input panel, with a non-empty URL and nothing loading, the Fetch button shows |
| View.FetchingShown | src/App.js:235-243 | on the input panel, with a non-empty URL while loading, "Fetching..." shows instead of Fetch |
| View.ShowsDownloading | src/App.js:287 | `loading && selectedFormat === format`: the label shows "Downloading..." and has no click handler; the same test is at App.js:313 for audio |
| View.FormatLabels | src/App.js:286 | the buttons are the catalog's video labels then its audio labels; any other value of `downloadOptions` gives none |
| View.InitialShowsEmptyInput | src/App.js:41-45 | the page opens on the input panel, with no Fetch button and no label downloading |
| View.DownloadingLabelUnique | src/App.js:287 | at most one label shows "Downloading..." |
| View.FetchOkShowsCatalog | src/App.js:219 | after an ok catalog response, the catalog panel shows exactly when formats came back and the title is non-empty. It then offers the server's labels in server order |
| View.FetchStartInvalidShowsInput | src/App.js:63-72 | a refused URL leaves the input panel showing with no format buttons |
| View.GoBackShowsEmptyInput | src/App.js:251-255 | Go Back shows an empty input panel, with no label downloading even if `loading` is still true |
| View.GoBackIdempotent | src/App.js:251-255 | pressing Go Back twice is the same as pressing it once |
| View.AfterDownloadShowsEmptyInput | src/App.js:143-147 | after a saved download the page shows an empty input panel |
| View.FormatClickMovesIndicator | src/App.js:286-300 | a click moves "Downloading..." onto the clicked label and off every other label |
| View.SecondClickNotGuarded | src/App.js:312-326 | while one label downloads, another visible label stays clickable and starts a second request |
| Traces.RunWellBehaved | src/App.js:63-170 | in every run: each catalog request carries a URL that passed the gate, each notification raised by the fetch, download, Go Back and paste handlers is an "Invalid URL" one (the "Greetings!" buttons are left out), and each saved name is non-empty |
| Traces.RunEffectsBounded | src/App.js:63-170 | a run has no more effects than events |
| Traces.RunAppend | src/App.js:63-170 | running two event lists back to back is the same as running their concatenation |
| Traces.RunKeepsInitialArrayUntitled | src/App.js:41-45 | in every run, the initial `[]` in `downloadOptions` never stands beside a non-empty title |
| Traces.CatalogPanelHasCatalog | src/App.js:219 | from the opening page, whatever happens, the catalog panel shows only while a server catalog is stored, so its buttons are the server's labels |
| Traces.FetchRound | src/App.js:63-101 | for a valid URL: `loading` is on while the request is out. Afterwards the catalog is stored, or nothing is and `downloadOptions` stays null. No notification is raised and `loading` ends off |
| Traces.FetchRefused | src/App.js:63-72 | for a refused URL: one notification, no request, and only the catalog and selection cleared |
| Traces.DownloadRound | src/App.js:103-147 | a response naming the file yields the request, then exactly one Save of that name, then the reset page |
| Traces.DownloadUnnamed | src/App.js:120-151 | a present header without `filename="` gives no Save; the click's selection stays and `loading` ends off |
| Traces.DemoCatalog | src/App.js:63-101 | entering the watch URL and fetching shows the catalog with exactly `720p`, `1080p`, `128kbps` |
| Traces.DemoSave | src/App.js:103-147 | clicking `1080p` with the header `attachment; filename="demo.mp4"` posts the request and saves `demo.mp4` |
| Traces.DemoDownload | src/App.js:63-152 | the full run emits the catalog request, the download request and `Save("demo.mp4")`, then resets the page |
| Traces.NotAUrlRejected | src/App.js:154-157 | `not a url` fails the gate |
| Traces.NotAUrlScenario | src/App.js:63-72 | fetching `not a url` raises one notification, issues no request, and leaves the input panel showing |
| Traces.RejectedTextScenario | src/App.js:63-72 | from the opening page, typing any text the gate refuses and fetching raises one notification, issues no request, and leaves the input panel showing with `loading` off |
| Traces.UncheckedUrlReachesDownload | src/App.js:103-113 | text typed during the catalog request still reaches `/download` after the catalog shows, without passing the gate |

## Left out

- The toast rendering of `notify` (App.js:10-36) is presentation. It is modelled only as the `Notify(title, message)` effect.
- The "Greetings!" notifications of the extension and Android buttons (App.js:183-199) are promotional UI with no state. They are not modelled.
- The geolocation request and the country footer (App.js:48-61, 342-357) are network I/O and presentation.
- `navigator.clipboard.readText()` (App.js:160) is host I/O. The text it resolves with arrives as the `PasteResolved` event.
- `fetch`, `response.json()` and `response.blob()` are host I/O. They become response events that carry the status, the header, the decoded payload and whether the body could be read.
- The decoded `/suggest_formats` payload is taken to have the shape `{formats: {video: [...], audio: [...]}, info: {title, author, length, thumbnail_url}}`, with either field possibly absent. Only a JSON `null` body throws inside the `try` (at `data.formats`, App.js:94); it maps to the `FetchBadJson` outcome, which has the same effect on the state as a failed parse. A number, string or array body has no `formats` or `info`, so `undefined` is stored for both; that is the `FetchOk` outcome with both fields absent, which the model covers. Fields of other types (a `formats` without the two label lists, or a `title` that is not a string) are stored unchanged by `setDownloadOptions`/`setDownloadInfo` and are not modelled; some of them would throw later while rendering, outside any `try` (App.js:272, 286).
- Save of the file: the anchor/`createObjectURL` trick (App.js:129-141) is DOM work and is modelled as one `Save(name)` effect. The object URL is never revoked by the code, and the model does not claim otherwise.
- `Date.now()` (App.js:126) is a clock. It is a parameter of the download response.
- Decimal.NatToString: JavaScript renders numbers of 10^21 and above in exponent notation. A millisecond clock does not reach that, so the model renders every value in plain digits.
- Interleaving: events are processed one at a time, and each response is applied to the state current at its arrival. No mutual-exclusion invariant is claimed, because the code enforces none.
- `console.log`/`console.error` calls are not modelled.
- Strings are sequences of Unicode scalar values, while JavaScript strings are UTF-16 code units. The four line terminators are single code units either way, so the pattern decisions agree.
- Title truthiness is modelled for string titles only. Other JSON values in `title` are not modelled.
- JSX layout and styling, and `src/components/CustomButton.jsx`, are presentation wrappers without logic.
- Uniqueness of labels within a track kind is not modelled: the page neither checks nor relies on it.
