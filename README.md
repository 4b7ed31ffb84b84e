# easyquote — a verified model of the quote-card extension

easyquote is a browser extension that turns a quote into a shareable image
card. The user selects text on a page, or types it into the popup. The popup
lays out the quote with its author, the page's domain and icon, and
optionally the page's `og:image` as a background, then rasterises the card
for download or the clipboard. There are two variants:

- Firefox: `Firefox/popup.js` and `Firefox/background.js`.
- Chrome: `popup.js`, `background.js` and `content.js`.

This project models the parts of the extension that decide something:

- **Card composition** (`text.dfy`, `compose.dfy`). Whitespace, `trim`,
  word counting, truncation to the word limit, the font-size step function,
  the word-limit indicator, `extractDomain` and the Firefox download-name
  sanitiser. These are pure functions, with lemmas for the promised
  properties. Words are the maximal runs of non-whitespace characters. Word
  counting is also related to an independent definition: the number of
  positions where a run starts.
- **The popup state machines.** Each popup's `let` variables and the parts of
  the page the script writes form a state. For Firefox these are
  `firefox_state.dfy` (module `FirefoxCard`) and `firefox_popup.dfy`; for
  Chrome, `chrome_state.dfy` and `chrome_popup.dfy`.
  - Every handler and callback is a function on that state, and the
    properties are lemmas about those functions.
  - A class `Popup` per variant keeps the same state in fields and updates
    it step by step, as the script does. Each of its methods is proved to
    compute the function of the same name (`View() == F(old(View()))`).
  - The central invariant `Inv` is preserved by every handler:
    - image mode only when the quote is page-derived and has an `og:image`;
    - the card and export buttons shown exactly when the trimmed quote is
      non-empty;
    - the background is exactly the image URL in image mode;
    - in Firefox, the icon cache is current.
  - `popup_shared.dfy` holds what both variants share: the card and counter
    views, the tab and probe-response inputs, and the export guard.
- **The metadata extractors** (`metadata.dfy`, `firefox_background.dfy`,
  `chrome_background.dfy`, `content.dfy`):
  - the author cascade (five meta selectors in a fixed order, then the first
    JSON-LD block, then `null`);
  - the Firefox page probe with its `og:image` / `twitter:image` resolution;
  - the context-menu handlers that write the capture record;
  - the `getPageContext` and `getSelection` message handlers.

  The document is abstract: the content of the first tag per selector, what
  `JSON.parse` made of the JSON-LD script, and the selection. URL resolution
  is a function parameter that may fail.

The three author cascades (`Firefox/background.js:62-94`, `content.js:2-33`,
`background.js:16-45`) are the same code up to syntax, so they are modelled
once as `Metadata.ResolveAuthor`.

Where the code and its documentation disagree, the model follows the code:

- Vertical cards with 1–15 words get a 31px font, not 33px
  (`Firefox/popup.js:55-62`).
- The `/i` flag of `extractDomain` makes both the scheme and `www.` match in
  any letter case.
- `sanitizeFilenameBase` cuts to 120 characters after stripping the edges, so
  its result can end in `-` or `.`. Only the start is guaranteed clean.
- The storage and probe callbacks do not commute. A stored `null` author
  erases an author the probe found earlier, but not one found later
  (`FirefoxCard.ArrivalOrderMatters`).

## Model

| member | source | states |
|---|---|---|
| Text.Trim | Firefox/popup.js:38-39 | the result is the slice of the input between its leading and its trailing whitespace run: it starts and ends with non-whitespace, everything cut off is whitespace, and it is empty exactly when the input is all whitespace |
| Text.Words | Firefox/popup.js:49 | every element of `split(/\s+/).filter(w => w.length > 0)` is a non-empty word without whitespace |
| Text.WordsConcatenate | Firefox/popup.js:49 | the words, concatenated in order, are exactly the non-whitespace characters of the text: none lost, added or moved |
| Text.CountWords | Firefox/popup.js:32-33 | the count is zero exactly when the text is empty or all whitespace |
| Text.WordsEmptyIffAllSpace | popup.js:30-31 | the word list is empty if and only if the text is all whitespace |
| Text.CountWordsIsRunStarts | popup.js:30-31 | `countWords` equals the number of positions where a non-whitespace run starts (independent definition) |
| Text.TrimmedHasWord | Firefox/popup.js:78-92 | a non-empty trimmed input has at least one word, so the shown counter is never 0 |
| Text.WordsOfJoinWithEllipsis | Firefox/popup.js:52 | splitting `words.join(" ") + "..."` gives the words back, the ellipsis glued to the last one |
| Compose.WordLimit | Firefox/popup.js:30 | the limit is 60 for square and 75 for vertical cards |
| Compose.Truncate | Firefox/popup.js:48-53 | a text within the limit is returned unchanged |
| Compose.TruncateKeepsLeadingWords | Firefox/popup.js:48-53 | over the limit, the first `maxWords` words survive in order, with `"..."` attached to the last |
| Compose.TruncateWordCount | Firefox/popup.js:48-53 | the result has `min(W, maxWords)` words |
| Compose.TruncateIdempotent | popup.js:35-40 | truncating twice with the same limit equals truncating once |
| Compose.LineHeight | Firefox/popup.js:60-61 | `lineHeight.toFixed(2)` is `"1.55"` for vertical and `"1.50"` for square cards |
| Compose.FontSize | Firefox/popup.js:55-59 | every size is an odd number of pixels, and 1–15 words give 31px (vertical) or 29px (square); FontSizeBand gives every band |
| Compose.FontSizeBand | Firefox/popup.js:55-59 | words `15k+1..15k+15` get `23 + 2*(M-1-k)` px, with M = 5 vertical and 4 square |
| Compose.FontSizeExamples | Firefox/popup.js:55-59 | vertical 1–15 words is 31, 16–30 is 29, 61–75 is 23; square 1–15 is 29, 46–60 is 23 |
| Compose.FontSizeNonIncreasing | popup.js:42-46 | more words never give a larger font |
| Compose.FontSizeWithinLimit | Firefox/popup.js:55-62 | up to the format's word limit the font stays between 23 and 31 (vertical) or 29 (square) |
| Compose.LayoutFor | Firefox/popup.js:132-145 | the drawn text has min(W, L) words and is the quote itself within the limit; the line height follows the format; LayoutWithinLimits bounds the font |
| Compose.LayoutWithinLimits | Firefox/popup.js:132-142 | a rendered non-empty quote has 1 to `WORD_LIMITS[format]` words and a font of at least 23px |
| Compose.WordLimitIndicator | Firefox/popup.js:94-102 | `limit` iff W > L; `warning` iff W ≤ L and W > L·0.8 compared as exact reals; IndicatorClassifies gives the integer form 5W > 4L |
| Compose.IndicatorClassifies | Firefox/popup.js:94-102 | `limit` iff W > L, `warning` iff 0.8·L < W ≤ L, neither otherwise; never both |
| Compose.IndicatorThresholds | popup.js:81-89 | the thresholds at both limits: 48/49 and 60/61 of 60, 60/61 and 75/76 of 75 |
| Compose.ExtractDomain | Firefox/popup.js:35 | the result is a suffix of the URL, shorter by 0, 4, 7, 8, 11 or 12 characters, and is the URL itself when there is no scheme or `www.` prefix |
| Compose.ExtractDomainOfAddress | popup.js:33 | an optional `http://` or `https://` in any letter case, then an optional `www.`, then a host gives back exactly the host |
| Compose.ReplaceForbidden | Firefox/popup.js:40 | same length, each of `\ / ? % * : \| " < >` replaced by `-`, nothing else changed |
| Compose.CollapseSeparators | Firefox/popup.js:41 | empty iff the input is; starts with `-` iff the input starts with a separator; keeps every non-separator character, in order; an input free of forbidden characters gives a result with no whitespace and no `--` |
| Compose.CollapseIsSplitJoin | Firefox/popup.js:41 | collapsing equals `split(/[\s-]+/).join("-")`: the pieces between separator runs, joined by one dash (independent definition) |
| Compose.CollapseTidy | Firefox/popup.js:41 | a text that is already tidy is left as it is |
| Compose.StripEdges | Firefox/popup.js:42 | the slice of the input between its leading and its trailing run of whitespace, `.` and `-`: neither end is such a character, everything cut off is one, and tidiness is kept |
| Compose.CleanTitle | Firefox/popup.js:38-43 | at most 120 characters, tidy, not starting with `.` or `-`, and empty for a missing or blank title |
| Compose.CleanTitleIsCut | Firefox/popup.js:38-43 | the cleaned title is the longest prefix, of at most 120 characters, of the trimmed, replaced, collapsed and stripped title |
| Compose.SanitizeFilenameBase | Firefox/popup.js:37-46 | the cleaned title when it is non-empty, and `"untitled-quote"` exactly when cleaning leaves nothing (a missing or blank title included); always a safe base (1–120 characters, no forbidden character, whitespace or `--`, no leading `.`/`-`) |
| Compose.FallbackNameSafe | Firefox/popup.js:45 | the fallback name is itself a safe base |
| Compose.CleanNameKept | Firefox/popup.js:37-46 | a title that is already a safe base and does not end in whitespace, `.` or `-` is kept as it is |
| Compose.NothingLeftFallsBack | Firefox/popup.js:38-45 | a title made only of forbidden characters, whitespace, `.` and `-` cleans to nothing and falls back to `"untitled-quote"` |
| Metadata.FirstWithContent | Firefox/background.js:62-64 | the index found is the first selector whose tag has non-empty content |
| Metadata.MetaAuthor | content.js:12-17 | the meta search finds nothing exactly when no selector has content |
| Metadata.JsonLdAuthor | content.js:19-30 | nothing exactly when there is no script, the JSON is malformed or the author is falsy; a string author as it is; otherwise `author.name` as it is, `null` and `undefined` included |
| Metadata.ResolveAuthor | content.js:2-33 | `null` only when no meta selector matched; `undefined` only from a JSON-LD author object without a name; `""` only from blank meta content or an empty `author.name`; the values are given by AuthorFromFirstMatchingSelector and JsonLdOnlyAsFallback |
| Metadata.AuthorFromFirstMatchingSelector | Firefox/background.js:62-71 | the author is the trimmed content of the first selector with content, whatever follows |
| Metadata.BlankAuthorMetaStops | background.js:25-30 | whitespace-only content wins the cascade as `""` instead of being skipped |
| Metadata.JsonLdOnlyAsFallback | Firefox/background.js:73-94 | with no meta match: string author, else `author.name`, and malformed or missing data gives `null` |
| FirefoxBackground.MetaContent | Firefox/background.js:35-38 | trimmed content, or `null` when the tag is missing or blank |
| FirefoxBackground.ResolveUrl | Firefox/background.js:40-47 | empty gives `null`; a successful resolution gives the absolute URL; a failed one gives the raw value back |
| FirefoxBackground.PageContextProbe | Firefox/background.js:26-95 | selection and cascade author on every path; `ogImageUrl` is the resolved `og:image`, else the resolved `twitter:image` |
| FirefoxBackground.ProbeWithoutImageMeta | Firefox/background.js:49-55 | without either image tag the probe carries no image |
| FirefoxBackground.ProbePrefersOgImage | Firefox/background.js:40-55 | an `og:image` that cannot be resolved is still used, raw and trimmed, ahead of `twitter:image` |
| FirefoxBackground.OnMenuClicked | Firefox/background.js:99-116 | stores only for `createQuote` without an injection error: the selection, the author (`null` without a result), and the probe's image when truthy, else `null` |
| FirefoxBackground.TargetTab | Firefox/background.js:140 | the request's tab id when truthy, else the sender tab's id when truthy, else none; a tab id of 0 counts as missing |
| FirefoxBackground.OnGetPageContext | Firefox/background.js:137-165 | ignores other actions; a missing tab, an injection error or no result all reply `{author: null, selectedText: ""}`; returns true for the asynchronous reply |
| FirefoxBackground.GetPageContextDegrades | Firefox/background.js:137-165 | a `getPageContext` request is always answered, with the empty context or one of the probe's results |
| ChromeBackground.OnMenuClicked | background.js:11-57 | stores only for `createQuote` when injection succeeds: exactly the selection and the cascade's author, no image |
| ChromeBackground.ChromeCaptureMatchesFirefoxAuthor | background.js:16-52 | for the same page, the Chrome capture equals the Firefox one except for the image key |
| Content.GetFavicon | content.js:35-47 | `null` without a link or href; origin + href for a `/` href; the resolved `link.href` otherwise |
| Content.OnMessage | content.js:50-59 | replies only to `getSelection`, with the selection, the cascade's author and the favicon; returns true for every message |
| Content.ReplyAgreesWithProbe | content.js:50-59 | the content script and the Firefox probe report the same selection and author for a page |
| PopupShared.ClearedCard | Firefox/popup.js:196-213 | the reset card is empty, hidden, without icon or background, exports disabled; format and font kept |
| PopupShared.CounterFor | Firefox/popup.js:78-92 | hidden iff the trimmed input is empty (the rest untouched); otherwise count, limit and indicator |
| PopupShared.PlanExport | Firefox/popup.js:228-237 | the empty quote is refused before the library check; download at scale 2 as JPEG, copy at scale 3 as PNG |
| FirefoxCard.Initial | Firefox/popup.js:19-27 | the opening state satisfies the invariant, with the card hidden |
| FirefoxCard.UpdateBackgroundToggle | Firefox/popup.js:104-117 | only the mode changes: forced to dark unless the image is allowed; keeps the invariant |
| FirefoxCard.ResetQuoteCard | Firefox/popup.js:196-213 | card cleared, image and data URL cleared, not page-derived, dark, nothing recorded as drawn; quote, author, URL, title and format kept |
| FirefoxCard.RenderedCard | Firefox/popup.js:119-178 | the truncated text within the word limit, the font size and line height for its word count and format, the domain of the current URL (empty without one), the trimmed author, the icon redrawn only when changed, and the data URL (else the raw image) in image mode |
| FirefoxCard.RenderQuoteCard | Firefox/popup.js:119-178 | an empty quote resets; otherwise the card drawn is `RenderedCard` of the state, shown, and the icon recorded as drawn; the invariant is kept, not restored |
| FirefoxCard.Redrawn | Firefox/popup.js:131-177 | the non-empty branch: the card is `RenderedCard` of the state; source fields, mode and image unchanged, icon recorded, invariant kept |
| FirefoxCard.UpdateWordCountDisplay | Firefox/popup.js:78-92 | only the counter changes, to the count for the trimmed input |
| FirefoxCard.OnQuoteInput | Firefox/popup.js:215-225 | the input handler keeps the invariant |
| FirefoxCard.OnFormatChange | Firefox/popup.js:350-357 | the format change keeps the invariant |
| FirefoxCard.OnBackgroundClick | Firefox/popup.js:359-380 | the background buttons keep the invariant |
| FirefoxCard.ApplyCapture | Firefox/popup.js:388-393 | quote replaced only by a truthy stored quote; author kept if undefined, else the string or `""`; image replaced only by a truthy stored image |
| FirefoxCard.OnStorageLoaded | Firefox/popup.js:385-414 | the storage callback keeps the invariant |
| FirefoxCard.OnStorageImageConverted | Firefox/popup.js:394-397 | the late data URL keeps the invariant |
| FirefoxCard.OnTabsQueried | Firefox/popup.js:417-431 | the tab callback keeps the invariant |
| FirefoxCard.ApplyProbe | Firefox/popup.js:436-468 | the card and the drawn-icon record are untouched; no new data means no change at all |
| FirefoxCard.OnPageContextResponse | Firefox/popup.js:433-475 | the probe callback keeps the invariant |
| FirefoxCard.OnProbeImageConverted | Firefox/popup.js:454-461 | the late data URL keeps the invariant |
| FirefoxCard.RenderReliesOnInvariant | Firefox/popup.js:119-178 | this render does not repair the mode: from a state outside the invariant, image mode survives it |
| FirefoxCard.QuoteInputBehaviour | Firefox/popup.js:215-225 | counter and export buttons follow the new value; clearing it forgets the image and goes dark; typing draws the truncated text and current icon |
| FirefoxCard.FormatChangeBehaviour | Firefox/popup.js:350-357 | the counter uses the new limit; a visible card is redrawn in the new format within its limit; a hidden card is untouched |
| FirefoxCard.BackgroundClickBehaviour | Firefox/popup.js:359-380 | image only when allowed, dark always, no-op on the current mode, the background follows the mode, the quote and its sources untouched |
| FirefoxCard.StorageLoadedBehaviour | Firefox/popup.js:385-414 | an empty capture only applies its fields; a `null` author becomes `""`, an undefined one keeps the old author; the quote only from a truthy value |
| FirefoxCard.StorageKeepsSource | Firefox/popup.js:401-412 | rendering after the capture never changes the quote, author, URL, title, icon or format |
| FirefoxCard.StorageQuoteRenders | Firefox/popup.js:401-412 | a non-empty stored quote gives a visible, exportable, page-derived card in dark mode, with the image allowed when one was stored |
| FirefoxCard.ApplyProbeFields | Firefox/popup.js:436-468 | new data iff text, truthy author or image; the text replaces the quote and marks it page-derived; only a truthy author overwrites; text or image forces dark |
| FirefoxCard.ProbeResponseBehaviour | Firefox/popup.js:433-475 | a transport error changes nothing; otherwise the fields above, then one render; an empty response changes nothing |
| FirefoxCard.ProbeImageKeepsSelectionFlag | Firefox/popup.js:452-468 | an image alone does not mark the quote page-derived |
| FirefoxCard.ExportGuards | Firefox/popup.js:228-275 | an empty quote is refused first; the download name is a safe base plus `.jpeg` |
| FirefoxCard.Export | Firefox/popup.js:228-275 | rasterises exactly when the quote is not blank and the library is loaded; the download is named after the sanitised title plus `.jpeg` |
| FirefoxCard.ArrivalOrderMatters | Firefox/popup.js:385-475 | a stored `null` author erases a probe author that came first but not one that comes after |
| FirefoxCard.StorageAuthor | Firefox/popup.js:389-390 | after the storage callback the author is kept, the stored string, or `""` |
| FirefoxCard.ProbeAuthor | Firefox/popup.js:444-451 | after the probe callback the author is replaced only by a non-empty string |
| FirefoxPopup.Popup.constructor | Firefox/popup.js:19-27 | the fields start in the opening state, which satisfies the invariant |
| FirefoxPopup.Popup.UpdateBackgroundToggle | Firefox/popup.js:104-117 | computes `FirefoxCard.UpdateBackgroundToggle` in place and keeps the invariant |
| FirefoxPopup.Popup.ResetQuoteCard | Firefox/popup.js:196-213 | computes `FirefoxCard.ResetQuoteCard` in place |
| FirefoxPopup.Popup.ClearCard | Firefox/popup.js:197-212 | the card is cleared and no icon is recorded as drawn; nothing else changes |
| FirefoxPopup.Popup.ForgetPageImage | Firefox/popup.js:205-208 | image, data URL, page-derived flag and mode are reset; nothing else changes |
| FirefoxPopup.Popup.DrawCard | Firefox/popup.js:120-172 | computes `FirefoxCard.RenderedCard` from the fields |
| FirefoxPopup.Popup.RenderQuoteCard | Firefox/popup.js:119-178 | computes `FirefoxCard.RenderQuoteCard` in place |
| FirefoxPopup.Popup.ShowCard | Firefox/popup.js:160-177 | the drawn card is shown and the current icon recorded; nothing else changes |
| FirefoxPopup.Popup.UpdateWordCountDisplay | Firefox/popup.js:78-92 | computes `FirefoxCard.UpdateWordCountDisplay` in place |
| FirefoxPopup.Popup.OnQuoteInput | Firefox/popup.js:215-225 | computes `FirefoxCard.OnQuoteInput` in place and keeps the invariant |
| FirefoxPopup.Popup.OnFormatChange | Firefox/popup.js:350-357 | computes `FirefoxCard.OnFormatChange` in place and keeps the invariant |
| FirefoxPopup.Popup.OnBackgroundClick | Firefox/popup.js:359-380 | computes `FirefoxCard.OnBackgroundClick` in place and keeps the invariant |
| FirefoxPopup.Popup.OnStorageLoaded | Firefox/popup.js:385-414 | computes `FirefoxCard.OnStorageLoaded` in place, keeps the invariant, and consumes the keys exactly when the capture holds data |
| FirefoxPopup.Popup.TakeCapture | Firefox/popup.js:388-393 | computes `FirefoxCard.ApplyCapture` in place |
| FirefoxPopup.Popup.OnStorageImageConverted | Firefox/popup.js:394-397 | computes `FirefoxCard.OnStorageImageConverted` in place and keeps the invariant |
| FirefoxPopup.Popup.OnTabsQueried | Firefox/popup.js:417-431 | computes `FirefoxCard.OnTabsQueried` in place and keeps the invariant |
| FirefoxPopup.Popup.TakeTab | Firefox/popup.js:419-425 | URL and title from the tab, icon only from a truthy favicon; nothing else changes |
| FirefoxPopup.Popup.OnPageContextResponse | Firefox/popup.js:433-475 | computes `FirefoxCard.OnPageContextResponse` in place and keeps the invariant |
| FirefoxPopup.Popup.TakeProbe | Firefox/popup.js:436-468 | computes `FirefoxCard.ApplyProbe` in place, with its new-data flag |
| FirefoxPopup.Popup.OnProbeImageConverted | Firefox/popup.js:454-461 | computes `FirefoxCard.OnProbeImageConverted` in place and keeps the invariant |
| FirefoxPopup.Popup.Export | Firefox/popup.js:228-275 | refused iff the quote is blank or the library is missing; the download is named after the sanitised title |
| ChromeCard.Initial | popup.js:19-25 | the opening state satisfies the invariant, with the card hidden |
| ChromeCard.UpdateBackgroundToggle | popup.js:91-104 | only the mode changes: forced to dark unless the image is allowed |
| ChromeCard.ResetQuoteCard | popup.js:182-198 | card cleared, image and data URL cleared, not page-derived, dark; quote, author, URL, icon and format kept |
| ChromeCard.RenderedCard | popup.js:106-164 | the truncated text within the word limit, the font size and line height for its word count and format, the domain of the current URL (empty without one), the trimmed author, the icon always redrawn, and the data URL (else the raw image) in image mode |
| ChromeCard.RenderQuoteCard | popup.js:106-164 | an empty quote resets; otherwise the mode is repaired first and the card drawn is `RenderedCard` of the repaired state, so the invariant holds afterwards from any state |
| ChromeCard.Redrawn | popup.js:117-163 | the non-empty branch: the card is `RenderedCard` of the repaired state; sources unchanged, the mode repaired, the invariant established |
| ChromeCard.UpdateWordCountDisplay | popup.js:65-79 | only the counter changes, to the count for the trimmed input |
| ChromeCard.OnQuoteInputChange | popup.js:200-210 | establishes the invariant, shows the card iff the trimmed input is non-empty, updates the counter, keeps the sources |
| ChromeCard.OnQuoteInput | popup.js:200-210 | the input handler establishes the invariant |
| ChromeCard.OnFormatChange | popup.js:334-341 | the format change keeps the invariant |
| ChromeCard.OnBackgroundClick | popup.js:343-354 | the background buttons keep the invariant |
| ChromeCard.ApplyCapture | popup.js:362-366 | quote and image only from truthy values; author kept if undefined, else the string or `""` |
| ChromeCard.OnStorageLoaded | popup.js:359-387 | the storage callback keeps the invariant |
| ChromeCard.OnImageConverted | popup.js:368-371 | the late data URL keeps the invariant |
| ChromeCard.OnTabsQueried | popup.js:390-399 | the tab callback keeps the invariant |
| ChromeCard.ApplyProbe | popup.js:404-432 | the card and counter are untouched, image mode stays allowed, and no new data means no change |
| ChromeCard.OnPageContextResponse | popup.js:401-435 | the probe callback keeps the invariant |
| ChromeCard.RenderRepairsMode | popup.js:147 | unlike Firefox, a render repairs an image mode that is not allowed |
| ChromeCard.QuoteInputBehaviour | popup.js:200-210 | counter and export buttons follow the new value; clearing forgets the image; typing draws the truncated text and current icon |
| ChromeCard.BackgroundClickBehaviour | popup.js:343-354 | image only when allowed, dark always, a visible card redrawn with the background matching the mode |
| ChromeCard.StorageLoadedBehaviour | popup.js:359-387 | an empty capture only applies its fields; a `null` author becomes `""`, an undefined one keeps the old author; the quote only from a truthy value |
| ChromeCard.StorageWithoutQuoteResets | popup.js:375-380 | an author-only capture onto an empty quote is marked page-derived and then reset at once |
| ChromeCard.StorageQuoteRenders | popup.js:375-380 | a non-empty stored quote gives a visible, exportable, page-derived card in dark mode with the current icon |
| ChromeCard.TabsQueriedResetsEmptyQuote | popup.js:390-399 | the tab callback always runs `onQuoteInputChange`, so an empty quote drops a stored image |
| ChromeCard.ApplyProbeFields | popup.js:404-432 | new data iff text, truthy author or image; the text replaces the quote; only a truthy author overwrites; text or image forces dark |
| ChromeCard.ProbeResponseBehaviour | popup.js:401-435 | a transport error changes nothing; otherwise the fields above, then one `onQuoteInputChange` |
| ChromeCard.QuoteInputChangeKeepsPage | popup.js:200-210 | `onQuoteInputChange` on a non-empty quote keeps the page image and the selection flag |
| ChromeCard.ExportGuards | popup.js:213-257 | an empty quote is refused first; the download is always `bluequote.jpeg` at scale 2 |
| ChromeCard.Export | popup.js:213-257 | rasterises exactly when the quote is not blank and the library is loaded; the download is always `bluequote.jpeg` |
| ChromePopup.Popup.constructor | popup.js:19-25 | the fields start in the opening state, which satisfies the invariant |
| ChromePopup.Popup.UpdateBackgroundToggle | popup.js:91-104 | computes `ChromeCard.UpdateBackgroundToggle` in place |
| ChromePopup.Popup.ResetQuoteCard | popup.js:182-198 | computes `ChromeCard.ResetQuoteCard` in place |
| ChromePopup.Popup.ClearCard | popup.js:183-197 | the card is cleared and hidden; nothing else changes |
| ChromePopup.Popup.ForgetPageImage | popup.js:190-193 | image, data URL, page-derived flag and mode are reset; nothing else changes |
| ChromePopup.Popup.DrawCard | popup.js:107-158 | computes `ChromeCard.RenderedCard` from the fields |
| ChromePopup.Popup.RenderQuoteCard | popup.js:106-164 | computes `ChromeCard.RenderQuoteCard` in place |
| ChromePopup.Popup.ShowCard | popup.js:160-163 | the drawn card is shown; nothing else changes |
| ChromePopup.Popup.UpdateWordCountDisplay | popup.js:65-79 | computes `ChromeCard.UpdateWordCountDisplay` in place |
| ChromePopup.Popup.OnQuoteInputChange | popup.js:200-210 | computes `ChromeCard.OnQuoteInputChange` in place and establishes the invariant |
| ChromePopup.Popup.OnQuoteInput | popup.js:200-210 | computes `ChromeCard.OnQuoteInput` in place and establishes the invariant |
| ChromePopup.Popup.TakeInput | popup.js:332 | the input field holds the new value; nothing else changes |
| ChromePopup.Popup.OnFormatChange | popup.js:334-341 | computes `ChromeCard.OnFormatChange` in place and keeps the invariant |
| ChromePopup.Popup.OnBackgroundClick | popup.js:343-354 | computes `ChromeCard.OnBackgroundClick` in place and keeps the invariant |
| ChromePopup.Popup.OnStorageLoaded | popup.js:359-387 | computes `ChromeCard.OnStorageLoaded` in place, keeps the invariant, and consumes the keys exactly when the capture holds data |
| ChromePopup.Popup.MarkSelection | popup.js:376-377 | the quote is marked page-derived and the mode set to dark; nothing else changes |
| ChromePopup.Popup.TakeCapture | popup.js:362-366 | computes `ChromeCard.ApplyCapture` in place |
| ChromePopup.Popup.OnImageConverted | popup.js:368-371 | computes `ChromeCard.OnImageConverted` in place and keeps the invariant |
| ChromePopup.Popup.OnTabsQueried | popup.js:390-399 | computes `ChromeCard.OnTabsQueried` in place and keeps the invariant |
| ChromePopup.Popup.TakeTab | popup.js:392-397 | URL from the tab, icon only from a truthy favicon; nothing else changes |
| ChromePopup.Popup.OnPageContextResponse | popup.js:401-435 | computes `ChromeCard.OnPageContextResponse` in place and keeps the invariant |
| ChromePopup.Popup.TakeProbe | popup.js:404-432 | computes `ChromeCard.ApplyProbe` in place, with its new-data flag |
| ChromePopup.Popup.Export | popup.js:213-257 | refused iff the quote is blank or the library is missing; the download is always `bluequote.jpeg` |

## Left out

- Rasterisation (`html2canvas`), `canvas.toBlob`, object URLs, download anchors and clipboard writes are foreign library and browser calls. Only the guard order, the scales, the MIME types and the file name are modelled (`PopupShared.PlanExport`). Whether `html2canvas` is loaded is an input.
- `convertImageToDataURL` (fetch plus `FileReader`) is not modelled. Its result arrives as an input to a separate callback (`OnStorageImageConverted`, `OnProbeImageConverted`, `OnImageConverted`), and its `null` is stored as `""`. The stored value is only ever read through `||`.
- DOM detail is abstracted to the values the scripts write (`CardView`, `CounterView`). Left out: `aria-pressed` and the hidden image button, the author line's `hidden` class, the `vertical`/`square` classes (kept as the format), spinners, success states, status messages and their timeouts. The `has-og-bg` class and the `--og-image` property are one `background` value.
- The popup's initial HTML is taken to be a hidden, empty card with exports disabled and a hidden counter. The HTML file is not part of this model.
- `storage.local` I/O, `runtime` messaging, `tabs.executeScript` / `scripting.executeScript`, `windows.create`, `action.openPopup` and context-menu registration (`ensureContextMenu`, including its self-call at `Firefox/background.js:5`) are host plumbing. The record read from storage, the tab, the probe response and the injection outcome are inputs. `storage.local.remove` is the `consumed` result of `OnStorageLoaded`.
- `JSON.parse`, `new URL(...)`, `document.querySelector` and `window.getSelection` are abstract inputs. `Page` holds the first matching tag's content per selector, the parse outcome of the first JSON-LD script, and the selection. URL resolution is a parameter that may fail.
- The interleaving of asynchronous callbacks is not modelled. Each callback is one atomic transition; `FirefoxCard.ArrivalOrderMatters` shows that the order of two of them matters.
- The Chrome popup's `getPageContext` request has no handler in `background.js`. The model treats its reply like any other `ProbeResponse`; a missing handler shows up as an error or an undefined response.
- Text.Trim, Compose.CleanTitle: a string here is a sequence of Unicode scalar values, while JavaScript strings are sequences of UTF-16 code units. For characters outside the Basic Multilingual Plane, lengths and `slice(0, 120)` differ, and a surrogate pair cut in half by the slice is not modelled. No Unicode normalisation is modelled.
- Metadata.JsonLdAuthor: a JSON-LD `author.name` that is not a string, `null` or `undefined` (a number, an object) is not modelled.
- `lineHeight.toFixed(2)` is the constant string for each format. `wordLimit * 0.8` is the exact comparison `5W > 4L`, which agrees with the floating-point one for the limits 60 and 75.
- ChromePopup.Popup.RenderQuoteCard: the script writes the text, author, domain and icon before its `updateBackgroundToggle()` and the background after it. The method repairs the mode first and writes the card at once. None of the content depends on the mode, so the final state is the same, but the order of the individual DOM writes is not modelled.
- ChromePopup.Popup.TakeProbe: the `else if (!currentAuthor) currentAuthor = ""` branch for a falsy author is omitted, because it only ever writes `""` over `""`.
- FirefoxCard.ApplyProbe, FirefoxPopup.Popup.TakeProbe, ChromeCard.ApplyProbe: the same branch (`Firefox/popup.js:448-449`, `popup.js:416-417`) is omitted for the same reason.
