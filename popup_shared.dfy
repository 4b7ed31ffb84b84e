/**
 * What both popup scripts (Firefox/popup.js, popup.js) share besides the
 * composition helpers: the abstract view of the card and of the word counter
 * (the DOM reduced to the values the scripts write), the inputs the callbacks
 * receive, and the guard in front of rasterisation.
 */
module PopupShared {
  import opened Wrappers
  import opened Text
  import opened Compose
  import FirefoxBackground

  /**
   * The rendered card: the quote text and its font metrics, the author and
   * domain lines, the format class, the icon shown, the `--og-image` URL (set
   * together with the `has-og-bg` class), whether `#result` is visible and
   * whether the two export buttons are enabled.
   */
  datatype CardView = CardView(
    text: string,
    author: string,
    domain: string,
    fontSize: int,
    lineHeight: string,
    format: Format,
    icon: Option<string>,
    background: Option<string>,
    resultVisible: bool,
    exportEnabled: bool)

  /**
   * The card as the popup opens: hidden, nothing in it, exports disabled; a
   * font size of 0 and an empty line height stand for the stylesheet's own.
   */
  function BlankCard(format: Format): (c: CardView)
    ensures !c.resultVisible && !c.exportEnabled && c.background == None && c.icon == None
  {
    CardView("", "", "", 0, "", format, None, None, false, false)
  }

  /** What `resetQuoteCard` does to the card; the style and format classes stay as they were. */
  function ClearedCard(card: CardView): (c: CardView)
    ensures !c.resultVisible && !c.exportEnabled && c.background == None && c.icon == None
    ensures c.text == "" && c.author == "" && c.domain == ""
    ensures c.fontSize == card.fontSize && c.lineHeight == card.lineHeight && c.format == card.format
  {
    card.(text := "", author := "", domain := "", icon := None, background := None,
          resultVisible := false, exportEnabled := false)
  }

  /** The word counter under the input: hidden, or `count / limit words` with its indicator. */
  datatype CounterView = CounterView(hidden: bool, count: nat, limit: nat, indicator: Indicator)

  /** `updateWordCountDisplay`: an empty trimmed input only hides the counter. */
  function CounterFor(counter: CounterView, quoteInput: string, format: Format): (c: CounterView)
    ensures c.hidden <==> AllSpace(quoteInput)
    ensures c.hidden ==> c == counter.(hidden := true)
    ensures !c.hidden ==> c.count == CountWords(Trim(quoteInput)) && c.limit == WordLimit(format)
                          && c.indicator == WordLimitIndicator(c.count, c.limit)
  {
    var inputText := Trim(quoteInput);
    if inputText == [] then counter.(hidden := true)
    else
      var wordCount := CountWords(inputText);
      var wordLimit := WordLimit(format);
      CounterView(false, wordCount, wordLimit, WordLimitIndicator(wordCount, wordLimit))
  }

  /** The active tab as `tabs.query` reports it (`tabs[0]`). */
  datatype Tab = Tab(url: Option<string>, title: Option<string>, favIconUrl: Option<string>)

  /** The reply to `{ action: "getPageContext" }`: a transport error, or a response (possibly undefined). */
  datatype ProbeResponse = LastError | Response(context: Option<FirefoxBackground.PageContext>)

  datatype ExportKind = Download | Copy

  /** What an export click leads to: a status message, or rasterisation at a scale into a format. */
  datatype ExportPlan = Refused(message: string) | Rasterize(scale: nat, mimeType: string, fileName: Option<string>)

  /**
   * `renderQuoteToCanvas` with its caller: the empty-quote check comes before
   * the library check; download renders at scale 2 as JPEG under `fileName`,
   * copy at scale 3 as PNG.
   */
  function PlanExport(quoteInput: string, libraryLoaded: bool, kind: ExportKind, fileName: string): (p: ExportPlan)
    ensures AllSpace(quoteInput) ==> p == Refused("Add a quote first.")
    ensures !AllSpace(quoteInput) && !libraryLoaded ==> p == Refused("Library not loaded. Please reload.")
    ensures !AllSpace(quoteInput) && libraryLoaded ==> p.Rasterize?
    ensures p.Rasterize? && kind == Download ==> p.scale == 2 && p.mimeType == "image/jpeg" && p.fileName == Some(fileName)
    ensures p.Rasterize? && kind == Copy ==> p.scale == 3 && p.mimeType == "image/png" && p.fileName == None
  {
    if Trim(quoteInput) == [] then Refused("Add a quote first.")
    else if !libraryLoaded then Refused("Library not loaded. Please reload.")
    else match kind
      case Download => Rasterize(2, "image/jpeg", Some(fileName))
      case Copy => Rasterize(3, "image/png", None)
  }
}
