/**
 * The Chrome popup (popup.js): the card state that the popup's `let`
 * variables hold (lines 19-25), with the quote input, the card and the word
 * counter, and the handlers and callbacks that change it.
 *
 * This variant has no page title and no icon cache: every render redraws the
 * icon and calls `updateBackgroundToggle` itself, and the handlers go through
 * `onQuoteInputChange` where the Firefox variant renders directly. The class
 * `ChromePopup.Popup` keeps the same state in fields, and its methods are
 * proved to compute exactly these functions.
 */
module ChromeCard {
  import opened Wrappers
  import opened Text
  import opened Compose
  import opened Metadata
  import opened PopupShared
  import FirefoxBackground

  datatype State = State(
    quoteInput: string,
    currentQuoteIcon: Option<string>,
    currentAuthor: string,
    currentUrl: string,
    currentOgImage: string,
    currentOgImageDataURL: string,   // `null` from a failed conversion is kept as ""
    isSelectionQuote: bool,
    backgroundMode: Mode,
    format: Format,
    card: CardView,
    counter: CounterView)

  /** The state when the popup opens, after the initial `updateBackgroundToggle()` (line 357). */
  function Initial(format: Format): (s: State)
    ensures Inv(s) && !s.isSelectionQuote && !s.card.resultVisible
  {
    State("", None, "", "", "", "", false, Dark, format, BlankCard(format), CounterView(true, 0, 0, Plain))
  }

  /** The image background is allowed: a page-derived quote with an `og:image`. */
  predicate CanUseImage(s: State) {
    s.isSelectionQuote && s.currentOgImage != ""
  }

  /** Image mode only when it is allowed. */
  predicate ImageAllowed(s: State) {
    s.backgroundMode == Image ==> CanUseImage(s)
  }

  /** The card, and with it the export buttons, is shown exactly when there is a quote. */
  predicate Shown(s: State) {
    (s.card.resultVisible <==> !AllSpace(s.quoteInput)) && s.card.exportEnabled == s.card.resultVisible
  }

  /**
   * The card's background is exactly what the state calls for: the image URL
   * while the card is shown in image mode, none otherwise.
   */
  predicate Painted(s: State) {
    s.card.background == if s.card.resultVisible && s.backgroundMode == Image then Some(ImageUrl(s)) else None
  }

  /** The invariant every handler keeps. */
  predicate Inv(s: State) {
    ImageAllowed(s) && Shown(s) && Painted(s)
  }

  /** The background URL: the data URL when there is one, the raw `og:image` otherwise. */
  function ImageUrl(s: State): string {
    if s.currentOgImageDataURL != "" then s.currentOgImageDataURL else s.currentOgImage
  }

  /** What the user and the page supplied, which rendering and resetting never change. */
  predicate SameSource(s: State, r: State) {
    r.quoteInput == s.quoteInput && r.currentAuthor == s.currentAuthor && r.currentUrl == s.currentUrl
    && r.currentQuoteIcon == s.currentQuoteIcon && r.format == s.format
  }

  // ------------------------------------------------------- state transitions

  /** `updateBackgroundToggle` (lines 91-104). */
  function UpdateBackgroundToggle(s: State): (r: State)
    ensures ImageAllowed(r) && (Shown(s) ==> Shown(r))
    ensures r == s.(backgroundMode := if CanUseImage(s) then s.backgroundMode else Dark)
  {
    if CanUseImage(s) then s else s.(backgroundMode := Dark)
  }

  /** `resetQuoteCard` (lines 182-198). */
  function ResetQuoteCard(s: State): (r: State)
    ensures SameSource(s, r) && r.counter == s.counter
    ensures ImageAllowed(r) && (AllSpace(s.quoteInput) ==> Inv(r))
    ensures r.backgroundMode == Dark && !r.isSelectionQuote
    ensures r.currentOgImage == "" && r.currentOgImageDataURL == ""
    ensures r.card == ClearedCard(s.card)
  {
    UpdateBackgroundToggle(s.(card := ClearedCard(s.card), currentOgImage := "", currentOgImageDataURL := "",
                              isSelectionQuote := false, backgroundMode := Dark))
  }

  /** The card `renderQuoteCard` draws for a non-empty quote, after its own `updateBackgroundToggle`. */
  function RenderedCard(s: State): (c: CardView)
    requires !AllSpace(s.quoteInput) && ImageAllowed(s)
    ensures c.resultVisible && c.exportEnabled && c.format == s.format
    ensures c.text == LayoutFor(Trim(s.quoteInput), s.format).text
    ensures 1 <= CountWords(c.text) <= WordLimit(s.format) && 23 <= c.fontSize
    ensures c.fontSize == FontSize(CountWords(c.text), s.format == Vertical)
    ensures c.lineHeight == LineHeight(s.format == Vertical)
    ensures c.author == Trim(s.currentAuthor)
    ensures c.domain == if s.currentUrl != "" then ExtractDomain(s.currentUrl) else ""
    ensures c.icon == NonEmpty(s.currentQuoteIcon)
    ensures c.background == if s.backgroundMode == Image then Some(ImageUrl(s)) else None
  {
    var layout := LayoutFor(Trim(s.quoteInput), s.format);
    LayoutWithinLimits(Trim(s.quoteInput), s.format);
    var useImage := CanUseImage(s) && s.backgroundMode == Image;
    CardView(
      layout.text, Trim(s.currentAuthor),
      if s.currentUrl != "" then ExtractDomain(s.currentUrl) else "",
      layout.fontSize, layout.lineHeight, s.format, NonEmpty(s.currentQuoteIcon),
      if useImage then Some(ImageUrl(s)) else None,
      true, true)
  }

  /**
   * `renderQuoteCard` (lines 106-164): an empty quote resets the card, any
   * other redraws it, icon included; the mode is repaired before the
   * background is chosen, so the result keeps the invariant from any state.
   */
  function RenderQuoteCard(s: State): (r: State)
    ensures SameSource(s, r) && r.counter == s.counter
    ensures r.card.resultVisible <==> !AllSpace(s.quoteInput)
    ensures AllSpace(s.quoteInput) ==> r == ResetQuoteCard(s)
    ensures !AllSpace(s.quoteInput) ==> r.isSelectionQuote == s.isSelectionQuote && r.currentOgImage == s.currentOgImage
                                        && r.currentOgImageDataURL == s.currentOgImageDataURL
                                        && r.backgroundMode == (if CanUseImage(s) then s.backgroundMode else Dark)
    ensures !AllSpace(s.quoteInput) ==> r.card == RenderedCard(UpdateBackgroundToggle(s))
    ensures Inv(r)
  {
    if Trim(s.quoteInput) == [] then ResetQuoteCard(s)
    else Redrawn(s)
  }

  /** The non-empty branch of `renderQuoteCard`: repair the mode, then draw. */
  function Redrawn(s: State): (r: State)
    requires !AllSpace(s.quoteInput)
    ensures SameSource(s, r) && r.counter == s.counter && r.card.resultVisible
    ensures r.isSelectionQuote == s.isSelectionQuote && r.currentOgImage == s.currentOgImage
            && r.currentOgImageDataURL == s.currentOgImageDataURL
            && r.backgroundMode == (if CanUseImage(s) then s.backgroundMode else Dark)
    ensures r.card == RenderedCard(UpdateBackgroundToggle(s))
    ensures Inv(r)
  {
    var s1 := UpdateBackgroundToggle(s);
    var c := RenderedCard(s1);
    PaintedAfterDraw(s1, c);
    s1.(card := c)
  }

  /** A shown card drawn with the background the mode calls for is painted as the invariant demands. */
  lemma PaintedAfterDraw(s: State, c: CardView)
    requires c.resultVisible
    requires c.background == if s.backgroundMode == Image then Some(ImageUrl(s)) else None
    ensures Painted(s.(card := c))
  {
  }

  /** `updateWordCountDisplay` (lines 65-79): only the counter changes. */
  function UpdateWordCountDisplay(s: State): (r: State)
    ensures r == s.(counter := r.counter)
    ensures r.counter == CounterFor(s.counter, s.quoteInput, s.format)
  {
    s.(counter := CounterFor(s.counter, s.quoteInput, s.format))
  }

  /** `onQuoteInputChange` (lines 200-210). */
  function OnQuoteInputChange(s: State): (r: State)
    ensures Inv(r) && SameSource(s, r)
    ensures r.card.resultVisible <==> !AllSpace(s.quoteInput)
    ensures r.counter == CounterFor(s.counter, s.quoteInput, s.format)
  {
    var s1 := UpdateWordCountDisplay(s);
    if Trim(s1.quoteInput) != [] then RenderQuoteCard(s1) else ResetQuoteCard(s1)
  }

  /** The `input` listener: the field now holds `value`, then `onQuoteInputChange`. */
  function OnQuoteInput(s: State, value: string): (r: State)
    ensures Inv(r)
  {
    OnQuoteInputChange(s.(quoteInput := value))
  }

  /** The format radio's `change` listener (lines 334-341). */
  function OnFormatChange(s: State, format: Format): (r: State)
    ensures Inv(s) ==> Inv(r)
  {
    var s1 := UpdateWordCountDisplay(s.(format := format));
    if s1.card.resultVisible then RenderQuoteCard(s1) else s1
  }

  /** A background button's `click` listener (lines 343-354): no early return on the current mode. */
  function OnBackgroundClick(s: State, mode: Mode): (r: State)
    ensures Inv(s) ==> Inv(r)
  {
    if mode == Image && !CanUseImage(s) then s
    else
      var s1 := UpdateBackgroundToggle(s.(backgroundMode := mode));
      if s1.card.resultVisible then RenderQuoteCard(s1) else s1
  }

  /** The stored capture holds something: the condition of line 375. */
  predicate CaptureHasData(d: FirefoxBackground.CaptureRecord) {
    JsTruthy(d.selectedQuote) || JsTruthy(d.selectedAuthor) || JsTruthy(d.selectedOgImage)
  }

  /** The field updates of the storage callback (lines 362-367). */
  function ApplyCapture(s: State, d: FirefoxBackground.CaptureRecord): (r: State)
    ensures r == s.(quoteInput := r.quoteInput, currentAuthor := r.currentAuthor, currentOgImage := r.currentOgImage)
    ensures r.quoteInput == if JsTruthy(d.selectedQuote) then d.selectedQuote.s else s.quoteInput
    ensures r.currentAuthor == if d.selectedAuthor == Undefined then s.currentAuthor
                               else if JsTruthy(d.selectedAuthor) then d.selectedAuthor.s else ""
    ensures r.currentOgImage == if JsTruthy(d.selectedOgImage) then d.selectedOgImage.s else s.currentOgImage
  {
    var s1 := if JsTruthy(d.selectedQuote) then s.(quoteInput := d.selectedQuote.s) else s;
    var s2 := if d.selectedAuthor != Undefined
              then s1.(currentAuthor := if JsTruthy(d.selectedAuthor) then d.selectedAuthor.s else "")
              else s1;
    if JsTruthy(d.selectedOgImage) then s2.(currentOgImage := d.selectedOgImage.s) else s2
  }

  /** The `storage.local.get` callback (lines 359-387); the keys are removed exactly when `CaptureHasData`. */
  function OnStorageLoaded(s: State, d: FirefoxBackground.CaptureRecord): (r: State)
    ensures Inv(s) ==> Inv(r)
  {
    var s1 := ApplyCapture(s, d);
    if CaptureHasData(d) then
      OnQuoteInputChange(UpdateBackgroundToggle(s1.(isSelectionQuote := true, backgroundMode := Dark)))
    else
      EmptyCaptureKeepsInv(s, d);
      s1
  }

  /** A capture without data changes at most the author, which the invariant does not mention. */
  lemma EmptyCaptureKeepsInv(s: State, d: FirefoxBackground.CaptureRecord)
    requires !CaptureHasData(d)
    ensures Inv(s) ==> Inv(ApplyCapture(s, d))
  {
    assert ApplyCapture(s, d) == s.(currentAuthor := ApplyCapture(s, d).currentAuthor);
  }

  /** The `convertImageToDataURL(...).then` of both the storage and the probe path (lines 368-371, 422-425). */
  function OnImageConverted(s: State, dataUrl: Option<string>): (r: State)
    ensures Inv(s) ==> Inv(r)
  {
    var s1 := s.(currentOgImageDataURL := dataUrl.GetOr(""));
    if s1.backgroundMode == Image then RenderQuoteCard(s1) else s1
  }

  /** The `tabs.query` callback up to the probe request (lines 390-399): it always runs `onQuoteInputChange`. */
  function OnTabsQueried(s: State, tab: Option<Tab>): (r: State)
    ensures Inv(s) ==> Inv(r)
  {
    match tab
    case None => s
    case Some(t) =>
      OnQuoteInputChange(s.(currentUrl := t.url.GetOr(""),
                            currentQuoteIcon := if Truthy(t.favIconUrl) then t.favIconUrl else s.currentQuoteIcon))
  }

  /** The three fields the probe callback destructures from `response || {}`. */
  function ProbeFields(c: Option<FirefoxBackground.PageContext>): (string, JsValue, Option<string>) {
    match c
    case None => ("", Undefined, None)
    case Some(ctx) => (ctx.selectedText, ctx.author, ctx.ogImageUrl)
  }

  /** The field updates of the probe callback (lines 404-432), and whether anything new arrived. */
  function ApplyProbe(s: State, c: Option<FirefoxBackground.PageContext>): (r: (State, bool))
    ensures r.0.card == s.card && r.0.counter == s.counter && (ImageAllowed(s) ==> ImageAllowed(r.0))
    ensures !r.1 ==> r.0 == s
  {
    var (selectedText, author, ogImageUrl) := ProbeFields(c);
    var s1 := if selectedText != "" then s.(quoteInput := selectedText, isSelectionQuote := true) else s;
    var s2 := if JsTruthy(author) then s1.(currentAuthor := author.s) else s1;
    var s3 := if Truthy(ogImageUrl) then s2.(currentOgImage := ogImageUrl.value) else s2;
    var s4 := if selectedText != "" || Truthy(ogImageUrl) then UpdateBackgroundToggle(s3.(backgroundMode := Dark)) else s3;
    (s4, selectedText != "" || JsTruthy(author) || Truthy(ogImageUrl))
  }

  /** The `getPageContext` response callback (lines 401-435). */
  function OnPageContextResponse(s: State, response: ProbeResponse): (r: State)
    ensures Inv(s) ==> Inv(r)
  {
    match response
    case LastError => s
    case Response(c) =>
      var (s1, hasNewData) := ApplyProbe(s, c);
      if hasNewData then OnQuoteInputChange(s1) else s1
  }

  /** The download and copy handlers up to rasterisation (lines 213-286); the name is fixed. */
  function Export(s: State, libraryLoaded: bool, kind: ExportKind): (r: ExportPlan)
    ensures r.Rasterize? <==> !AllSpace(s.quoteInput) && libraryLoaded
    ensures r.Rasterize? && kind == Download ==> r.fileName == Some("bluequote.jpeg")
  {
    PlanExport(s.quoteInput, libraryLoaded, kind, "bluequote.jpeg")
  }

  // ------------------------------------------------------------ properties

  /** Unlike the Firefox variant, a render repairs an image mode that is not allowed. */
  lemma RenderRepairsMode()
    ensures var s := Initial(Square).(quoteInput := "a", backgroundMode := Image);
            !Inv(s) && RenderQuoteCard(s).backgroundMode == Dark && RenderQuoteCard(s).card.background == None
  {
    var s := Initial(Square).(quoteInput := "a", backgroundMode := Image);
    assert s.quoteInput[0] == 'a' && !IsSpace('a');
  }

  /** Typing: the counter and the export buttons follow the new value; clearing it forgets the page's image. */
  lemma QuoteInputBehaviour(s: State, value: string)
    ensures var r := OnQuoteInput(s, value);
            r.quoteInput == value
            && (r.counter.hidden <==> AllSpace(value))
            && (r.card.exportEnabled <==> !AllSpace(value))
            && (AllSpace(value) ==> !r.isSelectionQuote && r.currentOgImage == "" && r.backgroundMode == Dark)
            && (!AllSpace(value) ==> r.card.text == LayoutFor(Trim(value), s.format).text
                                     && r.card.icon == NonEmpty(s.currentQuoteIcon))
  {
  }

  /** The background buttons: image only when allowed, dark always, and a visible card is redrawn in the mode. */
  lemma BackgroundClickBehaviour(s: State, mode: Mode)
    requires Inv(s)
    ensures var r := OnBackgroundClick(s, mode);
            (mode == Image && !CanUseImage(s) ==> r == s)
            && (mode == Dark ==> r.backgroundMode == Dark)
            && (mode == Image && CanUseImage(s) ==> r.backgroundMode == Image)
            && (r.card.resultVisible && s.card.resultVisible ==> (r.card.background.Some? <==> r.backgroundMode == Image))
            && r.quoteInput == s.quoteInput && r.currentAuthor == s.currentAuthor
  {
  }

  /**
   * A capture whose quote is empty but whose author is set still marks the
   * quote page-derived, and `onQuoteInputChange` then resets it at once.
   */
  lemma StorageWithoutQuoteResets(s: State, d: FirefoxBackground.CaptureRecord)
    requires AllSpace(s.quoteInput) && !JsTruthy(d.selectedQuote) && JsTruthy(d.selectedAuthor)
    ensures var r := OnStorageLoaded(s, d);
            !r.isSelectionQuote && r.currentOgImage == "" && !r.card.resultVisible
            && r.currentAuthor == d.selectedAuthor.s
  {
  }

  /** The storage callback: what it takes from the capture, and that an empty capture renders nothing. */
  lemma StorageLoadedBehaviour(s: State, d: FirefoxBackground.CaptureRecord)
    ensures var r := OnStorageLoaded(s, d);
            (!CaptureHasData(d) ==> r == ApplyCapture(s, d))
            && (d.selectedAuthor == Null ==> r.currentAuthor == "")
            && (d.selectedAuthor == Undefined ==> r.currentAuthor == s.currentAuthor)
            && (JsTruthy(d.selectedAuthor) ==> r.currentAuthor == d.selectedAuthor.s)
            && (JsTruthy(d.selectedQuote) ==> r.quoteInput == d.selectedQuote.s)
            && (!JsTruthy(d.selectedQuote) ==> r.quoteInput == s.quoteInput)
  {
  }

  /** A capture with a non-empty quote leaves a visible, selection-derived card in dark mode. */
  lemma StorageQuoteRenders(s: State, d: FirefoxBackground.CaptureRecord)
    requires JsTruthy(d.selectedQuote) && !AllSpace(d.selectedQuote.s)
    ensures var r := OnStorageLoaded(s, d);
            r.isSelectionQuote && r.backgroundMode == Dark && r.card.resultVisible && r.card.exportEnabled
            && r.quoteInput == d.selectedQuote.s && r.card.icon == NonEmpty(s.currentQuoteIcon)
            && (JsTruthy(d.selectedOgImage) ==> CanUseImage(r))
  {
  }

  /**
   * The tab callback always runs `onQuoteInputChange`: with an empty quote it
   * resets, dropping an image a capture stored before it.
   */
  lemma TabsQueriedResetsEmptyQuote(s: State, t: Tab)
    requires AllSpace(s.quoteInput)
    ensures var r := OnTabsQueried(s, Some(t));
            !r.isSelectionQuote && r.currentOgImage == "" && !r.card.resultVisible && r.counter.hidden
            && r.currentUrl == t.url.GetOr("")
  {
  }

  /** What the probe callback takes from a response, before it re-runs `onQuoteInputChange`. */
  lemma ApplyProbeFields(s: State, c: Option<FirefoxBackground.PageContext>)
    ensures var (text, author, image) := ProbeFields(c);
            var (r, hasNewData) := ApplyProbe(s, c);
            (hasNewData <==> text != "" || JsTruthy(author) || Truthy(image))
            && (text != "" ==> r.quoteInput == text && r.isSelectionQuote)
            && (text == "" ==> r.quoteInput == s.quoteInput && r.isSelectionQuote == s.isSelectionQuote)
            && (r.currentAuthor == if JsTruthy(author) then author.s else s.currentAuthor)
            && (Truthy(image) ==> r.currentOgImage == image.value)
            && (text != "" || Truthy(image) ==> r.backgroundMode == Dark)
            && (!hasNewData ==> r == s)
  {
  }

  /** The probe callback: an error changes nothing; otherwise the fields above, then one `onQuoteInputChange`. */
  lemma {:induction false} ProbeResponseBehaviour(s: State, response: ProbeResponse)
    ensures var r := OnPageContextResponse(s, response);
            (response.LastError? ==> r == s)
            && (response.Response? ==>
                  var (text, author, image) := ProbeFields(response.context);
                  (r.currentAuthor == if JsTruthy(author) then author.s else s.currentAuthor)
                  && (r.quoteInput == if text != "" then text else s.quoteInput)
                  && (Truthy(image) && !AllSpace(r.quoteInput) ==> r.currentOgImage == image.value)
                  && (text != "" && !AllSpace(text) ==> r.isSelectionQuote && r.card.resultVisible)
                  && (text == "" && !JsTruthy(author) && !Truthy(image) ==> r == s))
  {
    if response.Response? {
      ApplyProbeFields(s, response.context);
      var (s1, hasNewData) := ApplyProbe(s, response.context);
      if hasNewData {
        QuoteInputChangeKeepsPage(s1);
      }
    }
  }

  /** Redrawing a non-empty quote keeps the page's image and the selection flag. */
  lemma QuoteInputChangeKeepsPage(s: State)
    ensures !AllSpace(s.quoteInput) ==> OnQuoteInputChange(s).currentOgImage == s.currentOgImage
                                         && OnQuoteInputChange(s).isSelectionQuote == s.isSelectionQuote
  {
    var s1 := UpdateWordCountDisplay(s);
    assert !AllSpace(s.quoteInput) ==> OnQuoteInputChange(s) == RenderQuoteCard(s1);
  }

  /** An empty quote is refused before the library is looked at; the download is always `bluequote.jpeg`. */
  lemma ExportGuards(s: State, libraryLoaded: bool, kind: ExportKind)
    ensures AllSpace(s.quoteInput) ==> Export(s, libraryLoaded, kind) == Refused("Add a quote first.")
    ensures !AllSpace(s.quoteInput) && libraryLoaded && kind == Download ==>
              Export(s, libraryLoaded, kind) == Rasterize(2, "image/jpeg", Some("bluequote.jpeg"))
  {
  }
}
