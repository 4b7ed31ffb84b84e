/**
 * The Firefox popup (Firefox/popup.js): the card state that the popup's
 * `let` variables hold (lines 19-27), with the quote input, the card and the
 * word counter, and the handlers and callbacks that change it.
 *
 * Each handler is given here as a function on a `State` value and the
 * properties are proved about those functions; the class `FirefoxPopup.Popup`
 * keeps the same state in fields, and its methods are proved to compute
 * exactly these functions.
 */
module FirefoxCard {
  import opened Wrappers
  import opened Text
  import opened Compose
  import opened Metadata
  import opened PopupShared
  import FirefoxBackground

  datatype State = State(
    quoteInput: string,
    currentQuoteIcon: Option<string>,
    renderedQuoteIcon: Option<string>,
    currentAuthor: string,
    currentUrl: string,
    currentTitle: string,
    currentOgImage: string,
    currentOgImageDataURL: string,   // `null` from a failed conversion is kept as ""
    isSelectionQuote: bool,
    backgroundMode: Mode,
    format: Format,
    card: CardView,
    counter: CounterView)

  /** The state when the popup opens, after the initial `updateBackgroundToggle()` (line 383). */
  function Initial(format: Format): (s: State)
    ensures Inv(s) && !s.isSelectionQuote && !s.card.resultVisible
  {
    State("", None, None, "", "", "", "", "", false, Dark, format, BlankCard(format), CounterView(true, 0, 0, Plain))
  }

  /** The image background is allowed: a page-derived quote with an `og:image`. */
  predicate CanUseImage(s: State) {
    s.isSelectionQuote && s.currentOgImage != ""
  }

  /** Image mode only when it is allowed. */
  predicate ImageAllowed(s: State) {
    s.backgroundMode == Image ==> CanUseImage(s)
  }

  /** The icon shown is the one `renderedQuoteIcon` records, so the skip-if-unchanged cache is never stale. */
  predicate IconCurrent(s: State) {
    s.card.icon == NonEmpty(s.renderedQuoteIcon)
  }

  /** The card, and with it the export buttons, is shown exactly when there is a quote. */
  predicate Shown(s: State) {
    (s.card.resultVisible <==> !AllSpace(s.quoteInput)) && s.card.exportEnabled == s.card.resultVisible
  }

  /**
   * The card's background is exactly what the state calls for: the image URL
   * while the card is shown in image mode, none otherwise.
   */
  predicate Painted(s: State) {
    s.card.background == if s.card.resultVisible && s.backgroundMode == Image then Some(ImageUrl(s)) else None
  }

  /** The invariant every handler keeps. */
  predicate Inv(s: State) {
    ImageAllowed(s) && IconCurrent(s) && Shown(s) && Painted(s)
  }

  /** The background URL: the data URL when there is one, the raw `og:image` otherwise. */
  function ImageUrl(s: State): string {
    if s.currentOgImageDataURL != "" then s.currentOgImageDataURL else s.currentOgImage
  }

  // ------------------------------------------------------- state transitions

  /** `updateBackgroundToggle` (lines 104-117). */
  function UpdateBackgroundToggle(s: State): (r: State)
    ensures ImageAllowed(r) && (Inv(s) ==> Inv(r))
    ensures r == s.(backgroundMode := if CanUseImage(s) then s.backgroundMode else Dark)
  {
    if CanUseImage(s) then s else s.(backgroundMode := Dark)
  }

  /** What the user and the page supplied, which rendering and resetting never change. */
  predicate SameSource(s: State, r: State) {
    r.quoteInput == s.quoteInput && r.currentAuthor == s.currentAuthor && r.currentUrl == s.currentUrl
    && r.currentTitle == s.currentTitle && r.currentQuoteIcon == s.currentQuoteIcon && r.format == s.format
  }

  /** `resetQuoteCard` (lines 196-213). */
  function ResetQuoteCard(s: State): (r: State)
    ensures SameSource(s, r) && r.counter == s.counter
    ensures ImageAllowed(r) && IconCurrent(r) && (AllSpace(s.quoteInput) ==> Inv(r))
    ensures r.backgroundMode == Dark && !r.isSelectionQuote
    ensures r.currentOgImage == "" && r.currentOgImageDataURL == "" && r.renderedQuoteIcon == None
    ensures r.card == ClearedCard(s.card)
  {
    UpdateBackgroundToggle(s.(card := ClearedCard(s.card), renderedQuoteIcon := None,
                              currentOgImage := "", currentOgImageDataURL := "",
                              isSelectionQuote := false, backgroundMode := Dark))
  }

  /** The card `renderQuoteCard` draws for a non-empty quote. */
  function RenderedCard(s: State): (c: CardView)
    requires !AllSpace(s.quoteInput)
    ensures c.resultVisible && c.exportEnabled && c.format == s.format
    ensures c.text == LayoutFor(Trim(s.quoteInput), s.format).text
    ensures 1 <= CountWords(c.text) <= WordLimit(s.format) && 23 <= c.fontSize
    ensures c.fontSize == FontSize(CountWords(c.text), s.format == Vertical)
    ensures c.lineHeight == LineHeight(s.format == Vertical)
    ensures c.author == Trim(s.currentAuthor)
    ensures c.domain == if s.currentUrl != "" then ExtractDomain(s.currentUrl) else ""
    ensures ImageAllowed(s) ==> c.background == if s.backgroundMode == Image then Some(ImageUrl(s)) else None
    ensures s.currentQuoteIcon != s.renderedQuoteIcon ==> c.icon == NonEmpty(s.currentQuoteIcon)
    ensures s.currentQuoteIcon == s.renderedQuoteIcon ==> c.icon == s.card.icon
  {
    var layout := LayoutFor(Trim(s.quoteInput), s.format);
    LayoutWithinLimits(Trim(s.quoteInput), s.format);
    var icon := if s.currentQuoteIcon != s.renderedQuoteIcon then NonEmpty(s.currentQuoteIcon) else s.card.icon;
    var useImage := CanUseImage(s) && s.backgroundMode == Image;
    CardView(
      layout.text, Trim(s.currentAuthor),
      if s.currentUrl != "" then ExtractDomain(s.currentUrl) else "",
      layout.fontSize, layout.lineHeight, s.format, icon,
      if useImage then Some(ImageUrl(s)) else None,
      true, true)
  }

  /**
   * `renderQuoteCard` (lines 119-178): an empty quote resets the card, any
   * other redraws it and records the icon drawn; this variant does not call
   * `updateBackgroundToggle`, so it keeps the invariant but does not restore it.
   */
  function RenderQuoteCard(s: State): (r: State)
    ensures SameSource(s, r) && r.counter == s.counter
    ensures r.card.resultVisible <==> !AllSpace(s.quoteInput)
    ensures AllSpace(s.quoteInput) ==> r == ResetQuoteCard(s)
    ensures !AllSpace(s.quoteInput) ==> r.isSelectionQuote == s.isSelectionQuote && r.currentOgImage == s.currentOgImage
                                        && r.currentOgImageDataURL == s.currentOgImageDataURL
                                        && r.backgroundMode == s.backgroundMode && r.renderedQuoteIcon == s.currentQuoteIcon
    ensures ImageAllowed(s) && IconCurrent(s) ==> Inv(r)
    ensures IconCurrent(s) && !AllSpace(s.quoteInput) ==> r.card.icon == NonEmpty(s.currentQuoteIcon)
    ensures !AllSpace(s.quoteInput) ==> r.card == RenderedCard(s)
  {
    if Trim(s.quoteInput) == [] then ResetQuoteCard(s)
    else Redrawn(s)
  }

  /** The non-empty branch of `renderQuoteCard`: draw the card and record the icon drawn. */
  function Redrawn(s: State): (r: State)
    requires !AllSpace(s.quoteInput)
    ensures SameSource(s, r) && r.counter == s.counter && r.card.resultVisible
    ensures r.isSelectionQuote == s.isSelectionQuote && r.currentOgImage == s.currentOgImage
            && r.currentOgImageDataURL == s.currentOgImageDataURL
            && r.backgroundMode == s.backgroundMode && r.renderedQuoteIcon == s.currentQuoteIcon
    ensures ImageAllowed(s) && IconCurrent(s) ==> Inv(r) && r.card.icon == NonEmpty(s.currentQuoteIcon)
    ensures r.card == RenderedCard(s)
  {
    var c := RenderedCard(s);
    PaintedAfterDraw(s, c);
    s.(card := c, renderedQuoteIcon := s.currentQuoteIcon)
  }

  /** A shown card drawn with the background the mode calls for is painted as the invariant demands. */
  lemma PaintedAfterDraw(s: State, c: CardView)
    requires c.resultVisible
    requires ImageAllowed(s) ==> c.background == if s.backgroundMode == Image then Some(ImageUrl(s)) else None
    ensures ImageAllowed(s) ==> Painted(s.(card := c, renderedQuoteIcon := s.currentQuoteIcon))
  {
  }

  /** `updateWordCountDisplay` (lines 78-92): only the counter changes. */
  function UpdateWordCountDisplay(s: State): (r: State)
    ensures r == s.(counter := r.counter)
    ensures r.counter == CounterFor(s.counter, s.quoteInput, s.format)
    ensures Inv(s) ==> Inv(r)
  {
    var counter := CounterFor(s.counter, s.quoteInput, s.format);
    InvIgnoresCounter(s, counter);
    s.(counter := counter)
  }

  /** The invariant does not look at the word counter. */
  lemma InvIgnoresCounter(s: State, counter: CounterView)
    ensures Inv(s) ==> Inv(s.(counter := counter))
  {
  }

  /** `onQuoteInputChange` (lines 215-225), run on every `input` event with the new value. */
  function OnQuoteInput(s: State, value: string): (r: State)
    ensures Inv(s) ==> Inv(r)
  {
    var s1 := UpdateWordCountDisplay(s.(quoteInput := value));
    assert Inv(s) ==> ImageAllowed(s1) && IconCurrent(s1);
    if Trim(s1.quoteInput) != [] then RenderQuoteCard(s1) else ResetQuoteCard(s1)
  }

  /** The format radio's `change` listener (lines 350-357). */
  function OnFormatChange(s: State, format: Format): (r: State)
    ensures Inv(s) ==> Inv(r)
  {
    var s1 := UpdateWordCountDisplay(s.(format := format));
    if s1.card.resultVisible then RenderQuoteCard(s1) else s1
  }

  /** A background button's `click` listener (lines 359-380). */
  function OnBackgroundClick(s: State, mode: Mode): (r: State)
    ensures Inv(s) ==> Inv(r)
  {
    var canUseImageBackground := CanUseImage(s);
    if mode == Image && !canUseImageBackground then s
    else if s.backgroundMode == mode then s
    else
      var s1 := UpdateBackgroundToggle(s.(backgroundMode := mode));
      if s1.card.resultVisible then
        var useImage := canUseImageBackground && mode == Image;
        s1.(card := s1.card.(background := if useImage then Some(ImageUrl(s1)) else None))
      else s1
  }

  /** The stored capture holds something: the condition of line 401. */
  predicate CaptureHasData(d: FirefoxBackground.CaptureRecord) {
    JsTruthy(d.selectedQuote) || JsTruthy(d.selectedAuthor) || JsTruthy(d.selectedOgImage)
  }

  /** The field updates of the storage callback (lines 388-393). */
  function ApplyCapture(s: State, d: FirefoxBackground.CaptureRecord): (r: State)
    ensures r == s.(quoteInput := r.quoteInput, currentAuthor := r.currentAuthor, currentOgImage := r.currentOgImage)
    ensures r.quoteInput == if JsTruthy(d.selectedQuote) then d.selectedQuote.s else s.quoteInput
    ensures r.currentAuthor == if d.selectedAuthor == Undefined then s.currentAuthor
                               else if JsTruthy(d.selectedAuthor) then d.selectedAuthor.s else ""
    ensures r.currentOgImage == if JsTruthy(d.selectedOgImage) then d.selectedOgImage.s else s.currentOgImage
  {
    var s1 := if JsTruthy(d.selectedQuote) then s.(quoteInput := d.selectedQuote.s) else s;
    var s2 := if d.selectedAuthor != Undefined
              then s1.(currentAuthor := if JsTruthy(d.selectedAuthor) then d.selectedAuthor.s else "")
              else s1;
    if JsTruthy(d.selectedOgImage) then s2.(currentOgImage := d.selectedOgImage.s) else s2
  }

  /** The `storage.local.get` callback (lines 385-414); the keys are removed exactly when `CaptureHasData`. */
  function OnStorageLoaded(s: State, d: FirefoxBackground.CaptureRecord): (r: State)
    ensures Inv(s) ==> Inv(r)
  {
    var s1 := ApplyCapture(s, d);
    if CaptureHasData(d) then
      var s2 := UpdateBackgroundToggle(s1.(isSelectionQuote := true, backgroundMode := Dark));
      assert IconCurrent(s) ==> IconCurrent(s2);
      UpdateWordCountDisplay(RenderQuoteCard(s2))
    else
      EmptyCaptureKeepsInv(s, d);
      s1
  }

  /** A capture with nothing in it can only clear the author, which the invariant does not look at. */
  lemma EmptyCaptureKeepsInv(s: State, d: FirefoxBackground.CaptureRecord)
    requires !CaptureHasData(d)
    ensures Inv(s) ==> Inv(ApplyCapture(s, d))
  {
    assert ApplyCapture(s, d) == s.(currentAuthor := ApplyCapture(s, d).currentAuthor);
  }

  /** The `convertImageToDataURL(...).then` of the storage path (lines 394-397). */
  function OnStorageImageConverted(s: State, dataUrl: Option<string>): (r: State)
    ensures Inv(s) ==> Inv(r)
  {
    var s1 := s.(currentOgImageDataURL := dataUrl.GetOr(""));
    if s1.backgroundMode == Image then RenderQuoteCard(s1) else s1
  }

  /** The `tabs.query` callback up to the probe request (lines 417-431). */
  function OnTabsQueried(s: State, tab: Option<Tab>): (r: State)
    ensures Inv(s) ==> Inv(r)
  {
    match tab
    case None => s
    case Some(t) =>
      var icon := if Truthy(t.favIconUrl) then t.favIconUrl else s.currentQuoteIcon;
      var s1 := s.(currentUrl := t.url.GetOr(""), currentTitle := t.title.GetOr(""), currentQuoteIcon := icon);
      InvIgnoresTab(s, t.url.GetOr(""), t.title.GetOr(""), icon);
      if Trim(s1.quoteInput) != [] then UpdateWordCountDisplay(RenderQuoteCard(s1)) else s1
  }

  /** The invariant does not look at the tab's address, title or current icon. */
  lemma InvIgnoresTab(s: State, url: string, title: string, icon: Option<string>)
    ensures Inv(s) ==> Inv(s.(currentUrl := url, currentTitle := title, currentQuoteIcon := icon))
  {
  }

  /** The three fields the probe callback destructures from `response || {}`. */
  function ProbeFields(c: Option<FirefoxBackground.PageContext>): (string, JsValue, Option<string>) {
    match c
    case None => ("", Undefined, None)
    case Some(ctx) => (ctx.selectedText, ctx.author, ctx.ogImageUrl)
  }

  /** The field updates of the probe callback (lines 436-468), and whether anything new arrived. */
  function ApplyProbe(s: State, c: Option<FirefoxBackground.PageContext>): (r: (State, bool))
    ensures r.0.card == s.card && r.0.renderedQuoteIcon == s.renderedQuoteIcon
    ensures ImageAllowed(s) && IconCurrent(s) ==> ImageAllowed(r.0) && IconCurrent(r.0)
    ensures !r.1 ==> r.0 == s
  {
    var (selectedText, author, ogImageUrl) := ProbeFields(c);
    var s1 := if selectedText != "" then s.(quoteInput := selectedText, isSelectionQuote := true) else s;
    var s2 := if JsTruthy(author) then s1.(currentAuthor := author.s) else s1;
    var s3 := if Truthy(ogImageUrl) then s2.(currentOgImage := ogImageUrl.value) else s2;
    var s4 := if selectedText != "" || Truthy(ogImageUrl) then UpdateBackgroundToggle(s3.(backgroundMode := Dark)) else s3;
    (s4, selectedText != "" || JsTruthy(author) || Truthy(ogImageUrl))
  }

  /** The `getPageContext` response callback (lines 433-475). */
  function OnPageContextResponse(s: State, response: ProbeResponse): (r: State)
    ensures Inv(s) ==> Inv(r)
  {
    match response
    case LastError => s
    case Response(c) =>
      var (s1, hasNewData) := ApplyProbe(s, c);
      if hasNewData then UpdateWordCountDisplay(RenderQuoteCard(s1)) else s1
  }

  /** The `convertImageToDataURL(...).then` of the probe path (lines 454-461): only the background changes. */
  function OnProbeImageConverted(s: State, dataUrl: Option<string>): (r: State)
    ensures Inv(s) ==> Inv(r)
  {
    var s1 := s.(currentOgImageDataURL := dataUrl.GetOr(""));
    if s1.backgroundMode == Image && s1.card.resultVisible then
      s1.(card := s1.card.(background := Some(if Truthy(dataUrl) then dataUrl.value else s1.currentOgImage)))
    else s1
  }

  /** The download and copy handlers up to rasterisation (lines 228-302); the name is the sanitized title. */
  function Export(s: State, libraryLoaded: bool, kind: ExportKind): (r: ExportPlan)
    ensures r.Rasterize? <==> !AllSpace(s.quoteInput) && libraryLoaded
    ensures r.Rasterize? && kind == Download ==> r.fileName == Some(SanitizeFilenameBase(Some(s.currentTitle)) + ".jpeg")
  {
    PlanExport(s.quoteInput, libraryLoaded, kind, SanitizeFilenameBase(Some(s.currentTitle)) + ".jpeg")
  }

  // ------------------------------------------------------------ properties

  /**
   * This variant's render does not repair the mode by itself: it relies on the
   * invariant. From a state outside it, image mode survives a render.
   */
  lemma RenderReliesOnInvariant()
    ensures var s := Initial(Square).(quoteInput := "a", backgroundMode := Image);
            !Inv(s) && RenderQuoteCard(s).backgroundMode == Image && !Inv(RenderQuoteCard(s))
  {
    var s := Initial(Square).(quoteInput := "a", backgroundMode := Image);
    assert s.quoteInput[0] == 'a' && !IsSpace('a');
  }

  /** Typing: the counter and the export buttons follow the new value; clearing it forgets the page's image. */
  lemma QuoteInputBehaviour(s: State, value: string)
    requires Inv(s)
    ensures var r := OnQuoteInput(s, value);
            r.quoteInput == value
            && (r.counter.hidden <==> AllSpace(value))
            && (r.card.exportEnabled <==> !AllSpace(value))
            && (AllSpace(value) ==> !r.isSelectionQuote && r.currentOgImage == "" && r.backgroundMode == Dark)
            && (!AllSpace(value) ==> r.card.text == LayoutFor(Trim(value), s.format).text
                                     && r.card.icon == NonEmpty(s.currentQuoteIcon))
  {
  }

  /** Switching format re-counts against the new limit and redraws a visible card in it. */
  lemma FormatChangeBehaviour(s: State, format: Format)
    requires !AllSpace(s.quoteInput)
    ensures var r := OnFormatChange(s, format);
            r.format == format && r.counter.limit == WordLimit(format)
            && (s.card.resultVisible ==> r.card.format == format && CountWords(r.card.text) <= WordLimit(format))
            && (!s.card.resultVisible ==> r.card == s.card)
  {
  }

  /** The background buttons: image only when allowed, dark always, no-op on the current mode. */
  lemma BackgroundClickBehaviour(s: State, mode: Mode)
    requires Inv(s)
    ensures var r := OnBackgroundClick(s, mode);
            (mode == Image && !CanUseImage(s) ==> r == s)
            && (mode == s.backgroundMode ==> r == s)
            && (mode == Dark ==> r.backgroundMode == Dark)
            && (mode == Image && CanUseImage(s) ==> r.backgroundMode == Image)
            && (r.card.resultVisible ==> (r.card.background.Some? <==> r.backgroundMode == Image)
                                         || r == s)
            && SameSource(s, r) && r.isSelectionQuote == s.isSelectionQuote && r.currentOgImage == s.currentOgImage
  {
  }

  /** The storage callback: what it takes from the capture. */
  lemma StorageLoadedBehaviour(s: State, d: FirefoxBackground.CaptureRecord)
    ensures var r := OnStorageLoaded(s, d);
            (!CaptureHasData(d) ==> r == ApplyCapture(s, d))
            && (d.selectedAuthor == Null ==> r.currentAuthor == "")
            && (d.selectedAuthor == Undefined ==> r.currentAuthor == s.currentAuthor)
            && (JsTruthy(d.selectedAuthor) ==> r.currentAuthor == d.selectedAuthor.s)
            && (JsTruthy(d.selectedQuote) ==> r.quoteInput == d.selectedQuote.s)
            && (!JsTruthy(d.selectedQuote) ==> r.quoteInput == s.quoteInput)
  {
    StorageKeepsSource(s, d);
  }

  /** Everything after the field updates of the storage callback leaves the quote and its source alone. */
  lemma StorageKeepsSource(s: State, d: FirefoxBackground.CaptureRecord)
    ensures SameSource(ApplyCapture(s, d), OnStorageLoaded(s, d))
  {
    var s1 := ApplyCapture(s, d);
    if CaptureHasData(d) {
      var s2 := UpdateBackgroundToggle(s1.(isSelectionQuote := true, backgroundMode := Dark));
      assert SameSource(s1, s2);
      var s3 := RenderQuoteCard(s2);
      assert SameSource(s2, s3);
    }
  }

  /** A capture with a non-empty quote leaves a visible, selection-derived card in dark mode. */
  lemma StorageQuoteRenders(s: State, d: FirefoxBackground.CaptureRecord)
    requires JsTruthy(d.selectedQuote) && !AllSpace(d.selectedQuote.s)
    ensures var r := OnStorageLoaded(s, d);
            r.isSelectionQuote && r.backgroundMode == Dark && r.card.resultVisible && r.card.exportEnabled
            && (JsTruthy(d.selectedOgImage) ==> CanUseImage(r))
  {
  }

  /** What the probe callback takes from a response, before it renders. */
  lemma ApplyProbeFields(s: State, c: Option<FirefoxBackground.PageContext>)
    ensures var (text, author, image) := ProbeFields(c);
            var (r, hasNewData) := ApplyProbe(s, c);
            (hasNewData <==> text != "" || JsTruthy(author) || Truthy(image))
            && (text != "" ==> r.quoteInput == text && r.isSelectionQuote)
            && (text == "" ==> r.quoteInput == s.quoteInput && r.isSelectionQuote == s.isSelectionQuote)
            && (r.currentAuthor == if JsTruthy(author) then author.s else s.currentAuthor)
            && (Truthy(image) ==> r.currentOgImage == image.value)
            && (text != "" || Truthy(image) ==> r.backgroundMode == Dark)
            && (!hasNewData ==> r == s)
  {
  }

  /** The probe callback: an error changes nothing; otherwise the fields above, then one render. */
  lemma {:induction false} ProbeResponseBehaviour(s: State, response: ProbeResponse)
    ensures var r := OnPageContextResponse(s, response);
            (response.LastError? ==> r == s)
            && (response.Response? ==>
                  var (text, author, image) := ProbeFields(response.context);
                  (r.currentAuthor == if JsTruthy(author) then author.s else s.currentAuthor)
                  && (r.quoteInput == if text != "" then text else s.quoteInput)
                  && (Truthy(image) && !AllSpace(r.quoteInput) ==> r.currentOgImage == image.value)
                  && (text != "" && !AllSpace(text) ==> r.isSelectionQuote && r.card.resultVisible)
                  && (text == "" && !JsTruthy(author) && !Truthy(image) ==> r == s))
  {
    if response.Response? {
      ApplyProbeFields(s, response.context);
    }
  }

  /** An image alone does not make the quote page-derived. */
  lemma ProbeImageKeepsSelectionFlag(s: State, ctx: FirefoxBackground.PageContext)
    requires ctx.selectedText == "" && Truthy(ctx.ogImageUrl) && !AllSpace(s.quoteInput)
    ensures OnPageContextResponse(s, Response(Some(ctx))).isSelectionQuote == s.isSelectionQuote
  {
    ApplyProbeFields(s, Some(ctx));
  }

  /** An empty quote is refused before the library is looked at; the download name is always safe. */
  lemma ExportGuards(s: State, libraryLoaded: bool, kind: ExportKind)
    ensures AllSpace(s.quoteInput) ==> Export(s, libraryLoaded, kind) == Refused("Add a quote first.")
    ensures Export(s, libraryLoaded, kind).Rasterize? && kind == Download ==>
              var name := Export(s, libraryLoaded, kind).fileName.value;
              name[|name| - 5..] == ".jpeg" && SafeFileBase(name[..|name| - 5])
  {
    var base := SanitizeFilenameBase(Some(s.currentTitle));
    assert (base + ".jpeg")[..|base|] == base;
  }

  /**
   * The two data channels do not commute: a capture whose author is `null`
   * erases the author a probe found before it, but not one found after it.
   */
  lemma {:induction false} ArrivalOrderMatters(s: State, d: FirefoxBackground.CaptureRecord, ctx: FirefoxBackground.PageContext)
    requires d.selectedAuthor == Null && JsTruthy(ctx.author)
    ensures OnPageContextResponse(OnStorageLoaded(s, d), Response(Some(ctx))).currentAuthor == ctx.author.s
    ensures OnStorageLoaded(OnPageContextResponse(s, Response(Some(ctx))), d).currentAuthor == ""
  {
    var probe := Response(Some(ctx));
    StorageAuthor(s, d);
    ProbeAuthor(OnStorageLoaded(s, d), probe);
    ProbeAuthor(s, probe);
    StorageAuthor(OnPageContextResponse(s, probe), d);
  }

  /** The author after the storage callback: kept when the key is absent, cleared when it is not a string. */
  lemma StorageAuthor(s: State, d: FirefoxBackground.CaptureRecord)
    ensures OnStorageLoaded(s, d).currentAuthor
            == if d.selectedAuthor == Undefined then s.currentAuthor
               else if JsTruthy(d.selectedAuthor) then d.selectedAuthor.s else ""
  {
    StorageKeepsSource(s, d);
  }

  /** The author after the probe callback: replaced only by a non-empty string. */
  lemma ProbeAuthor(s: State, response: ProbeResponse)
    ensures OnPageContextResponse(s, response).currentAuthor
            == if response.LastError? || !JsTruthy(ProbeFields(response.context).1) then s.currentAuthor
               else ProbeFields(response.context).1.s
  {
    if response.Response? {
      ApplyProbeFields(s, response.context);
    }
  }
}
