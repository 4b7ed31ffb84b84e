/**
 * The Firefox popup script (Firefox/popup.js) as an object: the script's
 * `let` variables and the parts of the page it writes are fields, and each
 * handler is a method that changes them step by step as the script does.
 * Every method is proved to compute the transition of the same name in
 * `FirefoxCard`, where the properties of those transitions are proved.
 */
module FirefoxPopup {
  import opened Wrappers
  import opened Text
  import opened Compose
  import opened Metadata
  import opened PopupShared
  import FirefoxBackground
  import Card = FirefoxCard

  /** The popup's variables and the parts of its page the script writes. */
  class Popup {
    var quoteInput: string
    var currentQuoteIcon: Option<string>
    var renderedQuoteIcon: Option<string>
    var currentAuthor: string
    var currentUrl: string
    var currentTitle: string
    var currentOgImage: string
    var currentOgImageDataURL: string
    var isSelectionQuote: bool
    var backgroundMode: Mode
    var format: Format
    var card: CardView
    var counter: CounterView

    function View(): Card.State
      reads this
    {
      Card.State(quoteInput, currentQuoteIcon, renderedQuoteIcon, currentAuthor, currentUrl, currentTitle,
            currentOgImage, currentOgImageDataURL, isSelectionQuote, backgroundMode, format, card, counter)
    }

    ghost predicate Valid()
      reads this
    {
      Card.Inv(View())
    }

    constructor (format: Format)
      ensures Valid() && View() == Card.Initial(format)
    {
      quoteInput, currentQuoteIcon, renderedQuoteIcon := "", None, None;
      currentAuthor, currentUrl, currentTitle := "", "", "";
      currentOgImage, currentOgImageDataURL := "", "";
      isSelectionQuote, backgroundMode := false, Dark;
      this.format := format;
      card := BlankCard(format);
      counter := CounterView(true, 0, 0, Plain);
    }

    method UpdateBackgroundToggle()
      modifies this
      ensures View() == Card.UpdateBackgroundToggle(old(View()))
      ensures old(Valid()) ==> Valid()
    {
      var hasImageBackground := isSelectionQuote && currentOgImage != "";
      if !hasImageBackground {
        backgroundMode := Dark;
      }
    }

    method ResetQuoteCard()
      modifies this
      ensures View() == Card.ResetQuoteCard(old(View()))
    {
      ClearCard();
      ForgetPageImage();
      UpdateBackgroundToggle();
    }

    /** The card is emptied and hidden, and no icon is recorded as drawn. */
    method ClearCard()
      modifies this
      ensures View() == old(View()).(card := ClearedCard(old(card)), renderedQuoteIcon := None)
    {
      card := ClearedCard(card);
      renderedQuoteIcon := None;
    }

    /** The variables `resetQuoteCard` clears: the page's image is forgotten and the quote is the user's. */
    method ForgetPageImage()
      modifies this
      ensures View() == old(View()).(currentOgImage := "", currentOgImageDataURL := "",
                                     isSelectionQuote := false, backgroundMode := Dark)
    {
      currentOgImage := "";
      currentOgImageDataURL := "";
      isSelectionQuote := false;
      backgroundMode := Dark;
    }

    /** The card `renderQuoteCard` draws for a non-empty quote, computed from the fields. */
    method DrawCard() returns (rendered: CardView)
      requires !AllSpace(quoteInput)
      ensures rendered == Card.RenderedCard(View())
    {
      var quoteText := Trim(quoteInput);
      var authorName := Trim(currentAuthor);
      var layout := LayoutFor(quoteText, format);
      var domain := if currentUrl != "" then ExtractDomain(currentUrl) else "";
      // the icon is redrawn only when it changed since the last render
      var icon := if currentQuoteIcon != renderedQuoteIcon then NonEmpty(currentQuoteIcon) else card.icon;
      var canUseImageBackground := isSelectionQuote && currentOgImage != "";
      var useImageBackground := canUseImageBackground && backgroundMode == Image;
      // the data URL when there is one, to avoid cross-origin problems
      var imageUrl := if currentOgImageDataURL != "" then currentOgImageDataURL else currentOgImage;
      var background := if useImageBackground then Some(imageUrl) else None;
      rendered := CardView(layout.text, authorName, domain, layout.fontSize, layout.lineHeight, format,
                           icon, background, true, true);
      ghost var v := View();
      assert useImageBackground == (Card.CanUseImage(v) && v.backgroundMode == Image);
      assert imageUrl == Card.ImageUrl(v);
    }

    method RenderQuoteCard()
      modifies this
      ensures View() == Card.RenderQuoteCard(old(View()))
    {
      var quoteText := Trim(quoteInput);
      if quoteText == [] {
        ResetQuoteCard();
        return;
      }
      var rendered := DrawCard();
      ShowCard(rendered);
    }

    /**
     * The card on the page becomes `rendered`, and the icon is recorded as
     * drawn (when it was not redrawn it was already the recorded one).
     */
    method ShowCard(rendered: CardView)
      modifies this
      ensures View() == old(View()).(card := rendered, renderedQuoteIcon := old(currentQuoteIcon))
    {
      card, renderedQuoteIcon := rendered, currentQuoteIcon;
    }

    method UpdateWordCountDisplay()
      modifies this
      ensures View() == Card.UpdateWordCountDisplay(old(View()))
    {
      counter := CounterFor(counter, quoteInput, format);
    }

    /** The `input` listener: the field now holds `value`, then `onQuoteInputChange`. */
    method OnQuoteInput(value: string)
      requires Valid()
      modifies this
      ensures View() == Card.OnQuoteInput(old(View()), value) && Valid()
    {
      quoteInput := value;
      assert View() == old(View()).(quoteInput := value);
      UpdateWordCountDisplay();
      var hasQuoteText := |Trim(quoteInput)| > 0;
      if hasQuoteText {
        RenderQuoteCard();
      } else {
        ResetQuoteCard();
      }
    }

    method OnFormatChange(newFormat: Format)
      requires Valid()
      modifies this
      ensures View() == Card.OnFormatChange(old(View()), newFormat) && Valid()
    {
      format := newFormat;
      UpdateWordCountDisplay();
      if card.resultVisible {
        RenderQuoteCard();
      }
    }

    method OnBackgroundClick(mode: Mode)
      requires Valid()
      modifies this
      ensures View() == Card.OnBackgroundClick(old(View()), mode) && Valid()
    {
      var canUseImageBackground := isSelectionQuote && currentOgImage != "";
      if mode == Image && !canUseImageBackground {
        return;
      }
      if backgroundMode == mode {
        return;
      }
      backgroundMode := mode;
      UpdateBackgroundToggle();
      if card.resultVisible {
        var useImageBackground := canUseImageBackground && mode == Image;
        if useImageBackground {
          var imageUrl := if currentOgImageDataURL != "" then currentOgImageDataURL else currentOgImage;
          card := card.(background := Some(imageUrl));
        } else {
          card := card.(background := None);
        }
      }
    }

    /** The storage callback; `consumed` says whether the three keys are removed. */
    method OnStorageLoaded(d: FirefoxBackground.CaptureRecord) returns (consumed: bool)
      requires Valid()
      modifies this
      ensures View() == Card.OnStorageLoaded(old(View()), d) && Valid()
      ensures consumed == Card.CaptureHasData(d)
    {
      TakeCapture(d);
      ghost var captured := View();
      consumed := JsTruthy(d.selectedQuote) || JsTruthy(d.selectedAuthor) || JsTruthy(d.selectedOgImage);
      if !consumed {
        return;
      }
      isSelectionQuote, backgroundMode := true, Dark;
      assert View() == captured.(isSelectionQuote := true, backgroundMode := Dark);
      UpdateBackgroundToggle();
      RenderQuoteCard();
      UpdateWordCountDisplay();
    }

    /** The field updates at the head of the storage callback. */
    method TakeCapture(d: FirefoxBackground.CaptureRecord)
      modifies this
      ensures View() == Card.ApplyCapture(old(View()), d)
    {
      if JsTruthy(d.selectedQuote) {
        quoteInput := d.selectedQuote.s;
      }
      if d.selectedAuthor != Undefined {
        currentAuthor := if JsTruthy(d.selectedAuthor) then d.selectedAuthor.s else "";
      }
      if JsTruthy(d.selectedOgImage) {
        currentOgImage := d.selectedOgImage.s;
      }
    }

    method OnStorageImageConverted(dataUrl: Option<string>)
      requires Valid()
      modifies this
      ensures View() == Card.OnStorageImageConverted(old(View()), dataUrl) && Valid()
    {
      currentOgImageDataURL := dataUrl.GetOr("");
      if backgroundMode == Image {
        RenderQuoteCard();
      }
    }

    method OnTabsQueried(tab: Option<Tab>)
      requires Valid()
      modifies this
      ensures View() == Card.OnTabsQueried(old(View()), tab) && Valid()
    {
      if tab.None? {
        return;
      }
      TakeTab(tab.value);
      if Trim(quoteInput) == [] {
        return;
      }
      RenderQuoteCard();
      UpdateWordCountDisplay();
    }

    /** The tab's address, title and (when there is one) icon become the current ones. */
    method TakeTab(t: Tab)
      modifies this
      ensures View() == old(View()).(currentUrl := t.url.GetOr(""), currentTitle := t.title.GetOr(""),
                                     currentQuoteIcon := if Truthy(t.favIconUrl) then t.favIconUrl
                                                         else old(currentQuoteIcon))
    {
      currentUrl := t.url.GetOr("");
      currentTitle := t.title.GetOr("");
      if Truthy(t.favIconUrl) {
        currentQuoteIcon := t.favIconUrl;
      }
    }

    method OnPageContextResponse(response: ProbeResponse)
      requires Valid()
      modifies this
      ensures View() == Card.OnPageContextResponse(old(View()), response) && Valid()
    {
      if response.LastError? {
        return;
      }
      var hasNewData := TakeProbe(response.context);
      if hasNewData {
        RenderQuoteCard();
        UpdateWordCountDisplay();
      }
    }

    /** The field updates of the probe callback, and whether anything new arrived. */
    method TakeProbe(context: Option<FirefoxBackground.PageContext>) returns (hasNewData: bool)
      modifies this
      ensures (View(), hasNewData) == Card.ApplyProbe(old(View()), context)
    {
      var (selectedText, author, ogImageUrl) := Card.ProbeFields(context);
      ghost var s := View();
      hasNewData := false;
      if selectedText != "" {
        quoteInput, isSelectionQuote := selectedText, true;
        hasNewData := true;
      }
      ghost var s1 := if selectedText != "" then s.(quoteInput := selectedText, isSelectionQuote := true) else s;
      assert View() == s1;
      if JsTruthy(author) {
        currentAuthor := author.s;
        hasNewData := true;
      }
      ghost var s2 := if JsTruthy(author) then s1.(currentAuthor := author.s) else s1;
      assert View() == s2;
      if Truthy(ogImageUrl) {
        currentOgImage := ogImageUrl.value;
        hasNewData := true;
      }
      ghost var s3 := if Truthy(ogImageUrl) then s2.(currentOgImage := ogImageUrl.value) else s2;
      assert View() == s3;
      if selectedText != "" || Truthy(ogImageUrl) {
        backgroundMode := Dark;
        UpdateBackgroundToggle();
      }
    }

    method OnProbeImageConverted(dataUrl: Option<string>)
      requires Valid()
      modifies this
      ensures View() == Card.OnProbeImageConverted(old(View()), dataUrl) && Valid()
    {
      currentOgImageDataURL := dataUrl.GetOr("");
      if backgroundMode == Image && card.resultVisible {
        var imageUrl := if Truthy(dataUrl) then dataUrl.value else currentOgImage;
        card := card.(background := Some(imageUrl));
      }
    }

    /** A download or copy click up to rasterisation; it changes nothing. */
    method Export(libraryLoaded: bool, kind: ExportKind) returns (plan: ExportPlan)
      ensures plan == Card.Export(View(), libraryLoaded, kind)
      ensures plan.Refused? <==> AllSpace(quoteInput) || !libraryLoaded
      ensures kind == Download && plan.Rasterize? ==>
                plan.fileName == Some(SanitizeFilenameBase(Some(currentTitle)) + ".jpeg")
    {
      if Trim(quoteInput) == [] {
        return Refused("Add a quote first.");
      }
      if !libraryLoaded {
        return Refused("Library not loaded. Please reload.");
      }
      match kind
      case Download =>
        plan := Rasterize(2, "image/jpeg", Some(SanitizeFilenameBase(Some(currentTitle)) + ".jpeg"));
      case Copy =>
        plan := Rasterize(3, "image/png", None);
    }
  }
}
