/**
 * The Chrome popup script (popup.js) as an object: the script's `let`
 * variables and the parts of the page it writes are fields, and each handler
 * is a method that changes them step by step as the script does. Every
 * method is proved to compute the transition of the same name in
 * `ChromeCard`, where the properties of those transitions are proved.
 */
module ChromePopup {
  import opened Wrappers
  import opened Text
  import opened Compose
  import opened Metadata
  import opened PopupShared
  import FirefoxBackground
  import Card = ChromeCard

  /** The popup's variables and the parts of its page the script writes. */
  class Popup {
    var quoteInput: string
    var currentQuoteIcon: Option<string>
    var currentAuthor: string
    var currentUrl: string
    var currentOgImage: string
    var currentOgImageDataURL: string
    var isSelectionQuote: bool
    var backgroundMode: Mode
    var format: Format
    var card: CardView
    var counter: CounterView

    function View(): Card.State
      reads this
    {
      Card.State(quoteInput, currentQuoteIcon, currentAuthor, currentUrl, currentOgImage, currentOgImageDataURL,
                 isSelectionQuote, backgroundMode, format, card, counter)
    }

    ghost predicate Valid()
      reads this
    {
      Card.Inv(View())
    }

    constructor (format: Format)
      ensures Valid() && View() == Card.Initial(format)
    {
      quoteInput, currentQuoteIcon := "", None;
      currentAuthor, currentUrl := "", "";
      currentOgImage, currentOgImageDataURL := "", "";
      isSelectionQuote, backgroundMode := false, Dark;
      this.format := format;
      card := BlankCard(format);
      counter := CounterView(true, 0, 0, Plain);
    }

    method UpdateBackgroundToggle()
      modifies this
      ensures View() == Card.UpdateBackgroundToggle(old(View()))
    {
      var hasImageBackground := isSelectionQuote && currentOgImage != "";
      if !hasImageBackground {
        backgroundMode := Dark;
      }
    }

    method ResetQuoteCard()
      modifies this
      ensures View() == Card.ResetQuoteCard(old(View()))
    {
      ClearCard();
      ForgetPageImage();
      UpdateBackgroundToggle();
    }

    /** The card is emptied and hidden, and the export buttons are disabled. */
    method ClearCard()
      modifies this
      ensures View() == old(View()).(card := ClearedCard(old(card)))
    {
      card := ClearedCard(card);
    }

    /** The variables `resetQuoteCard` clears: the page's image is forgotten and the quote is the user's. */
    method ForgetPageImage()
      modifies this
      ensures View() == old(View()).(currentOgImage := "", currentOgImageDataURL := "",
                                     isSelectionQuote := false, backgroundMode := Dark)
    {
      currentOgImage := "";
      currentOgImageDataURL := "";
      isSelectionQuote := false;
      backgroundMode := Dark;
    }

    /**
     * The card `renderQuoteCard` draws for a non-empty quote, computed from
     * the fields once the mode has been repaired.
     */
    method DrawCard() returns (rendered: CardView)
      requires !AllSpace(quoteInput) && Card.ImageAllowed(View())
      ensures rendered == Card.RenderedCard(View())
    {
      var quoteText := Trim(quoteInput);
      var authorName := Trim(currentAuthor);
      var layout := LayoutFor(quoteText, format);
      var domain := if currentUrl != "" then ExtractDomain(currentUrl) else "";
      // the icon is always redrawn
      var icon := NonEmpty(currentQuoteIcon);
      var canUseImageBackground := isSelectionQuote && currentOgImage != "";
      var useImageBackground := canUseImageBackground && backgroundMode == Image;
      // the data URL when there is one, to avoid cross-origin problems
      var imageUrl := if currentOgImageDataURL != "" then currentOgImageDataURL else currentOgImage;
      var background := if useImageBackground then Some(imageUrl) else None;
      rendered := CardView(layout.text, authorName, domain, layout.fontSize, layout.lineHeight, format,
                           icon, background, true, true);
      ghost var v := View();
      assert useImageBackground == (Card.CanUseImage(v) && v.backgroundMode == Image);
      assert imageUrl == Card.ImageUrl(v);
    }

    /**
     * `renderQuoteCard`. The script writes the text, author, domain and icon
     * before its `updateBackgroundToggle()`; none of them depends on the
     * mode, so the mode is repaired first here and the card written at once.
     */
    method RenderQuoteCard()
      modifies this
      ensures View() == Card.RenderQuoteCard(old(View()))
    {
      var quoteText := Trim(quoteInput);
      if quoteText == [] {
        ResetQuoteCard();
        return;
      }
      UpdateBackgroundToggle();
      var rendered := DrawCard();
      ShowCard(rendered);
    }

    /** The card on the page becomes `rendered`. */
    method ShowCard(rendered: CardView)
      modifies this
      ensures View() == old(View()).(card := rendered)
    {
      card := rendered;
    }

    method UpdateWordCountDisplay()
      modifies this
      ensures View() == Card.UpdateWordCountDisplay(old(View()))
    {
      ghost var s := View();
      counter := CounterFor(counter, quoteInput, format);
      assert View() == s.(counter := CounterFor(s.counter, s.quoteInput, s.format));
    }

    /** `onQuoteInputChange`: it restores the invariant from any state. */
    method OnQuoteInputChange()
      modifies this
      ensures View() == Card.OnQuoteInputChange(old(View())) && Valid()
    {
      UpdateWordCountDisplay();
      var hasQuoteText := |Trim(quoteInput)| > 0;
      if hasQuoteText {
        RenderQuoteCard();
      } else {
        ResetQuoteCard();
      }
    }

    /** The `input` listener: the field now holds `value`, then `onQuoteInputChange`. */
    method OnQuoteInput(value: string)
      modifies this
      ensures View() == Card.OnQuoteInput(old(View()), value) && Valid()
    {
      TakeInput(value);
      OnQuoteInputChange();
    }

    /** The input field holds `value`. */
    method TakeInput(value: string)
      modifies this
      ensures View() == old(View()).(quoteInput := value)
    {
      quoteInput := value;
    }

    method OnFormatChange(newFormat: Format)
      requires Valid()
      modifies this
      ensures View() == Card.OnFormatChange(old(View()), newFormat) && Valid()
    {
      format := newFormat;
      UpdateWordCountDisplay();
      if card.resultVisible {
        RenderQuoteCard();
      }
    }

    method OnBackgroundClick(mode: Mode)
      requires Valid()
      modifies this
      ensures View() == Card.OnBackgroundClick(old(View()), mode) && Valid()
    {
      var canUseImageBackground := isSelectionQuote && currentOgImage != "";
      if mode == Image && !canUseImageBackground {
        return;
      }
      backgroundMode := mode;
      UpdateBackgroundToggle();
      if card.resultVisible {
        RenderQuoteCard();
      }
    }

    /** The storage callback; `consumed` says whether the three keys are removed. */
    method OnStorageLoaded(d: FirefoxBackground.CaptureRecord) returns (consumed: bool)
      requires Valid()
      modifies this
      ensures View() == Card.OnStorageLoaded(old(View()), d) && Valid()
      ensures consumed == Card.CaptureHasData(d)
    {
      TakeCapture(d);
      consumed := JsTruthy(d.selectedQuote) || JsTruthy(d.selectedAuthor) || JsTruthy(d.selectedOgImage);
      if !consumed {
        return;
      }
      MarkSelection();
      UpdateBackgroundToggle();
      OnQuoteInputChange();
    }

    /** The quote is now page-derived, and the mode goes back to dark. */
    method MarkSelection()
      modifies this
      ensures View() == old(View()).(isSelectionQuote := true, backgroundMode := Dark)
    {
      isSelectionQuote, backgroundMode := true, Dark;
    }

    /** The field updates at the head of the storage callback. */
    method TakeCapture(d: FirefoxBackground.CaptureRecord)
      modifies this
      ensures View() == Card.ApplyCapture(old(View()), d)
    {
      if JsTruthy(d.selectedQuote) {
        quoteInput := d.selectedQuote.s;
      }
      if d.selectedAuthor != Undefined {
        currentAuthor := if JsTruthy(d.selectedAuthor) then d.selectedAuthor.s else "";
      }
      if JsTruthy(d.selectedOgImage) {
        currentOgImage := d.selectedOgImage.s;
      }
    }

    method OnImageConverted(dataUrl: Option<string>)
      requires Valid()
      modifies this
      ensures View() == Card.OnImageConverted(old(View()), dataUrl) && Valid()
    {
      currentOgImageDataURL := dataUrl.GetOr("");
      if backgroundMode == Image {
        RenderQuoteCard();
      }
    }

    method OnTabsQueried(tab: Option<Tab>)
      requires Valid()
      modifies this
      ensures View() == Card.OnTabsQueried(old(View()), tab) && Valid()
    {
      if tab.None? {
        return;
      }
      TakeTab(tab.value);
      OnQuoteInputChange();
    }

    /** The tab's address and (when there is one) icon become the current ones. */
    method TakeTab(t: Tab)
      modifies this
      ensures View() == old(View()).(currentUrl := t.url.GetOr(""),
                                     currentQuoteIcon := if Truthy(t.favIconUrl) then t.favIconUrl
                                                         else old(currentQuoteIcon))
    {
      currentUrl := t.url.GetOr("");
      if Truthy(t.favIconUrl) {
        currentQuoteIcon := t.favIconUrl;
      }
    }

    method OnPageContextResponse(response: ProbeResponse)
      requires Valid()
      modifies this
      ensures View() == Card.OnPageContextResponse(old(View()), response) && Valid()
    {
      if response.LastError? {
        return;
      }
      var hasNewData := TakeProbe(response.context);
      if hasNewData {
        OnQuoteInputChange();
      }
    }

    /**
     * The field updates of the probe callback, and whether anything new
     * arrived. A falsy author leaves an empty author empty, which changes
     * nothing.
     */
    method TakeProbe(context: Option<FirefoxBackground.PageContext>) returns (hasNewData: bool)
      modifies this
      ensures (View(), hasNewData) == Card.ApplyProbe(old(View()), context)
    {
      var (selectedText, author, ogImageUrl) := Card.ProbeFields(context);
      ghost var s := View();
      hasNewData := false;
      if selectedText != "" {
        quoteInput, isSelectionQuote := selectedText, true;
        hasNewData := true;
      }
      ghost var s1 := if selectedText != "" then s.(quoteInput := selectedText, isSelectionQuote := true) else s;
      assert View() == s1;
      if JsTruthy(author) {
        currentAuthor := author.s;
        hasNewData := true;
      }
      ghost var s2 := if JsTruthy(author) then s1.(currentAuthor := author.s) else s1;
      assert View() == s2;
      if Truthy(ogImageUrl) {
        currentOgImage := ogImageUrl.value;
        hasNewData := true;
      }
      ghost var s3 := if Truthy(ogImageUrl) then s2.(currentOgImage := ogImageUrl.value) else s2;
      assert View() == s3;
      if selectedText != "" || Truthy(ogImageUrl) {
        backgroundMode := Dark;
        UpdateBackgroundToggle();
      }
    }

    /** A download or copy click up to rasterisation; it changes nothing. */
    method Export(libraryLoaded: bool, kind: ExportKind) returns (plan: ExportPlan)
      ensures plan == Card.Export(View(), libraryLoaded, kind)
      ensures plan.Refused? <==> AllSpace(quoteInput) || !libraryLoaded
      ensures kind == Download && plan.Rasterize? ==> plan.fileName == Some("bluequote.jpeg")
    {
      if Trim(quoteInput) == [] {
        return Refused("Add a quote first.");
      }
      if !libraryLoaded {
        return Refused("Library not loaded. Please reload.");
      }
      match kind
      case Download =>
        plan := Rasterize(2, "image/jpeg", Some("bluequote.jpeg"));
      case Copy =>
        plan := Rasterize(3, "image/png", None);
    }
  }
}
