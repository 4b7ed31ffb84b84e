/**
 * The Chrome background script (background.js): the context-menu click runs
 * the author cascade in the page and stores the selection and the author.
 */
module ChromeBackground {
  import opened Wrappers
  import opened Metadata
  import FirefoxBackground

  /** The parts of the menu `info` the handler reads. */
  datatype ClickInfo = ClickInfo(menuItemId: string, selectionText: Option<string>)

  /**
   * The `onClicked` listener. `injected` is `None` when `scripting.executeScript`
   * rejects (nothing is stored); otherwise the page the cascade ran in.
   */
  function OnMenuClicked(info: ClickInfo, injected: Option<Page>): (r: Option<FirefoxBackground.CaptureRecord>)
    ensures r.Some? <==> info.menuItemId == "createQuote" && injected.Some?
    ensures r.Some? ==> r.value.selectedAuthor == ResolveAuthor(injected.value)
    ensures r.Some? ==> r.value.selectedQuote == (if info.selectionText.Some? then Str(info.selectionText.value) else Undefined)
    ensures r.Some? ==> r.value.selectedOgImage == Undefined
  {
    if info.menuItemId != "createQuote" || injected.None? then None
    else
      var quote := if info.selectionText.Some? then Str(info.selectionText.value) else Undefined;
      Some(FirefoxBackground.CaptureRecord(quote, ResolveAuthor(injected.value), Undefined))
  }

  /** The Chrome capture differs from the Firefox one only in never carrying an image. */
  lemma ChromeCaptureMatchesFirefoxAuthor(page: Page, selection: string, resolve: string -> Option<string>)
    ensures var probe := FirefoxBackground.PageContextProbe(page, resolve);
            var firefox := FirefoxBackground.OnMenuClicked(
              FirefoxBackground.ClickInfo("createQuote", Some(selection)), FirefoxBackground.ExecOk([probe]));
            var chrome := OnMenuClicked(ClickInfo("createQuote", Some(selection)), Some(page));
            firefox.Some? && chrome.Some?
            && chrome.value == firefox.value.(selectedOgImage := Undefined)
  {
  }
}
