/**
 * The Firefox background script (Firefox/background.js): the page probe with
 * its image resolution, the context-menu click that fills the capture store,
 * and the `getPageContext` message handler.
 */
module FirefoxBackground {
  import opened Wrappers
  import opened Text
  import opened Metadata

  /** What the probe returns (the page-context record). */
  datatype PageContext = PageContext(
    author: JsValue,
    selectedText: string,
    ogImageUrl: Option<string>,
    ogImageMetaUrl: Option<string>,
    twitterImageUrl: Option<string>)

  /** `{ author: null, selectedText: "" }`, the reply for every failure. */
  const EmptyContext := PageContext(Null, "", None, None, None)

  /** `getMetaContent`: `metaTag?.content?.trim() || null`. */
  function MetaContent(page: Page, sel: Selector): (r: Option<string>)
    ensures r.Some? ==> sel in page.meta && r.value == Trim(page.meta[sel]) && r.value != ""
    ensures r.None? ==> sel !in page.meta || AllSpace(page.meta[sel])
  {
    if sel in page.meta then NonEmpty(Some(Trim(page.meta[sel]))) else None
  }

  /**
   * `resolveUrl`: empty or missing gives `null`; otherwise the value resolved
   * against the document's base URL by `resolve` (`new URL(raw, base).href`),
   * or the raw value unchanged when resolution fails (`resolve` yields `None`).
   */
  function ResolveUrl(raw: Option<string>, resolve: string -> Option<string>): (r: Option<string>)
    ensures !Truthy(raw) ==> r == None
    ensures Truthy(raw) && resolve(raw.value).Some? ==> r == resolve(raw.value)
    ensures Truthy(raw) && resolve(raw.value).None? ==> r == raw
  {
    if !Truthy(raw) then None
    else match resolve(raw.value)
      case Some(href) => Some(href)
      case None => raw
  }

  /** `pageContextProbe`. */
  function PageContextProbe(page: Page, resolve: string -> Option<string>): (r: PageContext)
    ensures r.selectedText == page.selection
    ensures r.author == ResolveAuthor(page)
    ensures r.ogImageMetaUrl == ResolveUrl(MetaContent(page, OgImage), resolve)
    ensures r.twitterImageUrl == ResolveUrl(MetaContent(page, TwitterImage), resolve)
    ensures Truthy(r.ogImageMetaUrl) ==> r.ogImageUrl == r.ogImageMetaUrl
    ensures !Truthy(r.ogImageMetaUrl) ==> r.ogImageUrl == r.twitterImageUrl
  {
    var ogImageMetaUrl := ResolveUrl(MetaContent(page, OgImage), resolve);
    var twitterImageUrl := ResolveUrl(MetaContent(page, TwitterImage), resolve);
    var ogImageUrl := if Truthy(ogImageMetaUrl) then ogImageMetaUrl else twitterImageUrl;
    PageContext(ResolveAuthor(page), page.selection, ogImageUrl, ogImageMetaUrl, twitterImageUrl)
  }

  /** Without `og:image` or `twitter:image` content the probe carries no image at all. */
  lemma ProbeWithoutImageMeta(page: Page, resolve: string -> Option<string>)
    requires OgImage !in page.meta && TwitterImage !in page.meta
    ensures PageContextProbe(page, resolve).ogImageUrl == None
  {
  }

  /** `twitter:image` is used only when `og:image` resolved to nothing. */
  lemma ProbePrefersOgImage(page: Page, resolve: string -> Option<string>)
    requires OgImage in page.meta && !AllSpace(page.meta[OgImage])
    requires resolve(Trim(page.meta[OgImage])) == None
    ensures PageContextProbe(page, resolve).ogImageUrl == Some(Trim(page.meta[OgImage]))
  {
  }

  // ------------------------------------------------------------ menu click

  /** The parts of the menu `info` the handler reads. */
  datatype ClickInfo = ClickInfo(menuItemId: string, selectionText: Option<string>)

  /** Outcome of `tabs.executeScript` of the probe. */
  datatype ExecOutcome = ExecError | ExecOk(results: seq<PageContext>)

  /** The three capture-store keys. */
  datatype CaptureRecord = CaptureRecord(selectedQuote: JsValue, selectedAuthor: JsValue, selectedOgImage: JsValue)

  /** `results?.[0] ?? fallback`. */
  function FirstResult(results: seq<PageContext>, fallback: PageContext): PageContext {
    if |results| > 0 then results[0] else fallback
  }

  /** The `onClicked` listener: `None` when nothing is written to the store. */
  function OnMenuClicked(info: ClickInfo, exec: ExecOutcome): (r: Option<CaptureRecord>)
    ensures r.Some? <==> info.menuItemId == "createQuote" && exec.ExecOk?
    ensures r.Some? ==> r.value.selectedQuote == (if info.selectionText.Some? then Str(info.selectionText.value) else Undefined)
    ensures r.Some? && |exec.results| == 0 ==> r.value.selectedAuthor == Null && r.value.selectedOgImage == Null
    ensures r.Some? && |exec.results| > 0 ==> r.value.selectedAuthor == exec.results[0].author
    ensures r.Some? && |exec.results| > 0 ==>
              r.value.selectedOgImage == (if Truthy(exec.results[0].ogImageUrl) then Str(exec.results[0].ogImageUrl.value) else Null)
  {
    if info.menuItemId != "createQuote" then None
    else match exec
      case ExecError => None
      case ExecOk(results) =>
        var ctx := FirstResult(results, PageContext(Null, "", None, None, None));
        var image := if Truthy(ctx.ogImageUrl) then Str(ctx.ogImageUrl.value) else Null;
        var quote := if info.selectionText.Some? then Str(info.selectionText.value) else Undefined;
        Some(CaptureRecord(quote, ctx.author, image))
  }

  // ------------------------------------------------------- getPageContext

  datatype Request = Request(action: string, tabId: Option<int>)

  /** What the listener does: no reply at all, or a reply and whether it returned `true`. */
  datatype HandlerOutcome = NoReply | Replied(context: PageContext, returnedTrue: bool)

  /** `request.tabId || sender.tab?.id`, with `0` falsy as in JavaScript. */
  function TargetTab(request: Request, senderTab: Option<int>): (r: Option<int>)
    ensures r.Some? ==> r.value != 0
    ensures request.tabId.Some? && request.tabId.value != 0 ==> r == request.tabId
    ensures !(request.tabId.Some? && request.tabId.value != 0) ==>
              r == (if senderTab.Some? && senderTab.value != 0 then senderTab else None)
  {
    if request.tabId.Some? && request.tabId.value != 0 then request.tabId
    else if senderTab.Some? && senderTab.value != 0 then senderTab
    else None
  }

  /** The `onMessage` listener; `exec` is what injecting the probe into the target tab gives. */
  function OnGetPageContext(request: Request, senderTab: Option<int>, exec: ExecOutcome): (r: HandlerOutcome)
    ensures r.NoReply? <==> request.action != "getPageContext"
    ensures r.Replied? && TargetTab(request, senderTab).None? ==> r == Replied(EmptyContext, false)
    ensures r.Replied? && TargetTab(request, senderTab).Some? ==> r.returnedTrue
    ensures r.Replied? && (exec.ExecError? || |exec.results| == 0) ==> r.context == EmptyContext
    ensures r.Replied? && TargetTab(request, senderTab).Some? && exec.ExecOk? && |exec.results| > 0
            ==> r.context == exec.results[0]
  {
    if request.action != "getPageContext" then NoReply
    else if TargetTab(request, senderTab).None? then Replied(EmptyContext, false)
    else match exec
      case ExecError => Replied(EmptyContext, true)
      case ExecOk(results) => Replied(FirstResult(results, EmptyContext), true)
  }

  /** A handled request is always answered, and every failure answers with the empty context. */
  lemma GetPageContextDegrades(request: Request, senderTab: Option<int>, exec: ExecOutcome)
    requires request.action == "getPageContext"
    ensures OnGetPageContext(request, senderTab, exec).Replied?
    ensures var ctx := OnGetPageContext(request, senderTab, exec).context;
            ctx == EmptyContext || (exec.ExecOk? && ctx in exec.results)
  {
  }
}
