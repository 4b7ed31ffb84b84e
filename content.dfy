/**
 * The content script (content.js): author and favicon lookup in the page and
 * the `getSelection` message handler.
 */
module Content {
  import opened Wrappers
  import opened Metadata
  import FirefoxBackground

  /**
   * The first `link[rel*='icon']` (or `link[rel='shortcut icon']`): its raw
   * `href` attribute and the absolute URL the DOM resolves it to (`link.href`).
   */
  datatype Link = Link(hrefAttribute: Option<string>, resolvedHref: string)

  /** `getFavicon`; `origin` is `window.location.origin`. */
  function GetFavicon(link: Option<Link>, origin: string): (r: Option<string>)
    ensures r.None? <==> link.None? || !Truthy(link.value.hrefAttribute)
    ensures r.Some? && link.value.hrefAttribute.value[0] == '/'
            ==> r.value == origin + link.value.hrefAttribute.value
    ensures r.Some? && link.value.hrefAttribute.value[0] != '/'
            ==> r.value == link.value.resolvedHref
  {
    match link
    case None => None
    case Some(l) =>
      if !Truthy(l.hrefAttribute) then None
      else if l.hrefAttribute.value[0] == '/' then Some(origin + l.hrefAttribute.value)
      else Some(l.resolvedHref)
  }

  datatype SelectionReply = SelectionReply(selectedText: string, author: JsValue, icon: Option<string>)

  /** What the listener does: the reply it sends, if any, and that it always returns `true`. */
  datatype HandlerOutcome = HandlerOutcome(reply: Option<SelectionReply>, returnedTrue: bool)

  /** The `onMessage` listener. */
  function OnMessage(action: string, page: Page, link: Option<Link>, origin: string): (r: HandlerOutcome)
    ensures r.returnedTrue
    ensures r.reply.Some? <==> action == "getSelection"
    ensures r.reply.Some? ==> r.reply.value.selectedText == page.selection
    ensures r.reply.Some? ==> r.reply.value.author == ResolveAuthor(page) && r.reply.value.icon == GetFavicon(link, origin)
  {
    if action == "getSelection" then
      HandlerOutcome(Some(SelectionReply(page.selection, ResolveAuthor(page), GetFavicon(link, origin))), true)
    else HandlerOutcome(None, true)
  }

  /**
   * The content script and the Firefox page probe report the same selection
   * and the same author for a page: the three extractors share one cascade.
   */
  lemma ReplyAgreesWithProbe(page: Page, link: Option<Link>, origin: string, resolve: string -> Option<string>)
    ensures var reply := OnMessage("getSelection", page, link, origin).reply;
            var probe := FirefoxBackground.PageContextProbe(page, resolve);
            reply.Some? && reply.value.selectedText == probe.selectedText && reply.value.author == probe.author
  {
  }
}
