/**
 * Author resolution from page markup, as run in the page by
 * `pageContextProbe` (Firefox/background.js:26-95), by `getAuthorFromMeta`
 * (content.js:2-33) and by the injected function of the Chrome menu handler
 * (background.js:16-45). The document is abstract: for each meta selector,
 * the `content` of the first matching tag; for the first JSON-LD script, what
 * `JSON.parse` made of it.
 */
module Metadata {
  import opened Wrappers
  import opened Text

  /** A JavaScript value as far as these scripts distinguish it. */
  datatype JsValue = Undefined | Null | Str(s: string)

  predicate JsTruthy(v: JsValue) {
    v.Str? && v.s != ""
  }

  /** The meta selectors the scripts query. */
  datatype Selector =
    | AuthorName        // meta[name="author"]
    | ArticleAuthor     // meta[property="article:author"]
    | OgArticleAuthor   // meta[property="og:article:author"]
    | TwitterCreator    // meta[name="twitter:creator"]
    | DcCreator         // meta[property="dc:creator"]
    | OgImage           // meta[property="og:image"]
    | TwitterImage      // meta[name="twitter:image"]

  /** What `JSON.parse` of the first `application/ld+json` script yields, seen through `data.author`. */
  datatype JsonLd =
    | NoScript                        // no such script
    | Malformed                       // JSON.parse (or reading `.author`) threw
    | NoAuthor                        // `data.author` is falsy
    | StrAuthor(text: string)         // `data.author` is a string
    | ObjAuthor(name: JsValue)        // `data.author` is an object; its `name`

  /**
   * `meta`: the `content` of the first tag matching each selector (a missing
   * key is a missing tag or attribute); `selection`: `window.getSelection().toString()`.
   */
  datatype Page = Page(meta: map<Selector, string>, jsonLd: JsonLd, selection: string)

  /** The cascade's fixed order. */
  const AuthorSelectors: seq<Selector> :=
    [AuthorName, ArticleAuthor, OgArticleAuthor, TwitterCreator, DcCreator]

  /** `metaTag?.content` is truthy. */
  predicate HasContent(meta: map<Selector, string>, sel: Selector) {
    sel in meta && meta[sel] != ""
  }

  /** The `for ... of authorSelectors` search: index of the first selector with content, or `|selectors|`. */
  function FirstWithContent(meta: map<Selector, string>, selectors: seq<Selector>): (i: nat)
    ensures i <= |selectors|
    ensures forall j :: 0 <= j < i ==> !HasContent(meta, selectors[j])
    ensures i < |selectors| ==> HasContent(meta, selectors[i])
    decreases |selectors|
  {
    if selectors == [] then 0
    else if HasContent(meta, selectors[0]) then 0
    else 1 + FirstWithContent(meta, selectors[1..])
  }

  /** The meta part of the cascade: the first selector with content wins, trimmed. */
  function MetaAuthor(meta: map<Selector, string>, selectors: seq<Selector>): (r: Option<string>)
    ensures r.None? <==> forall i :: 0 <= i < |selectors| ==> !HasContent(meta, selectors[i])
  {
    var i := FirstWithContent(meta, selectors);
    if i < |selectors| then Some(Trim(meta[selectors[i]])) else None
  }

  /**
   * The JSON-LD fallback: `None` when it falls through to the final `null`,
   * that is, when there is no script, it does not parse, or its `author` is
   * falsy (the empty string included).
   */
  function JsonLdAuthor(jsonLd: JsonLd): (r: Option<JsValue>)
    ensures r.None? <==> jsonLd.NoScript? || jsonLd.Malformed? || jsonLd.NoAuthor? || jsonLd == StrAuthor("")
    ensures jsonLd.StrAuthor? && r.Some? ==> r.value == Str(jsonLd.text) && JsTruthy(r.value)
    ensures jsonLd.ObjAuthor? ==> r == Some(jsonLd.name)
  {
    match jsonLd
    case StrAuthor(text) => if text != "" then Some(Str(text)) else None
    case ObjAuthor(name) => Some(name)
    case _ => None
  }

  /** The whole author cascade: meta selectors, then JSON-LD, then `null`. */
  function ResolveAuthor(page: Page): (r: JsValue)
    ensures r == Null ==> MetaAuthor(page.meta, AuthorSelectors).None?
    ensures r.Undefined? ==> page.jsonLd == ObjAuthor(Undefined)
    ensures r == Str("") ==> MetaAuthor(page.meta, AuthorSelectors).Some? || page.jsonLd == ObjAuthor(Str(""))
  {
    match MetaAuthor(page.meta, AuthorSelectors)
    case Some(a) => Str(a)
    case None =>
      match JsonLdAuthor(page.jsonLd)
      case Some(v) => v
      case None => Null
  }

  /** A selector is used only when every earlier selector is missing or empty. */
  lemma {:induction false} AuthorFromFirstMatchingSelector(page: Page, i: nat)
    requires i < |AuthorSelectors| && HasContent(page.meta, AuthorSelectors[i])
    requires forall j :: 0 <= j < i ==> !HasContent(page.meta, AuthorSelectors[j])
    ensures ResolveAuthor(page) == Str(Trim(page.meta[AuthorSelectors[i]]))
  {
    var k := FirstWithContent(page.meta, AuthorSelectors);
    assert k == i;
  }

  /** Whitespace-only content still wins the cascade, as the empty string. */
  lemma BlankAuthorMetaStops(page: Page)
    requires AuthorName in page.meta && page.meta[AuthorName] != [] && AllSpace(page.meta[AuthorName])
    ensures ResolveAuthor(page) == Str("")
  {
    AuthorFromFirstMatchingSelector(page, 0);
  }

  /** JSON-LD is consulted only when no meta selector matched, and malformed data reads as no author. */
  lemma JsonLdOnlyAsFallback(page: Page)
    requires forall i :: 0 <= i < |AuthorSelectors| ==> !HasContent(page.meta, AuthorSelectors[i])
    ensures ResolveAuthor(page) == match page.jsonLd
      case StrAuthor(text) => if text != "" then Str(text) else Null
      case ObjAuthor(name) => name
      case _ => Null
  {
  }
}
