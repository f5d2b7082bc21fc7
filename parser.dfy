/**
 * Item extraction (src/alertbot/parser.py): how a fetched page becomes an
 * ordered list of items, each with a title, an optional absolute link, a
 * content text and an identity hash.
 *
 * HTML parsing and CSS selection, URL resolution and SHA-256 belong to other
 * libraries; they reach the model as the function values of a `Toolkit`, and
 * the extraction policy built on top of them is modelled exactly.
 */
module Parser {
  import opened Options
  import opened Strings
  import opened Settings

  /** One extracted item (a frozen dataclass). */
  datatype ParsedItem = ParsedItem(title: string, link: Option<string>, content: string, contentHash: string)

  /**
   * The foreign operations the extractor calls, over an abstract element type
   * `E` (a BeautifulSoup tag; the parsed document is an element too).
   * A tag found by `select_one` or `find` is always truthy, so "found" means
   * only "not None".
   */
  datatype Toolkit<!E> = Toolkit(
    parse: string -> E,                      // BeautifulSoup(html, "html.parser")
    select: (E, string) -> seq<E>,           // element.select(selector)
    selectOne: (E, string) -> Option<E>,     // element.select_one(selector)
    findAnchor: E -> Option<E>,              // element.find("a")
    href: E -> Option<string>,               // element.get("href")
    text: E -> string,                       // element.get_text(strip=True)
    spacedText: E -> string,                 // element.get_text(" ", strip=True)
    urljoin: (string, string) -> string,     // urllib.parse.urljoin(base, link)
    sha256: string -> string)                // hex digest of the UTF-8 bytes

  /**
   * `urljoin` against this base never turns a non-empty reference into the
   * empty string. It fails for some bases: `urljoin("?", "#")` is empty.
   */
  ghost predicate JoinKeepsNonEmpty<E>(tk: Toolkit<E>, base: string)
  {
    forall link :: link != "" ==> tk.urljoin(base, link) != ""
  }

  const PageUpdateTitle: string := "Page Update"
  const NoTitle: string := "(no title)"

  /** `_hash_text` */
  function HashText<E>(tk: Toolkit<E>, text: string): string
  {
    tk.sha256(text)
  }

  /** `_select_text`: the first match's text if the selector is set and matches, else the element's own text. */
  function SelectText<E>(tk: Toolkit<E>, element: E, selector: Option<string>): (r: string)
    ensures !Present(selector) ==> r == tk.text(element)
    ensures Present(selector) && tk.selectOne(element, selector.value).None? ==> r == tk.text(element)
    ensures Present(selector) && tk.selectOne(element, selector.value).Some? ==>
              r == tk.text(tk.selectOne(element, selector.value).value)
  {
    if Present(selector) then
      match tk.selectOne(element, selector.value)
      case Some(found) => tk.text(found)
      case None => tk.text(element)
    else tk.text(element)
  }

  /** The `href` of an optional element, when present and non-empty. */
  function HrefOf<E>(tk: Toolkit<E>, found: Option<E>): (href: Option<string>)
    ensures href.None? || href.value != ""
    ensures href.Some? ==> found.Some? && href == tk.href(found.value)
  {
    if found.Some? && Present(tk.href(found.value)) then tk.href(found.value) else None
  }

  /**
   * `_select_link`: the link selector's first match wins when it carries a
   * non-empty `href`; otherwise the first anchor's non-empty `href`;
   * otherwise no link. An empty `href` never comes out.
   */
  function SelectLink<E>(tk: Toolkit<E>, element: E, selector: Option<string>): (link: Option<string>)
    ensures link.None? || link.value != ""
    ensures Present(selector) && HrefOf(tk, tk.selectOne(element, selector.value)).Some? ==>
              link == HrefOf(tk, tk.selectOne(element, selector.value))
    ensures (!Present(selector) || HrefOf(tk, tk.selectOne(element, selector.value)).None?) ==>
              link == HrefOf(tk, tk.findAnchor(element))
  {
    var fromSelector := if Present(selector) then HrefOf(tk, tk.selectOne(element, selector.value)) else None;
    if fromSelector.Some? then fromSelector else HrefOf(tk, tk.findAnchor(element))
  }

  /** `_normalize_link`: no link for `None` or `""`, otherwise the link resolved against the target page. */
  function NormalizeLink<E>(tk: Toolkit<E>, link: Option<string>, config: Config): (r: Option<string>)
    ensures r.None? <==> !Present(link)
    ensures r.Some? ==> r.value == tk.urljoin(config.targetUrl, link.value)
  {
    if !Present(link) then None else Some(tk.urljoin(config.targetUrl, link.value))
  }

  /** How `f"{link}"` prints an optional link: a missing link becomes the text `None`. */
  function LinkText(link: Option<string>): (text: string)
    ensures link.Some? ==> text == link.value
    ensures text == "None" <==> link.None? || link == Some("None")
  {
    match link
    case Some(l) => l
    case None => "None"
  }

  /** The text hashed to identify a multi-item entry: `f"{title}|{link}|{content}"`. */
  function HashInput(title: string, link: Option<string>, content: string): (text: string)
    ensures |text| == |title| + |LinkText(link)| + |content| + 2
    ensures text[..|title|] == title && text[|title|] == '|'
    ensures text[|text| - |content|..] == content
  {
    title + "|" + LinkText(link) + "|" + content
  }

  /** One matched element as an item (the body of the loop in `parse_items`). */
  function ItemOf<E>(tk: Toolkit<E>, config: Config, element: E): (item: ParsedItem)
    ensures item.title != ""
    ensures item.link.None? <==> !Present(SelectLink(tk, element, config.linkSelector))
    ensures item.contentHash == HashText(tk, HashInput(item.title, item.link, item.content))
  {
    var selected := SelectText(tk, element, config.titleSelector);
    var title := if selected == "" then NoTitle else selected;
    var content := if Present(config.contentSelector) then SelectText(tk, element, config.contentSelector)
                   else tk.spacedText(element);
    var link := NormalizeLink(tk, SelectLink(tk, element, config.linkSelector), config);
    ParsedItem(title, link, content, HashText(tk, HashInput(title, link, content)))
  }

  /** The elements the item selector picks out; none when no item selector is set. */
  function Matched<E>(tk: Toolkit<E>, html: string, config: Config): (elements: seq<E>)
    ensures !Present(config.itemSelector) ==> elements == []
  {
    if Present(config.itemSelector) then tk.select(tk.parse(html), config.itemSelector.value) else []
  }

  /** The single whole-page item: fixed title, the target URL as link, the page text and its hash. */
  function PageItem<E>(tk: Toolkit<E>, html: string, config: Config): (item: ParsedItem)
    ensures item.title == PageUpdateTitle && item.link == Some(config.targetUrl)
    ensures item.contentHash == HashText(tk, item.content)
  {
    var text := tk.spacedText(tk.parse(html));
    ParsedItem(PageUpdateTitle, Some(config.targetUrl), text, HashText(tk, text))
  }

  /**
   * `parse_items`: never empty; exactly the whole-page item when the item
   * selector is unset or selects nothing, and otherwise one item per matched
   * element, in document order.
   */
  function ParseItems<E>(tk: Toolkit<E>, html: string, config: Config): (items: seq<ParsedItem>)
    ensures |items| >= 1
    ensures Matched(tk, html, config) == [] ==> items == [PageItem(tk, html, config)]
    ensures Matched(tk, html, config) != [] ==>
              |items| == |Matched(tk, html, config)| &&
              forall i :: 0 <= i < |items| ==> items[i] == ItemOf(tk, config, Matched(tk, html, config)[i])
  {
    var elements := Matched(tk, html, config);
    if elements == [] then [PageItem(tk, html, config)]
    else seq(|elements|, i requires 0 <= i < |elements| => ItemOf(tk, config, elements[i]))
  }

  // ---------------------------------------------------------------- properties

  /** Whole-page mode happens exactly when the item selector is unset or selects nothing. */
  lemma WholePageWhen<E>(tk: Toolkit<E>, html: string, config: Config)
    ensures Matched(tk, html, config) == [] <==>
              !Present(config.itemSelector) || tk.select(tk.parse(html), config.itemSelector.value) == []
    ensures Matched(tk, html, config) == [] ==>
              var item := ParseItems(tk, html, config)[0];
              && |ParseItems(tk, html, config)| == 1
              && item.title == "Page Update"
              && item.link == Some(config.targetUrl)
              && item.content == tk.spacedText(tk.parse(html))
              && item.contentHash == tk.sha256(item.content)
  {
  }

  /** No item ever has an empty title: an empty selected text becomes `(no title)`. */
  lemma TitlesNeverEmpty<E>(tk: Toolkit<E>, html: string, config: Config)
    ensures forall item :: item in ParseItems(tk, html, config) ==> item.title != ""
  {
    var items := ParseItems(tk, html, config);
    forall item | item in items ensures item.title != "" {
      var i :| 0 <= i < |items| && items[i] == item;
      if Matched(tk, html, config) != [] {
        assert NoTitle != "";
      }
    }
  }

  /**
   * Content comes from the content selector only when one is configured, and
   * otherwise is the element's whole space-joined text.
   */
  lemma ContentSource<E>(tk: Toolkit<E>, config: Config, element: E)
    ensures !Present(config.contentSelector) ==> ItemOf(tk, config, element).content == tk.spacedText(element)
    ensures Present(config.contentSelector) ==>
              ItemOf(tk, config, element).content == SelectText(tk, element, config.contentSelector)
  {
  }

  /**
   * With a non-empty target URL against which `urljoin` keeps non-empty
   * references non-empty, no item carries the empty string as its link:
   * an item either has no link or a non-empty one, so the store looks it up
   * by link exactly when it has one.
   */
  lemma LinksNeverEmpty<E>(tk: Toolkit<E>, html: string, config: Config)
    requires config.targetUrl != "" && JoinKeepsNonEmpty(tk, config.targetUrl)
    ensures forall item :: item in ParseItems(tk, html, config) ==> (item.link.Some? <==> Present(item.link))
  {
    var items := ParseItems(tk, html, config);
    forall item | item in items ensures item.link.Some? <==> Present(item.link) {
      var i :| 0 <= i < |items| && items[i] == item;
      if Matched(tk, html, config) != [] {
        var e := Matched(tk, html, config)[i];
        var raw := SelectLink(tk, e, config.linkSelector);
        if raw.Some? {
          assert tk.urljoin(config.targetUrl, raw.value) != "";
        }
      }
    }
  }

  /** Items built from equal title, link and content have equal hashes. */
  lemma EqualFieldsEqualHash<E>(tk: Toolkit<E>, config: Config, e1: E, e2: E)
    requires ItemOf(tk, config, e1).title == ItemOf(tk, config, e2).title
    requires ItemOf(tk, config, e1).link == ItemOf(tk, config, e2).link
    requires ItemOf(tk, config, e1).content == ItemOf(tk, config, e2).content
    ensures ItemOf(tk, config, e1) == ItemOf(tk, config, e2)
  {
  }

  /**
   * The hashed text determines the triple as long as titles and links carry
   * no `|` and a link is never the literal text `None`.
   */
  lemma {:induction false} HashInputInjective(t1: string, l1: Option<string>, c1: string,
                                              t2: string, l2: Option<string>, c2: string)
    requires '|' !in t1 && '|' !in t2
    requires '|' !in LinkText(l1) && '|' !in LinkText(l2)
    requires l1 != Some("None") && l2 != Some("None")
    requires HashInput(t1, l1, c1) == HashInput(t2, l2, c2)
    ensures t1 == t2 && l1 == l2 && c1 == c2
  {
    var a1, a2 := LinkText(l1), LinkText(l2);
    assert HashInput(t1, l1, c1) == t1 + "|" + (a1 + "|" + c1);
    assert HashInput(t2, l2, c2) == t2 + "|" + (a2 + "|" + c2);
    SplitAtFirstBar(t1, a1 + "|" + c1, t2, a2 + "|" + c2);
    SplitAtFirstBar(a1, c1, a2, c2);
  }

  /** Two strings cut at their first `|` agree on both sides of the cut. */
  lemma SplitAtFirstBar(p1: string, r1: string, p2: string, r2: string)
    requires '|' !in p1 && '|' !in p2
    requires p1 + "|" + r1 == p2 + "|" + r2
    ensures p1 == p2 && r1 == r2
  {
    var s := p1 + "|" + r1;
    assert s == p2 + "|" + r2;
    assert s[|p1|] == '|' && s[|p2|] == '|';
    assert forall i :: 0 <= i < |p1| ==> s[i] == p1[i] && s[i] != '|';
    assert forall i :: 0 <= i < |p2| ==> s[i] == p2[i] && s[i] != '|';
    assert |p1| == |p2|;
    assert p1 == s[..|p1|] == p2;
    assert r1 == s[|p1| + 1..] == r2;
  }

  /**
   * Without those conditions distinct items share a hash: a missing link and
   * the link text `None` print alike, and `|` inside a title can shift the fields.
   */
  lemma HashInputAmbiguous()
    ensures HashInput("t", None, "c") == HashInput("t", Some("None"), "c")
    ensures HashInput("a|None", None, "x") == HashInput("a", None, "None|x")
  {
  }
}
