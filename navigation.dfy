/**
 * The navigation tables of the site: `convertToRouteObject` of
 * `src/components/Router.tsx`, which flattens the two-level link tree into
 * the router's list of routes, and `findAccordationIndex` of
 * `src/components/Page.tsx`, which finds the sidebar group holding a link.
 * Page components are opaque values, known by the name of the component.
 */
module Navigation {
  import opened Wrappers

  /** A page component (`<Home />`, `<NotFound />`, ...). */
  datatype Element = Element(component: string)

  /** An entry of a group's `child` list. */
  datatype ChildLink = ChildLink(name: string, link: string, element: Element)

  /**
   * `LinkItemProps`: a group with `child` links, or a leaf with its own
   * `link` and `element` (the icon and the `key` are not modelled).
   */
  datatype LinkItem = LinkItem(name: string, child: Option<seq<ChildLink>>, link: Option<string>, element: Option<Element>)

  /** A `RouteObject` as `convertToRouteObject` builds it. */
  datatype Route = Route(path: Option<string>, element: Option<Element>, index: bool)

  const NotFoundElement: Element := Element("NotFound")

  // ---------------------------------------------------------------------------
  // convertToRouteObject
  // ---------------------------------------------------------------------------

  /** The index route: path `/`, the first item's element. */
  function IndexRoute(first: LinkItem): Route {
    Route(Some("/"), first.element, true)
  }

  /** The catch-all route: path `*`, the not-found page. */
  const CatchAllRoute: Route := Route(Some("*"), Some(NotFoundElement), false)

  function ChildRoute(c: ChildLink): Route {
    Route(Some(c.link), Some(c.element), false)
  }

  /** One route per child, in the order of the children. */
  function ChildRoutes(cs: seq<ChildLink>): seq<Route> {
    seq(|cs|, k requires 0 <= k < |cs| => ChildRoute(cs[k]))
  }

  /**
   * The routes an item contributes: one per child for a group (a `child`
   * array is truthy even when empty), its own link and element for a leaf.
   */
  function ItemRoutes(item: LinkItem): seq<Route> {
    if item.child.Some? then ChildRoutes(item.child.value) else [Route(item.link, item.element, false)]
  }

  /** How many routes an item contributes. */
  function Size(item: LinkItem): nat {
    if item.child.Some? then |item.child.value| else 1
  }

  /** How many routes the items contribute together. */
  function RouteCount(items: seq<LinkItem>): nat {
    if items == [] then 0 else Size(items[0]) + RouteCount(items[1..])
  }

  /** The routes of all items, item after item. */
  function AllRoutes(items: seq<LinkItem>): seq<Route> {
    if items == [] then [] else ItemRoutes(items[0]) + AllRoutes(items[1..])
  }

  /** `convertToRouteObject(input)` for a non-empty `input`. */
  function Routes(input: seq<LinkItem>): seq<Route>
    requires input != []
  {
    [IndexRoute(input[0])] + AllRoutes(input) + [CatchAllRoute]
  }

  /**
   * `convertToRouteObject(input)`: the index route, then the routes of the
   * items in a `forEach` over them (and over a group's children), then the
   * catch-all route. An empty `input` makes `input[0].element` throw.
   */
  method ConvertToRouteObject(input: seq<LinkItem>) returns (r: Result<seq<Route>, string>)
    ensures input == [] <==> r.Failure?
    ensures r.Success? ==> r.value == Routes(input)
  {
    if input == [] {
      return Failure("TypeError: input[0] is undefined");
    }
    var result := [IndexRoute(input[0])];
    var ix := 0;
    while ix < |input|
      invariant 0 <= ix <= |input|
      invariant result == [IndexRoute(input[0])] + AllRoutes(input[..ix])
    {
      AllRoutesSnoc(input, ix);
      var item := input[ix];
      if item.child.Some? {
        var cs := item.child.value;
        var start := result;
        var j := 0;
        while j < |cs|
          invariant 0 <= j <= |cs|
          invariant result == start + ChildRoutes(cs[..j])
        {
          ChildRoutesSnoc(cs, j);
          result := result + [ChildRoute(cs[j])];
          j := j + 1;
        }
        assert cs[..j] == cs;
      } else {
        result := result + [Route(item.link, item.element, false)];
      }
      ix := ix + 1;
    }
    assert input[..ix] == input;
    r := Success(result + [CatchAllRoute]);
  }

  lemma ChildRoutesSnoc(cs: seq<ChildLink>, j: nat)
    requires j < |cs|
    ensures ChildRoutes(cs[..j + 1]) == ChildRoutes(cs[..j]) + [ChildRoute(cs[j])]
  {
  }

  /** The routes of one more item follow those of the items before it. */
  lemma {:induction false} AllRoutesSnoc(items: seq<LinkItem>, k: nat)
    requires k < |items|
    ensures AllRoutes(items[..k + 1]) == AllRoutes(items[..k]) + ItemRoutes(items[k])
    decreases k
  {
    if k > 0 {
      AllRoutesSnoc(items[1..], k - 1);
      assert items[..k + 1][1..] == items[1..][..k];
      assert items[..k][1..] == items[1..][..k - 1];
    } else {
      assert items[..1][1..] == [];
    }
  }

  /** There is one route per child of each group and one per leaf. */
  lemma {:induction false} AllRoutesLength(items: seq<LinkItem>)
    ensures |AllRoutes(items)| == RouteCount(items)
  {
    if items != [] {
      AllRoutesLength(items[1..]);
    }
  }

  /**
   * The routes of item `i` stand together, in their own order, after those
   * of the items before it: the order of the items is kept.
   */
  lemma {:induction false} AllRoutesPlacement(items: seq<LinkItem>, i: nat, k: nat)
    requires i < |items| && k < Size(items[i])
    ensures RouteCount(items[..i]) + k < |AllRoutes(items)|
    ensures AllRoutes(items)[RouteCount(items[..i]) + k] == ItemRoutes(items[i])[k]
    decreases i
  {
    AllRoutesLength(items);
    AllRoutesLength(items[1..]);
    if i > 0 {
      AllRoutesPlacement(items[1..], i - 1, k);
      assert items[..i][1..] == items[1..][..i - 1];
    }
  }

  /**
   * The index route comes first, with the first item's element; the
   * catch-all route comes last; in between are `RouteCount(input)` routes.
   */
  lemma RoutesShape(input: seq<LinkItem>)
    requires input != []
    ensures |Routes(input)| == 2 + RouteCount(input)
    ensures Routes(input)[0] == Route(Some("/"), input[0].element, true)
    ensures Routes(input)[|Routes(input)| - 1] == Route(Some("*"), Some(NotFoundElement), false)
  {
    AllRoutesLength(input);
  }

  // ---------------------------------------------------------------------------
  // findAccordationIndex
  // ---------------------------------------------------------------------------

  /** `LinkItems.filter((link) => link.child)`: the groups, in order. */
  function Groups(items: seq<LinkItem>): (r: seq<LinkItem>)
    ensures forall x :: x in r <==> x in items && x.child.Some?
  {
    if items == [] then []
    else if items[0].child.Some? then [items[0]] + Groups(items[1..])
    else Groups(items[1..])
  }

  /** `i.child.map((j) => j.link)`. */
  function Links(cs: seq<ChildLink>): seq<string> {
    seq(|cs|, k requires 0 <= k < |cs| => cs[k].link)
  }

  /** The child links of each group, one list per group (`a` in `findAccordationIndex`). */
  function ChildGroups(items: seq<LinkItem>): (a: seq<seq<string>>)
    ensures |a| == |Groups(items)|
  {
    var gs := Groups(items);
    seq(|gs|, k requires 0 <= k < |gs| => Links(gs[k].child.value))
  }

  /** `s.indexOf(x)`: the first position of `x`, or -1. */
  function IndexOf(s: seq<string>, x: string): (r: int)
    ensures r == -1 <==> x !in s
    ensures r != -1 ==> 0 <= r < |s| && s[r] == x && x !in s[..r]
  {
    if s == [] then -1
    else if s[0] == x then 0
    else var i := IndexOf(s[1..], x); if i == -1 then -1 else assert s[..i + 1] == [s[0]] + s[1..][..i]; i + 1
  }

  /** The last group whose links hold `url`, or -1. */
  function AccordionIndex(groups: seq<seq<string>>, url: string): int
    decreases |groups|
  {
    if groups == [] then -1
    else if url in groups[|groups| - 1] then |groups| - 1
    else AccordionIndex(groups[..|groups| - 1], url)
  }

  /**
   * `findAccordationIndex(url)` over the link tree `items`: every group that
   * holds `url` overwrites `temp` with its index (`a.indexOf(i)` finds the
   * array `i` itself, since `map` makes a fresh array per group).
   */
  method FindAccordionIndex(items: seq<LinkItem>, url: string) returns (temp: int)
    ensures temp == AccordionIndex(ChildGroups(items), url)
  {
    var a := ChildGroups(items);
    temp := -1;
    var ix := 0;
    while ix < |a|
      invariant 0 <= ix <= |a|
      invariant temp == AccordionIndex(a[..ix], url)
    {
      assert a[..ix + 1][..ix] == a[..ix];
      var j := IndexOf(a[ix], url);
      if j != -1 {
        temp := ix;
      }
      ix := ix + 1;
    }
    assert a[..ix] == a;
  }

  /**
   * The result is -1 exactly when no group holds `url`; otherwise it is the
   * index of a group holding `url`, and no later group holds it.
   */
  lemma {:induction false} AccordionIndexSpec(groups: seq<seq<string>>, url: string)
    ensures -1 <= AccordionIndex(groups, url) < |groups|
    ensures AccordionIndex(groups, url) == -1 <==> forall k :: 0 <= k < |groups| ==> url !in groups[k]
    ensures AccordionIndex(groups, url) >= 0 ==>
      url in groups[AccordionIndex(groups, url)] &&
      forall k :: AccordionIndex(groups, url) < k < |groups| ==> url !in groups[k]
    decreases |groups|
  {
    if groups != [] && url !in groups[|groups| - 1] {
      var init := groups[..|groups| - 1];
      AccordionIndexSpec(init, url);
      forall k | 0 <= k < |init| ensures init[k] == groups[k] {
      }
    }
  }

  /** Leaf items take no part in the search: dropping one leaves the groups, and so the result, as they are. */
  lemma {:induction false} GroupsWithoutLeaf(items: seq<LinkItem>, i: nat)
    requires i < |items| && items[i].child.None?
    ensures Groups(items[..i] + items[i + 1..]) == Groups(items)
    ensures ChildGroups(items[..i] + items[i + 1..]) == ChildGroups(items)
    decreases i
  {
    if i > 0 {
      GroupsWithoutLeaf(items[1..], i - 1);
      assert items[..i] + items[i + 1..] == [items[0]] + (items[1..][..i - 1] + items[1..][i..]);
    } else {
      assert items[..i] + items[i + 1..] == items[1..];
    }
  }

  /** A URL that is not the link of any child of a group is matched by no group. */
  lemma NoChildLink(items: seq<LinkItem>, url: string)
    requires forall k :: 0 <= k < |items| && items[k].child.Some? ==>
      forall j :: 0 <= j < |items[k].child.value| ==> items[k].child.value[j].link != url
    ensures AccordionIndex(ChildGroups(items), url) == -1
  {
    var a := ChildGroups(items);
    var gs := Groups(items);
    forall k | 0 <= k < |a| ensures url !in a[k] {
      assert gs[k] in gs;
      var cs := gs[k].child.value;
      assert a[k] == Links(cs);
      forall j | 0 <= j < |cs| ensures Links(cs)[j] != url {
      }
    }
    AccordionIndexSpec(a, url);
  }

  // ---------------------------------------------------------------------------
  // The link trees of the site
  // ---------------------------------------------------------------------------

  function Leaf(name: string, link: string, component: string): LinkItem {
    LinkItem(name, None, Some(link), Some(Element(component)))
  }

  function Group(name: string, child: seq<ChildLink>): LinkItem {
    LinkItem(name, Some(child), None, None)
  }

  /** `LinkItems` of `src/components/Router.tsx`, the tree the router is built from. */
  const RouterLinkItems: seq<LinkItem> := [
    Leaf("Home", "home", "Home"),
    Group("Security Tools", [
      ChildLink("Hash Calculator", "hash-calculator", Element("HashCalculator")),
      ChildLink("UUID Generator", "uuid-generator", Element("UuidGenerator")),
      ChildLink("UUID Validator", "uuid-validator", Element("UuidValidator")),
      ChildLink("Password Generator", "password-generator", Element("PasswordGenerator"))]),
    Group("Encoding Tools", [
      ChildLink("HTML Encoder", "html-encoder", Element("HtmlEncoder")),
      ChildLink("URL Encoder", "url-encoder", Element("UrlEncoder")),
      ChildLink("Text Encoder", "text-encoder", Element("TextEncoder")),
      ChildLink("File Encoder", "file-encoder", Element("FileEncoder"))]),
    Group("Text Tools", [
      ChildLink("Character Counter", "character-counter", Element("CharacterCounter")),
      ChildLink("Text Comparator", "text-comparator", Element("TextComparator")),
      ChildLink("Regex Templates", "regex", Element("Regex")),
      ChildLink("Beautifier/Minifier", "beautifier-minifier", Element("Beautifier")),
      ChildLink("JSON Viewer", "json-viewer", Element("JsonViewer")),
      ChildLink("JSON Comparator", "json-comparator", Element("JsonComparator")),
      ChildLink("YAML Validator", "yaml-validator", Element("YamlValidator"))]),
    Group("Date Time Tools", [
      ChildLink("Date Time Converter", "date-time-converter", Element("DateTimeConverter"))])
  ]

  /** `LinkItems` of `src/routes.tsx`, the tree the sidebar of `Page.tsx` searches. */
  const PageLinkItems: seq<LinkItem> := [
    Leaf("Home", "home", "Home"),
    Group("Security Tools", [
      ChildLink("Hash Calculator", "hash-calculator", Element("HashCalculator")),
      ChildLink("UUID Generator", "uuid-generator", Element("UuidGenerator")),
      ChildLink("UUID Validator", "uuid-validator", Element("UuidValidator")),
      ChildLink("Password Generator", "password-generator", Element("PasswordGenerator")),
      ChildLink("JWT Encoder/Decoder", "jwt", Element("Home"))]),
    Group("Encoding Tools", [
      ChildLink("URL Encoder", "url-encoder", Element("UrlEncoder")),
      ChildLink("Text Encoder", "text-encoder", Element("TextEncoder")),
      ChildLink("Image Encoder", "image-encoder", Element("Home")),
      ChildLink("File Encoder", "file-encoder", Element("Home"))]),
    Group("Text Tools", [
      ChildLink("Text Comparator", "text-comparator", Element("Home")),
      ChildLink("JSON Beautifier", "json-beautifier", Element("Home")),
      ChildLink("XML Beautifier", "xml-beautifier", Element("Home")),
      ChildLink("YAML Validator", "yaml-validator", Element("Home")),
      ChildLink("Regex Checker", "regex-checker", Element("Home"))])
  ]

  /**
   * The router's tree gives 19 routes: the index route with the home page,
   * the 17 links of the tree in order (the home page again at `home`), and
   * the catch-all route.
   */
  lemma RouterRoutes()
    ensures |Routes(RouterLinkItems)| == 19
    ensures Routes(RouterLinkItems)[0] == Route(Some("/"), Some(Element("Home")), true)
    ensures Routes(RouterLinkItems)[1] == Route(Some("home"), Some(Element("Home")), false)
    ensures Routes(RouterLinkItems)[18] == CatchAllRoute
  {
    RoutesShape(RouterLinkItems);
    assert RouteCount(RouterLinkItems) == 17;
  }

  /** In the sidebar, the home page's own link opens no group: it is a leaf. */
  lemma PageHomeOpensNoGroup()
    ensures AccordionIndex(ChildGroups(PageLinkItems), "home") == -1
  {
    NoChildLink(PageLinkItems, "home");
  }
}
