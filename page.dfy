/** The page-extraction methods of class `fetch` in bert/parser/Parser.py: `text`,
    `urls`, `titles`, `date`, `tags` and `author`. The page is given already parsed,
    as its elements in document order; downloading and parsing it is not modelled. */
module PageExtract {
  import opened Common

  /** One element of a parsed page. `attrs` holds the single-valued attributes and
      `classes` the multi-valued `class` attribute (None when absent). `text` is the
      element's `.text`; `stringValue` is its `.string`, which the parser leaves None
      unless the element has a single text child. */
  datatype Element = Element(
    tag: string,
    attrs: map<string, string>,
    classes: Option<seq<string>>,
    text: string,
    stringValue: Option<string>)

  /** A row of the `urls()` frame: the anchor's text and its `href`, when present. */
  datatype Anchor = Anchor(text: string, href: Option<string>)

  /** The exceptions the methods raise: `KeyError` on a missing `content` attribute,
      `AttributeError` on a page without `<title>`, and `ValueError` on a heading level
      other than 0, 1 or 2. */
  datatype PageError = MissingContent | NoTitleElement | BadLevel(h: int)

  /** The test `find_all(tag)` applies to each element. */
  function HasTag(tag: string): Element -> bool
  {
    (e: Element) => e.tag == tag
  }

  /** `find_all(tag)`: the elements with that tag, in document order. */
  function ElementsWithTag(page: seq<Element>, tag: string): seq<Element>
  {
    Filter(page, HasTag(tag))
  }

  lemma ElementsWithTagMembers(page: seq<Element>, tag: string)
    ensures forall e :: e in ElementsWithTag(page, tag) <==> e in page && e.tag == tag
  {
    forall e | true ensures e in ElementsWithTag(page, tag) <==> e in page && e.tag == tag {
      FilterMembers(page, HasTag(tag), e);
    }
  }

  function Texts(es: seq<Element>): (ts: seq<string>)
    ensures |ts| == |es| && forall i :: 0 <= i < |es| ==> ts[i] == es[i].text
  {
    seq(|es|, i requires 0 <= i < |es| => es[i].text)
  }

  function TagTexts(page: seq<Element>, tag: string): seq<string>
  {
    Texts(ElementsWithTag(page, tag))
  }

  // ---------------------------------------------------------------- text()

  /** What the loop of `text()` has built after the given paragraphs: each text
      preceded by one space. */
  function SpacePrefixed(xs: seq<string>): string
  {
    if xs == [] then "" else SpacePrefixed(xs[..|xs| - 1]) + " " + xs[|xs| - 1]
  }

  lemma {:induction false} SpacePrefixedIsJoin(xs: seq<string>)
    requires xs != []
    ensures SpacePrefixed(xs) == " " + Join(" ", xs)
    decreases |xs|
  {
    var init := xs[..|xs| - 1];
    var last := xs[|xs| - 1];
    assert xs == init + [last];
    if init != [] {
      SpacePrefixedIsJoin(init);
      JoinSnoc(" ", init, last);
    }
  }

  /** `fetch.text()`: the paragraph texts in document order, separated by single
      spaces; the empty string when the page has no paragraph. */
  method Text(page: seq<Element>) returns (r: string)
    ensures r == Join(" ", TagTexts(page, "p"))
  {
    var ps := ElementsWithTag(page, "p");
    ghost var texts := TagTexts(page, "p");
    var webtext := "";
    for k := 0 to |ps|
      invariant webtext == SpacePrefixed(texts[..k])
    {
      assert texts[..k + 1][..k] == texts[..k];
      webtext := webtext + " " + ps[k].text;
    }
    assert texts[..|ps|] == texts;
    if texts != [] {
      SpacePrefixedIsJoin(texts);
    }
    r := if |webtext| >= 1 then webtext[1..] else "";
  }

  /** Every paragraph's text occurs in what `text()` returns. */
  lemma TextHoldsEachParagraph(page: seq<Element>, e: Element)
    requires e in page && e.tag == "p"
    ensures Contains(Join(" ", TagTexts(page, "p")), e.text)
  {
    var ps := ElementsWithTag(page, "p");
    ElementsWithTagMembers(page, "p");
    var i :| 0 <= i < |ps| && ps[i] == e;
    JoinContainsMember(" ", TagTexts(page, "p"), i);
  }

  // ---------------------------------------------------------------- urls()

  /** `link.get('href')`. */
  function Href(e: Element): (h: Option<string>)
    ensures h.Some? <==> "href" in e.attrs
    ensures h.Some? ==> h.value == e.attrs["href"]
  {
    if "href" in e.attrs then Some(e.attrs["href"]) else None
  }

  /** `fetch.urls()`: one (text, href) row per `<a>` element, in document order. */
  method Urls(page: seq<Element>) returns (anchors: seq<Anchor>)
    ensures |anchors| == |ElementsWithTag(page, "a")|
    ensures forall k :: 0 <= k < |anchors| ==>
      anchors[k].text == ElementsWithTag(page, "a")[k].text
      && anchors[k].href == Href(ElementsWithTag(page, "a")[k])
  {
    var links := ElementsWithTag(page, "a");
    var urlName: seq<string> := [];
    var urlLink: seq<Option<string>> := [];
    for k := 0 to |links|
      invariant |urlName| == k && |urlLink| == k
      invariant forall t :: 0 <= t < k ==> urlName[t] == links[t].text && urlLink[t] == Href(links[t])
    {
      urlName := urlName + [links[k].text];
      urlLink := urlLink + [Href(links[k])];
    }
    anchors := seq(|urlName|, t requires 0 <= t < |urlName| => Anchor(urlName[t], urlLink[t]));
  }

  // ---------------------------------------------------------------- titles(h)

  /** What `titles(h)` returns: a list of heading texts, or the `<title>`'s `.string`. */
  datatype Titles = Headings(texts: seq<string>) | TitleString(value: Option<string>)

  method HeadingTexts(page: seq<Element>, tag: string) returns (htext: seq<string>)
    ensures htext == TagTexts(page, tag)
  {
    var hs := ElementsWithTag(page, tag);
    htext := [];
    for k := 0 to |hs|
      invariant |htext| == k && forall t :: 0 <= t < k ==> htext[t] == hs[t].text
    {
      htext := htext + [hs[k].text];
    }
  }

  /** `fetch.titles(h)`: all h1 texts for 1, all h2 texts for 2, the first `<title>`'s
      string for 0, `ValueError` otherwise. */
  method TitlesOf(page: seq<Element>, h: int) returns (res: Result<Titles, PageError>)
    ensures h == 1 ==> res == Ok(Headings(TagTexts(page, "h1")))
    ensures h == 2 ==> res == Ok(Headings(TagTexts(page, "h2")))
    ensures h == 0 && ElementsWithTag(page, "title") == [] ==> res == Err(NoTitleElement)
    ensures h == 0 && ElementsWithTag(page, "title") != [] ==>
      res == Ok(TitleString(ElementsWithTag(page, "title")[0].stringValue))
    ensures (h < 0 || 2 < h) <==> res == Err(BadLevel(h))
  {
    if h == 1 {
      var htext := HeadingTexts(page, "h1");
      res := Ok(Headings(htext));
    } else if h == 2 {
      var htext := HeadingTexts(page, "h2");
      res := Ok(Headings(htext));
    } else if h == 0 {
      var titles := ElementsWithTag(page, "title");
      if titles == [] {
        res := Err(NoTitleElement);
      } else {
        res := Ok(TitleString(titles[0].stringValue));
      }
    } else {
      res := Err(BadLevel(h));
    }
  }

  // ---------------------------------------------------------------- date()

  /** The meta tag's `property`, stripped and lowercased, has "published" first
      at an index above 0. */
  predicate IsPublished(e: Element)
  {
    "property" in e.attrs && Find(Lower(Strip(e.attrs["property"])), "published") > 0
  }

  /** The `elif` branch: not published, and "modified" first at an index above 0. */
  predicate IsModified(e: Element)
  {
    "property" in e.attrs && !IsPublished(e) && Find(Lower(Strip(e.attrs["property"])), "modified") > 0
  }

  /** The `content` attributes of the given elements, in order. */
  function Contents(es: seq<Element>): (cs: seq<string>)
    requires forall i :: 0 <= i < |es| ==> "content" in es[i].attrs
    ensures |cs| == |es| && forall i :: 0 <= i < |es| ==> cs[i] == es[i].attrs["content"]
  {
    seq(|es|, i requires 0 <= i < |es| => es[i].attrs["content"])
  }

  /** Every meta tag that `keep` selects has a `content` attribute. */
  predicate SelectedHaveContent(metas: seq<Element>, keep: Element -> bool)
  {
    forall i :: 0 <= i < |metas| && keep(metas[i]) ==> "content" in metas[i].attrs
  }

  lemma SelectedContentsDefined(metas: seq<Element>, keep: Element -> bool)
    requires SelectedHaveContent(metas, keep)
    ensures forall i :: 0 <= i < |Filter(metas, keep)| ==> "content" in Filter(metas, keep)[i].attrs
  {
    var f := Filter(metas, keep);
    forall i | 0 <= i < |f| ensures "content" in f[i].attrs {
      FilterMembers(metas, keep, f[i]);
      var j :| 0 <= j < |metas| && metas[j] == f[i];
    }
  }

  /** The contents of the meta tags `keep` selects, in document order. */
  function SelectedContents(metas: seq<Element>, keep: Element -> bool): (cs: seq<string>)
    requires SelectedHaveContent(metas, keep)
    ensures |cs| == |Filter(metas, keep)|
  {
    SelectedContentsDefined(metas, keep);
    Contents(Filter(metas, keep))
  }

  /** One pass of the loop of `date()` or `tags()` over the meta tags: the selection
      grows by the current tag when `keep` accepts it, and a selected tag without
      `content` makes the whole selection fail. */
  lemma SelectStep(metas: seq<Element>, k: nat, keep: Element -> bool)
    requires k < |metas| && SelectedHaveContent(metas[..k], keep)
    ensures Filter(metas[..k + 1], keep) == Filter(metas[..k], keep) + (if keep(metas[k]) then [metas[k]] else [])
    ensures keep(metas[k]) && "content" !in metas[k].attrs ==> !SelectedHaveContent(metas, keep)
    ensures !keep(metas[k]) || "content" in metas[k].attrs ==> SelectedHaveContent(metas[..k + 1], keep)
  {
    assert metas[..k + 1] == metas[..k] + [metas[k]];
    FilterSnoc(metas[..k], metas[k], keep);
  }

  lemma SelectAll(metas: seq<Element>, keep: Element -> bool)
    requires SelectedHaveContent(metas[..|metas|], keep)
    ensures SelectedHaveContent(metas, keep) && Filter(metas[..|metas|], keep) == Filter(metas, keep)
  {
    assert metas[..|metas|] == metas;
  }

  /** `dates` lists the `content` of each element of `sel`, in order. */
  predicate ContentsOf(dates: seq<string>, sel: seq<Element>)
  {
    |dates| == |sel| && forall t :: 0 <= t < |sel| ==> "content" in sel[t].attrs && dates[t] == sel[t].attrs["content"]
  }

  lemma ContentsOfSnoc(dates: seq<string>, sel: seq<Element>, e: Element)
    requires ContentsOf(dates, sel) && "content" in e.attrs
    ensures ContentsOf(dates + [e.attrs["content"]], sel + [e])
  {
  }

  lemma ContentsOfSelection(dates: seq<string>, metas: seq<Element>, keep: Element -> bool)
    requires SelectedHaveContent(metas, keep) && ContentsOf(dates, Filter(metas, keep))
    ensures dates == SelectedContents(metas, keep)
  {
  }

  /** `fetch.date()`: the contents of the published and of the modified meta tags, in
      document order; `KeyError` when one of them has no `content`. */
  method Date(page: seq<Element>) returns (res: Result<(seq<string>, seq<string>), PageError>)
    ensures res.Ok? <==>
      SelectedHaveContent(ElementsWithTag(page, "meta"), IsPublished)
      && SelectedHaveContent(ElementsWithTag(page, "meta"), IsModified)
    ensures res.Ok? ==>
      && res.value.0 == SelectedContents(ElementsWithTag(page, "meta"), IsPublished)
      && res.value.1 == SelectedContents(ElementsWithTag(page, "meta"), IsModified)
    ensures res.Err? ==> res.error == MissingContent
  {
    var meta := ElementsWithTag(page, "meta");
    var publishedDate: seq<string> := [];
    var modifiedDate: seq<string> := [];
    ghost var published: seq<Element> := [];
    ghost var modified: seq<Element> := [];
    for k := 0 to |meta|
      invariant SelectedHaveContent(meta[..k], IsPublished) && SelectedHaveContent(meta[..k], IsModified)
      invariant published == Filter(meta[..k], IsPublished) && modified == Filter(meta[..k], IsModified)
      invariant ContentsOf(publishedDate, published) && ContentsOf(modifiedDate, modified)
    {
      var tag := meta[k];
      SelectStep(meta, k, IsPublished);
      SelectStep(meta, k, IsModified);
      if IsPublished(tag) {
        if "content" !in tag.attrs {
          return Err(MissingContent);
        }
        ContentsOfSnoc(publishedDate, published, tag);
        publishedDate := publishedDate + [tag.attrs["content"]];
        published := published + [tag];
      } else if IsModified(tag) {
        if "content" !in tag.attrs {
          return Err(MissingContent);
        }
        ContentsOfSnoc(modifiedDate, modified, tag);
        modifiedDate := modifiedDate + [tag.attrs["content"]];
        modified := modified + [tag];
      }
    }
    SelectAll(meta, IsPublished);
    SelectAll(meta, IsModified);
    ContentsOfSelection(publishedDate, meta, IsPublished);
    ContentsOfSelection(modifiedDate, meta, IsModified);
    res := Ok((publishedDate, modifiedDate));
  }

  /** A property that starts with "published" (after stripping and lowercasing) is
      not collected as a publication date, since `find` reports index 0 for it. */
  lemma LeadingPublishedSkipped(e: Element)
    requires "property" in e.attrs && OccursAt(Lower(Strip(e.attrs["property"])), "published", 0)
    ensures !IsPublished(e)
  {
    FindFirst(Lower(Strip(e.attrs["property"])), "published");
  }

  /** A meta tag lands in at most one of the two lists, published taking precedence. */
  lemma DateListsDisjoint(e: Element)
    requires "property" in e.attrs
    requires Find(Lower(Strip(e.attrs["property"])), "published") > 0
    ensures IsPublished(e) && !IsModified(e)
  {
  }

  // ---------------------------------------------------------------- tags()

  /** `name` present, and its stripped, lowercased value is "description" or "keywords". */
  predicate IsDescriptive(e: Element)
  {
    "name" in e.attrs && Lower(Strip(e.attrs["name"])) in ["description", "keywords"]
  }

  /** The rows of `tags()`: each selected meta tag's lowercased, unstripped name with
      its content. */
  function DescriptiveRows(metas: seq<Element>): (rows: seq<(string, string)>)
    requires SelectedHaveContent(metas, IsDescriptive)
    ensures |rows| == |Filter(metas, IsDescriptive)|
    ensures forall i :: 0 <= i < |rows| ==> "name" in Filter(metas, IsDescriptive)[i].attrs
    ensures forall i :: 0 <= i < |rows| ==>
      rows[i].0 == Lower(Filter(metas, IsDescriptive)[i].attrs["name"])
    ensures forall i :: 0 <= i < |rows| ==>
      rows[i].1 == SelectedContents(metas, IsDescriptive)[i]
  {
    var ds := Filter(metas, IsDescriptive);
    FilterAccepts(metas, IsDescriptive);
    SelectedContentsDefined(metas, IsDescriptive);
    seq(|ds|, i requires 0 <= i < |ds| => (Lower(ds[i].attrs["name"]), ds[i].attrs["content"]))
  }

  /** `names` holds the lowercased `name` attribute of each element of `sel`. */
  predicate LowerNamesOf(names: seq<string>, sel: seq<Element>)
  {
    |names| == |sel| && forall t :: 0 <= t < |sel| ==> "name" in sel[t].attrs && names[t] == Lower(sel[t].attrs["name"])
  }

  lemma LowerNamesOfSnoc(names: seq<string>, sel: seq<Element>, e: Element)
    requires LowerNamesOf(names, sel) && "name" in e.attrs
    ensures LowerNamesOf(names + [Lower(e.attrs["name"])], sel + [e])
  {
  }

  /** `fetch.tags()`: for each description or keywords meta tag in document order, its
      lowercased (not stripped) name with its content; `KeyError` when such a tag has no
      `content`. */
  method Tags(page: seq<Element>) returns (res: Result<seq<(string, string)>, PageError>)
    ensures res.Ok? <==> SelectedHaveContent(ElementsWithTag(page, "meta"), IsDescriptive)
    ensures res.Ok? ==> res.value == DescriptiveRows(ElementsWithTag(page, "meta"))
    ensures res.Err? ==> res.error == MissingContent
  {
    var meta := ElementsWithTag(page, "meta");
    var tagName: seq<string> := [];
    var tagContent: seq<string> := [];
    ghost var kept: seq<Element> := [];
    for k := 0 to |meta|
      invariant SelectedHaveContent(meta[..k], IsDescriptive)
      invariant kept == Filter(meta[..k], IsDescriptive)
      invariant LowerNamesOf(tagName, kept) && ContentsOf(tagContent, kept)
    {
      var tag := meta[k];
      SelectStep(meta, k, IsDescriptive);
      if IsDescriptive(tag) {
        if "content" !in tag.attrs {
          return Err(MissingContent);
        }
        LowerNamesOfSnoc(tagName, kept, tag);
        ContentsOfSnoc(tagContent, kept, tag);
        tagName := tagName + [Lower(tag.attrs["name"])];
        tagContent := tagContent + [tag.attrs["content"]];
        kept := kept + [tag];
      }
    }
    SelectAll(meta, IsDescriptive);
    res := Ok(seq(|tagName|, t requires 0 <= t < |tagName| => (tagName[t], tagContent[t])));
  }

  /** The selection trims the name but the emitted name is only lowercased: a meta
      tag named " Keywords" is selected and reported as " keywords". */
  lemma PaddedNameKeptUntrimmed(content: string, text: string)
    ensures var e := Element("meta", map["name" := " Keywords", "content" := content], None, text, None);
      IsDescriptive(e) && Lower(e.attrs["name"]) == " keywords"
  {
    var name := " Keywords";
    assert Strip(name) == "Keywords" by {
      assert name[1..] == "Keywords";
      assert TrimStart(name) == TrimStart("Keywords") == "Keywords";
    }
    assert Lower("Keywords") == "keywords";
    assert Lower(name) == " keywords";
  }

  // ---------------------------------------------------------------- author()

  /** `" ".join(i['class'])` for an element whose class list is present and non-empty. */
  function ClassString(e: Element): (c: Option<string>)
    ensures c.Some? <==> e.classes.Some? && e.classes.value != []
  {
    if e.classes.Some? && |e.classes.value| != 0 then Some(Join(" ", e.classes.value)) else None
  }

  /** `{tag.name for tag in find_all()}`. */
  function TagNames(page: seq<Element>): set<string>
  {
    set e | e in page :: e.tag
  }

  /** The class strings of the page's elements whose tag is in `tags`. */
  function ClassStrings(page: seq<Element>, tags: set<string>): set<string>
  {
    set e | e in page && e.tag in tags && ClassString(e).Some? :: ClassString(e).value
  }

  /** `i.find('author') > -1 or i.find('writer') > -1 or i.find('journalist') > -1`. */
  predicate NamesAuthor(c: string)
  {
    Contains(c, "author") || Contains(c, "writer") || Contains(c, "journalist")
  }

  /** The parser's class match in `find("div", {"class": c})`: `c` is one of the
      element's classes or the whole space-joined class string. */
  predicate ClassMatches(e: Element, c: string)
  {
    e.classes.Some? && (c in e.classes.value || Join(" ", e.classes.value) == c)
  }

  /** `find("div", {"class": c})`: the first matching div, if any. */
  function FirstDivWithClass(page: seq<Element>, c: string): (d: Option<Element>)
    ensures d.Some? ==> d.value in page && d.value.tag == "div" && ClassMatches(d.value, c)
    ensures d.None? <==> forall e :: e in page && e.tag == "div" ==> !ClassMatches(e, c)
    decreases |page|
  {
    if page == [] then None
    else
      assert page == [page[0]] + page[1..];
      if page[0].tag == "div" && ClassMatches(page[0], c) then Some(page[0])
      else FirstDivWithClass(page[1..], c)
  }

  /** The texts the last loop of `author()` collects for class strings taken in the
      given order; a class string without a matching div contributes nothing. */
  function AuthorTexts(page: seq<Element>, order: seq<string>): (ts: seq<string>)
    ensures |ts| <= |order|
  {
    if order == [] then []
    else
      AuthorTexts(page, order[..|order| - 1])
      + match FirstDivWithClass(page, order[|order| - 1]) {
          case Some(div) => [div.text]
          case None => []
        }
  }

  /** `order` lists each author class string of the page once, in some order (the
      iteration order of a Python set). */
  ghost predicate IsAuthorOrder(page: seq<Element>, order: seq<string>)
  {
    && (forall c :: c in order <==> c in ClassStrings(page, TagNames(page)) && NamesAuthor(c))
    && (forall i, j :: 0 <= i < j < |order| ==> order[i] != order[j])
  }

  /** The class strings of the given elements. */
  function ClassStringsOf(es: seq<Element>): set<string>
  {
    set e | e in es && ClassString(e).Some? :: ClassString(e).value
  }

  lemma ClassStringsOfStep(es: seq<Element>, k: nat)
    requires k < |es|
    ensures ClassStringsOf(es[..k + 1]) ==
      ClassStringsOf(es[..k]) + (if ClassString(es[k]).Some? then {ClassString(es[k]).value} else {})
  {
    assert es[..k + 1] == es[..k] + [es[k]];
    ClassStringsOfSnoc(es[..k], es[k]);
  }

  lemma ClassStringsOfSnoc(es: seq<Element>, e: Element)
    ensures ClassStringsOf(es + [e]) ==
      ClassStringsOf(es) + (if ClassString(e).Some? then {ClassString(e).value} else {})
  {
    var lhs := ClassStringsOf(es + [e]);
    var rhs := ClassStringsOf(es) + (if ClassString(e).Some? then {ClassString(e).value} else {});
    forall c | c in lhs ensures c in rhs {
      var x :| x in es + [e] && ClassString(x).Some? && ClassString(x).value == c;
      if x != e {
        assert x in es;
      }
    }
    forall c | c in rhs ensures c in lhs {
      if c in ClassStringsOf(es) {
        var x :| x in es && ClassString(x).Some? && ClassString(x).value == c;
        assert x in es + [e];
      } else {
        assert e in es + [e];
      }
    }
  }

  lemma ClassStringsAddTag(page: seq<Element>, done: set<string>, tag: string)
    ensures ClassStrings(page, done + {tag}) == ClassStrings(page, done) + ClassStringsOf(ElementsWithTag(page, tag))
  {
    ElementsWithTagMembers(page, tag);
  }

  /** The inner loop of the first two loops of `author()`: the class strings of the
      elements of one tag name. */
  method TagClassStrings(es: seq<Element>) returns (found: set<string>)
    ensures found == ClassStringsOf(es)
  {
    found := {};
    for k := 0 to |es|
      invariant found == ClassStringsOf(es[..k])
    {
      ClassStringsOfStep(es, k);
      if es[k].classes.Some? && |es[k].classes.value| != 0 {
        found := found + {Join(" ", es[k].classes.value)};
      }
    }
    assert es[..|es|] == es;
  }

  /** The first two loops of `author()`: every class string of the page, collected tag
      name by tag name. */
  method CollectClassStrings(page: seq<Element>) returns (classList: set<string>)
    ensures classList == ClassStrings(page, TagNames(page))
  {
    var tags := TagNames(page);
    classList := {};
    var remaining := tags;
    while remaining != {}
      invariant remaining <= tags
      invariant classList == ClassStrings(page, tags - remaining)
      decreases |remaining|
    {
      var tag :| tag in remaining;
      var found := TagClassStrings(ElementsWithTag(page, tag));
      ClassStringsAddTag(page, tags - remaining, tag);
      assert tags - (remaining - {tag}) == (tags - remaining) + {tag};
      classList := classList + found;
      remaining := remaining - {tag};
    }
  }

  /** `fetch.author()`: for each class string naming an author, writer or journalist,
      the text of the first div it matches, skipping those without a div. */
  method Author(page: seq<Element>) returns (authorContent: seq<string>)
    ensures exists order :: IsAuthorOrder(page, order) && authorContent == AuthorTexts(page, order)
  {
    var classList := CollectClassStrings(page);
    var authorDivs: seq<string> := [];
    var rest := classList;
    while rest != {}
      invariant rest <= classList
      invariant forall c :: c in authorDivs <==> c in classList - rest && NamesAuthor(c)
      invariant forall i, j :: 0 <= i < j < |authorDivs| ==> authorDivs[i] != authorDivs[j]
      decreases |rest|
    {
      var c :| c in rest;
      if NamesAuthor(c) {
        authorDivs := authorDivs + [c];
      }
      rest := rest - {c};
    }
    authorContent := [];
    for k := 0 to |authorDivs|
      invariant authorContent == AuthorTexts(page, authorDivs[..k])
    {
      assert authorDivs[..k + 1][..k] == authorDivs[..k];
      var div := FirstDivWithClass(page, authorDivs[k]);
      if div.Some? {
        authorContent := authorContent + [div.value.text];
      }
    }
    assert authorDivs[..|authorDivs|] == authorDivs;
    assert classList - rest == classList;
    assert IsAuthorOrder(page, authorDivs);
    assert authorContent == AuthorTexts(page, authorDivs);
  }

  /** A div matched by an author class string has a class string naming an author too. */
  lemma MatchedDivNamesAuthor(e: Element, c: string)
    requires ClassMatches(e, c) && NamesAuthor(c)
    ensures NamesAuthor(Join(" ", e.classes.value))
  {
    var joined := Join(" ", e.classes.value);
    if joined != c {
      var i :| 0 <= i < |e.classes.value| && e.classes.value[i] == c;
      JoinContainsMember(" ", e.classes.value, i);
      if Contains(c, "author") {
        ContainsTransitive(joined, c, "author");
      } else if Contains(c, "writer") {
        ContainsTransitive(joined, c, "writer");
      } else {
        ContainsTransitive(joined, c, "journalist");
      }
    }
  }

  /** Every text `author()` returns is the text of a div of the page whose class string
      contains "author", "writer" or "journalist". */
  lemma {:induction false} AuthorTextsFromAuthorDivs(page: seq<Element>, order: seq<string>, t: string)
    requires forall c :: c in order ==> NamesAuthor(c)
    requires t in AuthorTexts(page, order)
    ensures exists e :: (e in page && e.tag == "div" && e.text == t
                        && e.classes.Some? && NamesAuthor(Join(" ", e.classes.value)))
    decreases |order|
  {
    var init := order[..|order| - 1];
    var c := order[|order| - 1];
    if t in AuthorTexts(page, init) {
      assert forall x :: x in init ==> x in order;
      AuthorTextsFromAuthorDivs(page, init, t);
    } else {
      var div := FirstDivWithClass(page, c);
      assert div.Some? && div.value.text == t;
      MatchedDivNamesAuthor(div.value, c);
    }
  }
}
