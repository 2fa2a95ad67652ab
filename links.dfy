/** The search step of bert/API/main.py: `links(query)` builds a Google search URL
    from the query, reads the anchor table of the result page, unwraps each
    `/url?...&ved=...` redirect, extracts the news host and keeps the text of one
    article per host that is not on the blocklist; `comparison_list` then scores the
    anchor table. Fetching a page is the parameter `fetchPage`; the parsed page is
    read with the extraction methods of `PageExtract`. */
module SearchLinks {
  import opened Common
  import opened PageExtract
  import Scoring

  // ---------------------------------------------------------------- the query

  /** `re.sub(r"([^a-zA-Z0-9])", ' ', query)`. */
  function BlankNonAlnum(q: string): (r: string)
    ensures |r| == |q|
    ensures forall i :: 0 <= i < |q| ==> r[i] == if IsAsciiAlnum(q[i]) then q[i] else ' '
  {
    seq(|q|, i requires 0 <= i < |q| => if IsAsciiAlnum(q[i]) then q[i] else ' ')
  }

  /** `s.replace(" ", "+")`. */
  function SpacesToPlus(s: string): (r: string)
    ensures |r| == |s|
    ensures forall i :: 0 <= i < |s| ==> r[i] == if s[i] == ' ' then '+' else s[i]
  {
    seq(|s|, i requires 0 <= i < |s| => if s[i] == ' ' then '+' else s[i])
  }

  /** The query as it appears in the search URL. */
  function EscapeQuery(q: string): string
  {
    SpacesToPlus(BlankNonAlnum(q))
  }

  function SearchLink(query: string): string
  {
    "https://www.google.com/search?q=" + EscapeQuery(query)
  }

  /** The escaped query has the length of the query; every ASCII letter or digit stays
      where it was and every other character, the space and non-ASCII ones included,
      becomes `+`. */
  lemma EscapeQueryCharwise(q: string)
    ensures |EscapeQuery(q)| == |q|
    ensures forall i :: 0 <= i < |q| ==> EscapeQuery(q)[i] == if IsAsciiAlnum(q[i]) then q[i] else '+'
  {
    var b := BlankNonAlnum(q);
    forall i | 0 <= i < |q|
      ensures EscapeQuery(q)[i] == if IsAsciiAlnum(q[i]) then q[i] else '+'
    {
      assert b[i] == if IsAsciiAlnum(q[i]) then q[i] else ' ';
    }
  }

  /** Escaping is idempotent: an escaped query escapes to itself. */
  lemma EscapeQueryIdempotent(q: string)
    ensures EscapeQuery(EscapeQuery(q)) == EscapeQuery(q)
  {
    var e := EscapeQuery(q);
    EscapeQueryCharwise(q);
    EscapeQueryCharwise(e);
  }

  // ---------------------------------------------------------------- unwrapping

  /** The part of `s` before its first line break: what `(.*)` captures, since `.`
      does not match `\n`. */
  function RestOfLine(s: string): (r: string)
    ensures |r| <= |s| && r == s[..|r|]
    ensures '\n' !in r
    ensures r == s || s[|r|] == '\n'
  {
    if s == [] || s[0] == '\n' then []
    else [s[0]] + RestOfLine(s[1..])
  }

  /** `re.findall(lit + '(.*)', link)[0]`: the rest of the line after the first `lit`,
      or `None` where indexing the empty match list raises `IndexError`. */
  function GroupAfter(link: string, lit: string): Option<string>
  {
    var k := Find(link, lit);
    if k < 0 then None else Some(RestOfLine(link[k + |lit|..]))
  }

  /** Python's `s[0:end]`: a negative end counts from the end of `s`, and both ends are
      clamped to the string. */
  function PySliceTo(s: string, end: int): (r: string)
    ensures |r| <= |s| && r == s[..|r|]
    ensures 0 <= end <= |s| ==> |r| == end
    ensures end < 0 && |s| + end >= 0 ==> |r| == |s| + end
    ensures end > |s| ==> r == s
    ensures |s| + end < 0 ==> r == []
  {
    if end >= 0 then (if end <= |s| then s[..end] else s)
    else if |s| + end >= 0 then s[..|s| + end] else []
  }

  datatype UnwrapFailure = NoHttp | NoVed

  /** Lines 28-30 of `links()`: the text after the first `http` with the text from the
      first `&ved` cut off the end, by length arithmetic. */
  function Unwrap(link: string): Result<string, UnwrapFailure>
  {
    match GroupAfter(link, "http")
    case None => Err(NoHttp)
    case Some(afterHttp) =>
      match GroupAfter(link, "&ved")
      case None => Err(NoVed)
      case Some(afterVed) =>
        var searchlink := "http" + afterHttp;
        var dumplink := "&ved" + afterVed;
        Ok(PySliceTo(searchlink, |searchlink| - |dumplink|))
  }

  /** Unwrapping fails with `NoHttp` exactly when `http` does not occur, and with
      `NoVed` exactly when `http` occurs and `&ved` does not. */
  lemma UnwrapFailures(link: string)
    ensures Unwrap(link) == Err(NoHttp) <==> forall k :: !OccursAt(link, "http", k)
    ensures Unwrap(link) == Err(NoVed) <==>
      (exists k :: OccursAt(link, "http", k)) && forall k :: !OccursAt(link, "&ved", k)
  {
    FindFirst(link, "http");
    FindFirst(link, "&ved");
    if Find(link, "http") >= 0 {
      assert OccursAt(link, "http", Find(link, "http"));
    }
  }

  /** On a single-line link where `&ved` follows `http`, the unwrapped link is exactly
      the text from the first `http` up to the first `&ved`. */
  lemma UnwrapIsSlice(link: string)
    requires '\n' !in link
    requires 0 <= Find(link, "http") <= Find(link, "&ved")
    ensures Unwrap(link) == Ok(link[Find(link, "http")..Find(link, "&ved")])
  {
    var h := Find(link, "http");
    var v := Find(link, "&ved");
    GroupAfterWhole(link, "http");
    GroupAfterWhole(link, "&ved");
    assert link[h..] == "http" + link[h + 4..];
    assert link[v..] == "&ved" + link[v + 4..];
    assert link[h..][..v - h] == link[h..v];
  }

  /** When the first `&ved` comes before the first `http`, the cut length is negative:
      the unwrapped link is the text from `http` on, shortened by the distance between
      the two, and empty once the `&ved` tail is more than twice as long as the `http`
      tail. */
  lemma UnwrapVedFirst(link: string)
    requires '\n' !in link
    requires 0 <= Find(link, "&ved") < Find(link, "http")
    ensures Unwrap(link) == Ok(PySliceTo(link[Find(link, "http")..], Find(link, "&ved") - Find(link, "http")))
    ensures |link| - Find(link, "&ved") > 2 * (|link| - Find(link, "http")) ==> Unwrap(link) == Ok("")
  {
    var h := Find(link, "http");
    GroupAfterWhole(link, "http");
    GroupAfterWhole(link, "&ved");
    assert link[h..] == "http" + link[h + 4..];
  }

  /** On a single-line link, the group after the first occurrence of `lit` reaches the
      end of the link, so `lit` and the group together are the rest of the link. */
  lemma GroupAfterWhole(link: string, lit: string)
    requires '\n' !in link
    requires Find(link, lit) >= 0
    ensures GroupAfter(link, lit) == Some(link[Find(link, lit) + |lit|..])
    ensures link[Find(link, lit)..] == lit + link[Find(link, lit) + |lit|..]
  {
    var k := Find(link, lit);
    FindFirst(link, lit);
    RestOfLineWhole(link[k + |lit|..]);
    assert link[k..] == link[k..k + |lit|] + link[k + |lit|..];
  }

  lemma RestOfLineWhole(s: string)
    requires '\n' !in s
    ensures RestOfLine(s) == s
  {
  }

  // ---------------------------------------------------------------- the host

  /** The class `[A-Za-z_0-9.-]`. */
  predicate IsHostChar(c: char)
  {
    IsAsciiAlnum(c) || c == '_' || c == '.' || c == '-'
  }

  /** The longest prefix of `s` made of host characters. */
  function HostRun(s: string): (r: string)
    ensures |r| <= |s| && r == s[..|r|]
    ensures forall i :: 0 <= i < |r| ==> IsHostChar(r[i])
    ensures r == s || !IsHostChar(s[|r|])
  {
    if s != [] && IsHostChar(s[0]) then [s[0]] + HostRun(s[1..]) else []
  }

  /** Where the host group of `https?://([A-Za-z_0-9.-]+)` starts when the pattern
      matches at `k`: after `https://` if that is there with a host character after it,
      else after `http://` under the same condition; 0 when it does not match. */
  function HostStart(link: string, k: nat): nat
  {
    if OccursAt(link, "https://", k) && k + 8 < |link| && IsHostChar(link[k + 8]) then k + 8
    else if OccursAt(link, "http://", k) && k + 7 < |link| && IsHostChar(link[k + 7]) then k + 7
    else 0
  }

  predicate MatchesAt(link: string, k: nat)
  {
    HostStart(link, k) > 0
  }

  /** The test `MatchesAt` at each place of `link`. */
  function MatchesIn(link: string): nat -> bool
  {
    (j: nat) => MatchesAt(link, j)
  }

  /** The leftmost place `j` with `k <= j < n` that passes `test`. */
  function FirstFrom(n: nat, k: nat, test: nat -> bool): Option<nat>
    decreases n - k
  {
    if k >= n then None
    else if test(k) then Some(k)
    else FirstFrom(n, k + 1, test)
  }

  lemma {:induction false} FirstFromIsFirst(n: nat, k: nat, test: nat -> bool)
    ensures FirstFrom(n, k, test).None? ==> forall j :: k <= j < n ==> !test(j)
    ensures FirstFrom(n, k, test).Some? ==>
      && k <= FirstFrom(n, k, test).value < n
      && test(FirstFrom(n, k, test).value)
      && forall j :: k <= j < FirstFrom(n, k, test).value ==> !test(j)
    decreases n - k
  {
    if k < n && !test(k) {
      FirstFromIsFirst(n, k + 1, test);
    }
  }

  /** `re.search('https?://([A-Za-z_0-9.-]+).*', link).group(1)`, or `None` when the
      search finds nothing. */
  function NewsSource(link: string): Option<string>
  {
    match FirstFrom(|link|, 0, MatchesIn(link))
    case None => None
    case Some(k) => Some(HostRun(link[HostStart(link, k)..]))
  }

  /** The host is the maximal run of host characters after the leftmost place where
      `http://` or `https://` is followed by a host character; there is none exactly
      when no place matches, and it is never empty. */
  lemma NewsSourceLeftmost(link: string)
    ensures NewsSource(link).None? <==> forall j :: 0 <= j < |link| ==> !MatchesAt(link, j)
    ensures NewsSource(link).Some? ==> exists j :: (0 <= j < |link| && MatchesAt(link, j)
      && NewsSource(link).value == HostRun(link[HostStart(link, j)..])
      && forall i :: 0 <= i < j ==> !MatchesAt(link, i))
    ensures NewsSource(link).Some? ==> NewsSource(link).value != []
  {
    var test := MatchesIn(link);
    FirstFromIsFirst(|link|, 0, test);
    var first := FirstFrom(|link|, 0, test);
    if first.None? {
      forall j | 0 <= j < |link| ensures !MatchesAt(link, j) {
        assert !test(j);
      }
    } else {
      var j := first.value;
      assert test(j);
      forall i | 0 <= i < j ensures !MatchesAt(link, i) {
        assert !test(i);
      }
      assert link[HostStart(link, j)..][0] == link[HostStart(link, j)];
    }
  }

  /** `re.search('google', a) != None or ... 'twitter' ... or ... 'youtube' ...`. */
  predicate Blocked(host: string)
  {
    Contains(host, "google") || Contains(host, "twitter") || Contains(host, "youtube")
  }

  // ---------------------------------------------------------------- links()

  /** The exceptions `links()` raises, with the row that raised it: a missing href
      (`TypeError` on `link[0:4]`), a `/url` link without `http` or without `&ved`
      (`IndexError`), and a first `/url` link without a host (`UnboundLocalError`). */
  datatype LinkError = HrefMissing(row: nat) | NoHttpIn(row: nat) | NoVedIn(row: nat) | HostUnbound(row: nat)

  /** `link[0:4] == '/url'`. */
  predicate IsRedirect(link: string)
  {
    |link| >= 4 && link[..4] == "/url"
  }

  /** What `fetch(newslink).text()` returns. */
  function ArticleText(fetchPage: string -> seq<Element>, url: string): string
  {
    Join(" ", TagTexts(fetchPage(url), "p"))
  }

  /** The anchor table `fetch(url).urls()` returns. */
  function AnchorsOf(page: seq<Element>): (rows: seq<Anchor>)
    ensures |rows| == |ElementsWithTag(page, "a")|
  {
    var es := ElementsWithTag(page, "a");
    seq(|es|, k requires 0 <= k < |es| => Anchor(es[k].text, Href(es[k])))
  }

  /** The loop state: the dictionary by host and the host variable `a`, which keeps
      its value from one row to the next. */
  type Harvested = (map<string, string>, Option<string>)

  /** What the loop body makes of one row before it looks at the carried host: skip
      the row, raise, or store the text of the unwrapped link under the host found in
      the href (`None` when the href names no host and `a` is reused). */
  datatype RowEffect = Skip | Raise(error: LinkError) | Store(found: Option<string>, text: string)

  /** The effect of row `i`, whose href is `href`. */
  function Effect(href: Option<string>, i: nat, fetchPage: string -> seq<Element>): RowEffect
  {
    match href
    case None => Raise(HrefMissing(i))
    case Some(link) =>
      if !IsRedirect(link) then Skip
      else match Unwrap(link)
        case Err(NoHttp) => Raise(NoHttpIn(i))
        case Err(NoVed) => Raise(NoVedIn(i))
        case Ok(newslink) => Store(NewsSource(link), ArticleText(fetchPage, newslink))
  }

  function Effects(rows: seq<Anchor>, fetchPage: string -> seq<Element>): (effects: seq<RowEffect>)
    ensures |effects| == |rows|
  {
    seq(|rows|, i requires 0 <= i < |rows| => Effect(rows[i].href, i, fetchPage))
  }

  /** One pass of the loop body over row `i`, whose effect is `eff`. */
  function Step(st: Harvested, eff: RowEffect, i: nat): Result<Harvested, LinkError>
  {
    match eff
    case Skip => Ok(st)
    case Raise(e) => Err(e)
    case Store(found, text) =>
      var a := if found.Some? then found else st.1;
      if a.None? then Err(HostUnbound(i))
      else if Blocked(a.value) then Ok((st.0, a))
      else Ok((st.0[a.value := text], a))
  }

  /** The loop state after the first `n` rows, or the exception one of them raised. */
  function Harvest(effects: seq<RowEffect>, n: nat): Result<Harvested, LinkError>
    requires n <= |effects|
  {
    if n == 0 then Ok((map[], None))
    else match Harvest(effects, n - 1)
      case Err(e) => Err(e)
      case Ok(st) => Step(st, effects[n - 1], n - 1)
  }

  /** `range(0, len(searchfetch) - 1)`: every row but the last. */
  function Examined(rowCount: nat): nat
  {
    if rowCount == 0 then 0 else rowCount - 1
  }

  /** The value of `links(query)`: the dictionary and the anchor table. */
  function LinksOf(query: string, fetchPage: string -> seq<Element>): Result<(map<string, string>, seq<Anchor>), LinkError>
  {
    var rows := AnchorsOf(fetchPage(SearchLink(query)));
    match Harvest(Effects(rows, fetchPage), Examined(|rows|))
    case Err(e) => Err(e)
    case Ok(st) => Ok((st.0, rows))
  }

  lemma {:induction false} HarvestErrPersists(effects: seq<RowEffect>, m: nat, n: nat)
    requires m <= n <= |effects|
    requires Harvest(effects, m).Err?
    ensures Harvest(effects, n) == Harvest(effects, m)
    decreases n - m
  {
    if m < n {
      HarvestErrPersists(effects, m, n - 1);
    }
  }

  /** The body of the loop of `links()` for a row whose href is `link`, from the
      dictionary `newsdict` and the host `a` the earlier rows left. */
  method HarvestRow(link: string, i: nat, fetchPage: string -> seq<Element>,
                    newsdict: map<string, string>, a: Option<string>)
    returns (res: Result<Harvested, LinkError>)
    ensures res == Step((newsdict, a), Effect(Some(link), i, fetchPage), i)
  {
    if !IsRedirect(link) {
      return Ok((newsdict, a));
    }
    var unwrapped := Unwrap(link);
    if unwrapped.Err? {
      return if unwrapped.error == NoHttp then Err(NoHttpIn(i)) else Err(NoVedIn(i));
    }
    var newslink := unwrapped.value;
    var host := a;
    var newssource := NewsSource(link);
    if newssource.Some? {
      host := newssource;
    }
    if host.None? {
      return Err(HostUnbound(i));
    }
    if Blocked(host.value) {
      return Ok((newsdict, host));
    }
    var text := Text(fetchPage(newslink));
    return Ok((newsdict[host.value := text], host));
  }

  /** The loop of `links()` over every row of `searchfetch` but the last. */
  method HarvestRows(searchfetch: seq<Anchor>, fetchPage: string -> seq<Element>)
    returns (res: Result<Harvested, LinkError>)
    ensures res == Harvest(Effects(searchfetch, fetchPage), Examined(|searchfetch|))
  {
    ghost var effects := Effects(searchfetch, fetchPage);
    var newsdict: map<string, string> := map[];
    var a: Option<string> := None;
    var n := Examined(|searchfetch|);
    for i := 0 to n
      invariant Harvest(effects, i) == Ok((newsdict, a))
    {
      var href := searchfetch[i].href;
      assert effects[i] == Effect(href, i, fetchPage);
      if href.None? {
        HarvestErrPersists(effects, i + 1, n);
        return Err(HrefMissing(i));
      }
      var row := HarvestRow(href.value, i, fetchPage, newsdict, a);
      if row.Err? {
        HarvestErrPersists(effects, i + 1, n);
        return row;
      }
      newsdict, a := row.value.0, row.value.1;
    }
    return Ok((newsdict, a));
  }

  /** `links(query)`, with the page fetches done by `fetchPage`: the dictionary of
      article texts by host, and the anchor table of a second fetch of the search. */
  method Links(query: string, fetchPage: string -> seq<Element>)
    returns (res: Result<(map<string, string>, seq<Anchor>), LinkError>)
    ensures res == LinksOf(query, fetchPage)
  {
    var searchlink := SearchLink(query);
    var searchfetch := Urls(fetchPage(searchlink));
    var urls := Urls(fetchPage(searchlink));
    assert searchfetch == AnchorsOf(fetchPage(searchlink));
    assert urls == searchfetch;
    var harvested := HarvestRows(searchfetch, fetchPage);
    if harvested.Err? {
      return Err(harvested.error);
    }
    return Ok((harvested.value.0, urls));
  }

  // ---------------------------------------------------------------- properties of links()

  /** The state after `n` rows depends on those rows only. */
  lemma {:induction false} HarvestAgrees(effects: seq<RowEffect>, effects': seq<RowEffect>, n: nat)
    requires n <= |effects| && n <= |effects'|
    requires forall i :: 0 <= i < n ==> effects[i] == effects'[i]
    ensures Harvest(effects, n) == Harvest(effects', n)
  {
    if n > 0 {
      HarvestAgrees(effects, effects', n - 1);
    }
  }

  /** The last anchor of the table is never examined: replacing it by any other anchor
      leaves the dictionary and the outcome as they were. */
  lemma LastAnchorIgnored(rows: seq<Anchor>, other: Anchor, fetchPage: string -> seq<Element>)
    requires rows != []
    ensures var rows' := rows[..|rows| - 1] + [other];
      Harvest(Effects(rows, fetchPage), Examined(|rows|)) == Harvest(Effects(rows', fetchPage), Examined(|rows'|))
  {
    var rows' := rows[..|rows| - 1] + [other];
    var n := |rows| - 1;
    forall i | 0 <= i < n ensures Effects(rows, fetchPage)[i] == Effects(rows', fetchPage)[i] {
      assert rows'[i] == rows[i];
    }
    HarvestAgrees(Effects(rows, fetchPage), Effects(rows', fetchPage), n);
  }

  /** A table in which no examined href starts with `/url` yields an empty dictionary. */
  lemma {:induction false} NoRedirectNoEntry(rows: seq<Anchor>, n: nat, fetchPage: string -> seq<Element>)
    requires n <= |rows|
    requires forall i :: 0 <= i < n ==> rows[i].href.Some? && !IsRedirect(rows[i].href.value)
    ensures Harvest(Effects(rows, fetchPage), n) == Ok((map[], None))
  {
    if n > 0 {
      NoRedirectNoEntry(rows, n - 1, fetchPage);
      assert Effects(rows, fetchPage)[n - 1] == Skip;
    }
  }

  /** A host name: a non-empty run of host characters. */
  predicate IsHostName(h: string)
  {
    h != [] && forall i :: 0 <= i < |h| ==> IsHostChar(h[i])
  }

  /** Every host found in an href is a host name. */
  predicate FoundHostNames(effects: seq<RowEffect>)
  {
    forall i :: 0 <= i < |effects| && effects[i].Store? && effects[i].found.Some? ==>
      IsHostName(effects[i].found.value)
  }

  lemma EffectsFindHostNames(rows: seq<Anchor>, fetchPage: string -> seq<Element>)
    ensures FoundHostNames(Effects(rows, fetchPage))
  {
    var effects := Effects(rows, fetchPage);
    forall i | 0 <= i < |effects| && effects[i].Store? && effects[i].found.Some?
      ensures IsHostName(effects[i].found.value)
    {
      NewsSourceLeftmost(rows[i].href.value);
    }
  }

  /** Every key of the dictionary, and the carried host, is a host name, and no key
      contains `google`, `twitter` or `youtube`. */
  lemma {:induction false} HarvestKeysAllowed(effects: seq<RowEffect>, n: nat)
    requires n <= |effects|
    requires FoundHostNames(effects)
    requires Harvest(effects, n).Ok?
    ensures Harvest(effects, n).value.1.Some? ==> IsHostName(Harvest(effects, n).value.1.value)
    ensures forall host :: host in Harvest(effects, n).value.0 ==> IsHostName(host) && !Blocked(host)
  {
    if n > 0 {
      HarvestKeysAllowed(effects, n - 1);
    }
  }

  /** No key of the dictionary `links(query)` returns contains `google`, `twitter` or
      `youtube`, and every key is a host name. */
  lemma LinksKeysAllowed(query: string, fetchPage: string -> seq<Element>)
    requires LinksOf(query, fetchPage).Ok?
    ensures forall host :: host in LinksOf(query, fetchPage).value.0 ==> IsHostName(host) && !Blocked(host)
  {
    var rows := AnchorsOf(fetchPage(SearchLink(query)));
    EffectsFindHostNames(rows, fetchPage);
    HarvestKeysAllowed(Effects(rows, fetchPage), Examined(|rows|));
  }

  /** Row `j` stores its text under `host`: the loop got through it, it is a `/url` row,
      and its host, found or carried, is `host` and not blocked. */
  predicate Writes(effects: seq<RowEffect>, j: nat, host: string)
    requires j < |effects|
  {
    && effects[j].Store?
    && Harvest(effects, j + 1).Ok?
    && Harvest(effects, j + 1).value.1 == Some(host)
    && !Blocked(host)
  }

  /** Row `j` stores under `host`, and no row after it and before `n` does. */
  predicate LastWriter(effects: seq<RowEffect>, j: nat, n: nat, host: string)
    requires j < n <= |effects|
  {
    Writes(effects, j, host) && forall i :: j < i < n ==> !Writes(effects, i, host)
  }

  /** What row `j` does to the dictionary: it sets the entry of the host it stores
      under to its text, and leaves every other entry as it was. */
  lemma StepEffect(effects: seq<RowEffect>, j: nat)
    requires j < |effects|
    requires Harvest(effects, j + 1).Ok?
    ensures Harvest(effects, j).Ok?
    ensures forall host :: Writes(effects, j, host) ==>
      && host in Harvest(effects, j + 1).value.0
      && Harvest(effects, j + 1).value.0[host] == effects[j].text
    ensures forall host :: !Writes(effects, j, host) ==>
      && (host in Harvest(effects, j + 1).value.0 <==> host in Harvest(effects, j).value.0)
      && (host in Harvest(effects, j).value.0 ==>
            Harvest(effects, j + 1).value.0[host] == Harvest(effects, j).value.0[host])
  {
    if effects[j].Store? {
      var st := Harvest(effects, j + 1).value;
      if !Blocked(st.1.value) {
        assert Writes(effects, j, st.1.value);
      }
    }
  }

  /** `newsdict` has an entry for exactly the hosts some examined row stored under. */
  lemma {:induction false} HarvestKeys(effects: seq<RowEffect>, n: nat)
    requires n <= |effects|
    requires Harvest(effects, n).Ok?
    ensures forall host :: host in Harvest(effects, n).value.0 <==>
      exists j :: 0 <= j < n && Writes(effects, j, host)
  {
    if n > 0 {
      StepEffect(effects, n - 1);
      HarvestKeys(effects, n - 1);
      forall host
        ensures host in Harvest(effects, n).value.0 <==> exists j :: 0 <= j < n && Writes(effects, j, host)
      {
        if !Writes(effects, n - 1, host) {
          if exists j :: 0 <= j < n && Writes(effects, j, host) {
            var j :| 0 <= j < n && Writes(effects, j, host);
            assert j < n - 1;
          }
        }
      }
    }
  }

  /** The entry of a host holds the text stored by the last row that stored under it:
      a later article from a host overwrites an earlier one. */
  lemma {:induction false} HarvestLastWriter(effects: seq<RowEffect>, n: nat)
    requires n <= |effects|
    requires Harvest(effects, n).Ok?
    ensures forall j, host :: 0 <= j < n && LastWriter(effects, j, n, host) ==>
      host in Harvest(effects, n).value.0 && Harvest(effects, n).value.0[host] == effects[j].text
  {
    if n > 0 {
      StepEffect(effects, n - 1);
      HarvestLastWriter(effects, n - 1);
      forall j, host | 0 <= j < n && LastWriter(effects, j, n, host)
        ensures host in Harvest(effects, n).value.0 && Harvest(effects, n).value.0[host] == effects[j].text
      {
        if j < n - 1 {
          LastWriterBefore(effects, j, n, host);
        }
      }
    }
  }

  lemma LastWriterBefore(effects: seq<RowEffect>, j: nat, n: nat, host: string)
    requires j < n - 1 && n <= |effects|
    requires LastWriter(effects, j, n, host)
    ensures LastWriter(effects, j, n - 1, host) && !Writes(effects, n - 1, host)
  {
  }

  // ---------------------------------------------------------------- comparison_list

  /** Python values compared by the guard `sim != 0`: a list is never equal to an int. */
  datatype PyValue = PyList(items: seq<real>) | PyInt(n: int)

  /** The exceptions of `comparison_list`: one raised by `links`, and the `KeyError` of
      `newsdict[1]` on an empty anchor table. */
  datatype ComparisonError = LinksFailed(cause: LinkError) | NoAnchorTable

  /** The probability `comparison_list` reports for an anchor: the weighted similarity
      of the query to the anchor's text times their sentiment agreement. */
  function AnchorScore(query: string, anchor: Anchor, similarity: (string, string) -> real, sentiment: string -> real): real
  {
    similarity(query, anchor.text) * Scoring.SimilarityWeight * Scoring.Agreement(sentiment(anchor.text), sentiment(query))
  }

  /** The loop of `comparison_list` over a non-empty anchor table: the guard never
      filters, so every anchor gets its href and its weighted similarity times its
      sentiment agreement with the query. */
  method ScoreAnchors(query: string, table: seq<Anchor>,
                      similarity: (string, string) -> real, sentiment: string -> real)
    returns (validUrls: seq<Option<string>>, probability: seq<real>)
    requires table != []
    ensures |validUrls| == |table| && |probability| == |table|
    ensures forall l :: 0 <= l < |table| ==>
      && validUrls[l] == table[l].href
      && probability[l] == AnchorScore(query, table[l], similarity, sentiment)
  {
    var querysent := sentiment(query);
    var sim: seq<real> := [];
    var sentlist: seq<real> := [];
    validUrls := [];
    for j := 0 to |table|
      invariant |sim| == j && |sentlist| == j && |validUrls| == j
      invariant forall l :: 0 <= l < j ==>
        && validUrls[l] == table[l].href
        && sim[l] == similarity(query, table[l].text) * Scoring.SimilarityWeight
        && sentlist[l] == Scoring.Agreement(sentiment(table[l].text), querysent)
    {
      sim := sim + [similarity(query, table[j].text) * Scoring.SimilarityWeight];
      if PyList(sim) != PyInt(0) {
        sentlist := sentlist + [1.0 - Scoring.Abs(sentiment(table[j].text) - querysent)];
        validUrls := validUrls + [table[j].href];
      }
    }
    probability := seq(|sim|, l requires 0 <= l < |sim| => sim[l] * sentlist[l]);
  }

  /** `comparison_list(query, model, tokenizer)` of bert/API/main.py, with the TF-IDF
      similarity and the sentiment as parameters: the exception of `links`, the
      `KeyError` of an empty anchor table, or one row per anchor. */
  method MainComparisonList(query: string, fetchPage: string -> seq<Element>,
                            similarity: (string, string) -> real, sentiment: string -> real)
    returns (res: Result<(seq<Option<string>>, seq<real>), ComparisonError>)
    ensures LinksOf(query, fetchPage).Err? ==> res == Err(LinksFailed(LinksOf(query, fetchPage).error))
    ensures LinksOf(query, fetchPage).Ok? && LinksOf(query, fetchPage).value.1 == [] ==> res == Err(NoAnchorTable)
    ensures LinksOf(query, fetchPage).Ok? && LinksOf(query, fetchPage).value.1 != [] ==>
      var table := LinksOf(query, fetchPage).value.1;
      && res.Ok?
      && |res.value.0| == |table| && |res.value.1| == |table|
      && forall l :: 0 <= l < |table| ==>
        && res.value.0[l] == table[l].href
        && res.value.1[l] == AnchorScore(query, table[l], similarity, sentiment)
  {
    var articles := Links(query, fetchPage);
    if articles.Err? {
      return Err(LinksFailed(articles.error));
    }
    var table := articles.value.1;
    if |table| == 0 {
      return Err(NoAnchorTable);
    }
    var validUrls, probability := ScoreAnchors(query, table, similarity, sentiment);
    assert table == LinksOf(query, fetchPage).value.1;
    return Ok((validUrls, probability));
  }
}
