/** The part of `get_all_articles_from_bild` (bildwatch_sehbmaster.py) that is
    logic rather than plumbing: turning the ARTICLE children of the page's
    curation blocks into scraped rows, deriving the category from the url, and
    the final filter. The HTTP request, BeautifulSoup and `json.loads` are not
    modelled: the page arrives already decoded as a `PageContext`. */
module Scrape {
  import opened Wrappers
  import opened Strings

  /** The `props` of one child, as far as the scraper reads them. */
  datatype Props = Props(id: Option<string>, title: Option<string>, url: Option<string>, isPremium: bool)

  /** One child of a layout: its `type` and its `props`. */
  datatype Child = Child(kind: Option<string>, props: Props)

  /** What the page's `pageContext` script yields: no such tag, a text whose JSON
      or key path fails, or the children of all layouts of all blocks in document order. */
  datatype PageContext = NoScriptTag | Unparseable | Blocks(children: seq<Child>)

  /** A row as appended at line 147, before the filter of line 158. */
  datatype Candidate = Candidate(id: Option<string>, title: Option<string>, url: string, category: Option<string>, isPremium: bool)

  /** A row that passed the filter: id, title and url are all non-empty. */
  datatype Article = Article(id: string, title: string, url: string, category: Option<string>, isPremium: bool)

  predicate IsArticle(c: Child)
  {
    c.kind == Some("ARTICLE")
  }

  /** `props.get("url") or ""`. */
  function UrlOf(p: Props): string
  {
    if p.url.Some? then p.url.value else ""
  }

  /** `url.split("/")[1]` raises IndexError: a non-empty url without any "/". */
  predicate CategoryRaises(url: string)
  {
    url != "" && '/' !in url
  }

  /** `url.split("/")[1] if url else None`. */
  function CategoryOf(url: string): Option<string>
    requires !CategoryRaises(url)
  {
    if url == "" then None
    else
      SplitHasSecond(url, '/');
      Some(Split(url, '/')[1])
  }

  /** The category is the segment between the first and the second "/" (or the end). */
  lemma CategoryIsSecondSegment(head: string, segment: string, tail: string)
    requires '/' !in head && '/' !in segment
    requires tail == [] || tail[0] == '/'
    ensures !CategoryRaises(head + "/" + segment + tail)
    ensures CategoryOf(head + "/" + segment + tail) == Some(segment)
  {
    var url := head + "/" + segment + tail;
    assert url == head + ['/'] + (segment + tail);
    assert url[|head|] == '/';
    SplitAfterHead(head, '/', segment + tail);
    if tail == [] {
      assert segment + tail == segment;
      SplitNoSep(segment, '/');
    } else {
      assert segment + tail == segment + ['/'] + tail[1..];
      SplitAfterHead(segment, '/', tail[1..]);
    }
  }

  /** The row built at lines 144-153 for an ARTICLE child whose url does not raise. */
  function CandidateOf(p: Props): Candidate
    requires !CategoryRaises(UrlOf(p))
  {
    Candidate(p.id, p.title, UrlOf(p), CategoryOf(UrlOf(p)), p.isPremium)
  }

  /** What the loop of lines 140-153 collects: the rows of the ARTICLE children up
      to the first one whose url raises, and whether it stopped there (the
      exception is caught at line 154 and the rows collected so far are kept). */
  function Collect(children: seq<Child>): (r: (seq<Candidate>, bool))
    decreases |children|
  {
    if children == [] then ([], false)
    else
      var c := children[0];
      var rest := Collect(children[1..]);
      if !IsArticle(c) then rest
      else if CategoryRaises(UrlOf(c.props)) then ([], true)
      else ([CandidateOf(c.props)] + rest.0, rest.1)
  }

  /** The collected rows come from ARTICLE children in order, each with the
      category of its url; the loop stops exactly when some ARTICLE url raises. */
  lemma {:induction false} CollectFacts(children: seq<Child>)
    ensures |Collect(children).0| <= |children|
    ensures Collect(children).1 <==> exists i :: 0 <= i < |children| && IsArticle(children[i]) && CategoryRaises(UrlOf(children[i].props))
    ensures forall c :: c in Collect(children).0 ==> !CategoryRaises(c.url) && c.category == CategoryOf(c.url)
    ensures forall c :: c in Collect(children).0 ==> exists i :: 0 <= i < |children| && IsArticle(children[i]) && c.id == children[i].props.id && c.title == children[i].props.title && c.isPremium == children[i].props.isPremium
    decreases |children|
  {
    if children != [] {
      var tl := children[1..];
      CollectFacts(tl);
      forall i | 0 <= i < |tl| ensures tl[i] == children[i + 1] { }
      var r := Collect(children);
      var rest := Collect(tl);
      if IsArticle(children[0]) && !CategoryRaises(UrlOf(children[0].props)) {
        forall c | c in r.0
          ensures exists i :: 0 <= i < |children| && IsArticle(children[i]) && c.id == children[i].props.id && c.title == children[i].props.title && c.isPremium == children[i].props.isPremium
        {
          if c != CandidateOf(children[0].props) {
            assert c in rest.0;
          }
        }
      }
      if r.1 && !(IsArticle(children[0]) && CategoryRaises(UrlOf(children[0].props))) {
        var i :| 0 <= i < |tl| && IsArticle(tl[i]) && CategoryRaises(UrlOf(tl[i].props));
        assert children[i + 1] == tl[i];
      }
      if (exists i :: 0 <= i < |children| && IsArticle(children[i]) && CategoryRaises(UrlOf(children[i].props))) {
        var i :| 0 <= i < |children| && IsArticle(children[i]) && CategoryRaises(UrlOf(children[i].props));
        if i > 0 {
          assert tl[i - 1] == children[i];
        }
      }
    }
  }

  /** The position of the first ARTICLE child whose url raises, or the length
      when none does. */
  function FirstRaising(children: seq<Child>): (p: nat)
    ensures p <= |children|
    ensures p < |children| ==> IsArticle(children[p]) && CategoryRaises(UrlOf(children[p].props))
    ensures forall i :: 0 <= i < p ==> !(IsArticle(children[i]) && CategoryRaises(UrlOf(children[i].props)))
    decreases |children|
  {
    if children == [] then 0
    else if IsArticle(children[0]) && CategoryRaises(UrlOf(children[0].props)) then 0
    else
      var tl := children[1..];
      assert forall i :: 1 <= i < |children| ==> children[i] == tl[i - 1];
      1 + FirstRaising(tl)
  }

  /** The rows of the ARTICLE children, in child order, for a list in which no
      ARTICLE url raises: each row takes id, title, url, category and premium
      flag from the props of one child. */
  function Rows(children: seq<Child>): (r: seq<Candidate>)
    requires forall i :: 0 <= i < |children| ==> !(IsArticle(children[i]) && CategoryRaises(UrlOf(children[i].props)))
    ensures |r| <= |children|
    decreases |children|
  {
    if children == [] then []
    else
      var tl := children[1..];
      assert forall i :: 1 <= i < |children| ==> children[i] == tl[i - 1];
      (if IsArticle(children[0]) then [CandidateOf(children[0].props)] else []) + Rows(tl)
  }

  /** A row is there exactly when some ARTICLE child yields it, every field of
      the row coming from that one child's props. */
  lemma {:induction false} RowsMembers(children: seq<Child>)
    requires forall i :: 0 <= i < |children| ==> !(IsArticle(children[i]) && CategoryRaises(UrlOf(children[i].props)))
    ensures forall c :: c in Rows(children) <==> exists k :: 0 <= k < |children| && IsArticle(children[k]) && c == CandidateOf(children[k].props)
    decreases |children|
  {
    if children != [] {
      var tl := children[1..];
      assert forall i :: 1 <= i < |children| ==> children[i] == tl[i - 1];
      RowsMembers(tl);
      forall c
        ensures c in Rows(children) <==> exists k :: 0 <= k < |children| && IsArticle(children[k]) && c == CandidateOf(children[k].props)
      {
        if exists k :: 0 <= k < |children| && IsArticle(children[k]) && c == CandidateOf(children[k].props) {
          var k :| 0 <= k < |children| && IsArticle(children[k]) && c == CandidateOf(children[k].props);
          if k > 0 {
            assert tl[k - 1] == children[k];
          }
        }
        if c in Rows(tl) {
          var k :| 0 <= k < |tl| && IsArticle(tl[k]) && c == CandidateOf(tl[k].props);
          assert children[k + 1] == tl[k];
        }
      }
    }
  }

  /** The loop keeps exactly the rows of the ARTICLE children before the first
      one whose url raises, and it stops early exactly when there is such a child. */
  lemma {:induction false} CollectTruncates(children: seq<Child>)
    ensures Collect(children).1 <==> FirstRaising(children) < |children|
    ensures Collect(children).0 == Rows(children[..FirstRaising(children)])
    decreases |children|
  {
    if children != [] {
      var c := children[0];
      var tl := children[1..];
      var p := FirstRaising(children);
      if IsArticle(c) && CategoryRaises(UrlOf(c.props)) {
        assert children[..p] == [];
      } else {
        CollectTruncates(tl);
        var q := FirstRaising(tl);
        assert p == 1 + q;
        assert children[..p] == [c] + tl[..q];
        assert ([c] + tl[..q])[1..] == tl[..q];
      }
    }
  }

  /** The loop of lines 140-153, appending to `articles` until it ends or an
      ARTICLE url raises IndexError. */
  method CollectArticles(children: seq<Child>) returns (articles: seq<Candidate>, aborted: bool)
    ensures (articles, aborted) == Collect(children)
  {
    articles := [];
    aborted := false;
    var i := 0;
    assert children[0..] == children;
    while i < |children|
      invariant 0 <= i <= |children|
      invariant Collect(children).0 == articles + Collect(children[i..]).0
      invariant Collect(children).1 == Collect(children[i..]).1
    {
      var c := children[i];
      assert children[i..][0] == c && children[i..][1..] == children[i + 1..];
      if IsArticle(c) {
        var url := UrlOf(c.props);
        if CategoryRaises(url) {
          assert Collect(children[i..]) == ([], true);
          assert articles + [] == articles;
          aborted := true;
          return;
        }
        assert Collect(children[i..]).0 == [CandidateOf(c.props)] + Collect(children[i + 1..]).0;
        articles := articles + [CandidateOf(c.props)];
      }
      i := i + 1;
    }
    assert children[i..] == [];
    assert articles + [] == articles;
  }

  /** The filter of line 158: id, title and url all truthy. */
  predicate Kept(c: Candidate)
  {
    c.id.Some? && c.id.value != "" && c.title.Some? && c.title.value != "" && c.url != ""
  }

  function AsArticle(c: Candidate): Article
    requires Kept(c)
  {
    Article(c.id.value, c.title.value, c.url, c.category, c.isPremium)
  }

  /** Line 158: exactly the kept candidates survive, with non-empty id, title and url. */
  function PostFilter(cs: seq<Candidate>): (r: seq<Article>)
    ensures |r| <= |cs|
    ensures forall a :: a in r ==> a.id != "" && a.title != "" && a.url != ""
    ensures forall c :: c in cs && Kept(c) ==> AsArticle(c) in r
    ensures forall a :: a in r ==> exists c :: c in cs && Kept(c) && AsArticle(c) == a
    decreases |cs|
  {
    if cs == [] then []
    else
      var rest := PostFilter(cs[1..]);
      assert forall c :: c in cs[1..] ==> c in cs;
      assert forall c :: c in cs ==> c == cs[0] || c in cs[1..];
      if Kept(cs[0]) then [AsArticle(cs[0])] + rest else rest
  }

  /** A candidate on its own survives exactly when it is kept. */
  lemma PostFilterSingle(c: Candidate)
    ensures PostFilter([c]) == if Kept(c) then [AsArticle(c)] else []
  {
    assert [c][1..] == [];
  }

  /** The filter works candidate by candidate: survivors keep their input
      order and their repeats, as the list comprehension of line 158 does. */
  lemma {:induction false} PostFilterAppend(a: seq<Candidate>, b: seq<Candidate>)
    ensures PostFilter(a + b) == PostFilter(a) + PostFilter(b)
    decreases |a|
  {
    if a == [] {
      assert a + b == b;
    } else {
      assert (a + b)[0] == a[0];
      assert (a + b)[1..] == a[1..] + b;
      PostFilterAppend(a[1..], b);
    }
  }

  /** The list `get_all_articles_from_bild` returns for a fetched page. */
  function ScrapedList(page: PageContext): seq<Article>
  {
    match page
    case NoScriptTag => []
    case Unparseable => []
    case Blocks(children) => PostFilter(Collect(children).0)
  }

  /** `get_all_articles_from_bild` after the page is fetched and decoded. */
  method GetAllArticlesFromBild(page: PageContext) returns (articles: seq<Article>)
    ensures articles == ScrapedList(page)
    ensures forall a :: a in articles ==> a.id != "" && a.title != "" && a.url != ""
    ensures forall a :: a in articles ==> !CategoryRaises(a.url) && a.category == CategoryOf(a.url)
  {
    match page {
      case NoScriptTag =>
        articles := [];
      case Unparseable =>
        articles := [];
      case Blocks(children) =>
        var collected, _ := CollectArticles(children);
        CollectFacts(children);
        articles := PostFilter(collected);
        forall a | a in articles ensures !CategoryRaises(a.url) && a.category == CategoryOf(a.url) {
          var c :| c in collected && Kept(c) && AsArticle(c) == a;
        }
    }
  }
}
