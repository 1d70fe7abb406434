/** bildscraper.py, the older stand-alone watcher: a dict `articles` of premium
    articles keyed by identifier, filled from each scrape and updated in place
    when an article turns free, with the elapsed time kept as an "H, M" text.
    `datetime.now()` readings come from a `clock`, page downloads from a
    `fetch` oracle and `datetime.fromisoformat` from `fromIso`; reading and
    writing the JSON file and the sleep loop are not modelled. */
module Bildscraper {
  import opened Wrappers
  import opened Strings

  /** An identifier as scraped: a JSON string or null. */
  type Ident = Option<string>

  /** `published` / `publishedToNormal`: a datetime of this run (whole seconds,
      local time) or an ISO text read back from the JSON file. */
  datatype Stamp = At(t: int) | Iso(text: string)

  /** A value of the `articles` dict. */
  datatype Entry = Entry(title: Option<string>, url: Option<string>, category: Option<string>,
                         published: Stamp, publishedToNormal: Option<Stamp>, timeBetween: Option<string>)

  /** A Python dict: keys in insertion order and the value of each. */
  datatype Dict = Dict(order: seq<Ident>, entries: map<Ident, Entry>)

  predicate WellFormed(d: Dict)
  {
    && (forall i, j :: 0 <= i < j < |d.order| ==> d.order[i] != d.order[j])
    && (forall i :: 0 <= i < |d.order| ==> d.order[i] in d.entries)
    && (forall k :: k in d.entries ==> k in d.order)
  }

  /** A record of `scraped_articles` (lines 76-83); `bildplus` and `url` are
      never null there. */
  datatype ScrapedArticle = ScrapedArticle(identifier: Ident, category: Option<string>, bildplus: bool,
                                           title: Option<string>, url: string)

  /** The `document` of a block's first placement (lines 54-65). */
  datatype Doc = Doc(identifier: Ident, bildplus: Option<bool>, title: Option<string>,
                     url: Option<string>, relativePath: Option<string>)

  /** A curation block: no layouts (skipped at line 91), a first placement that
      cannot be read (the exception caught at line 85), or its document. */
  datatype Block = NoLayouts | Unreadable | Placed(doc: Doc)

  /** What the `vike_pageContext` script yields: no tag, a JSON decode error, or the blocks. */
  datatype ScriptPage = NoTag | BadJson | Blocks(blocks: seq<Block>)

  /** Lines 67-73: `relative_path.split("/")[1].capitalize()`, None where there
      is no path or the split has no second piece (the IndexError is swallowed). */
  function CategoryFromPath(relativePath: Option<string>): (c: Option<string>)
    ensures relativePath.None? ==> c.None?
  {
    if relativePath.None? then None
    else
      var parts := Split(relativePath.value, '/');
      if |parts| >= 2 then Some(Capitalize(parts[1])) else None
  }

  /** The category is the capitalised segment after the first "/". */
  lemma CategoryFromPathSegment(head: string, segment: string, tail: string)
    requires '/' !in head && '/' !in segment
    requires tail == [] || tail[0] == '/'
    ensures CategoryFromPath(Some(head + "/" + segment + tail)) == Some(Capitalize(segment))
  {
    var p := head + "/" + segment + tail;
    assert p == head + ['/'] + (segment + tail);
    SplitAfterHead(head, '/', segment + tail);
    if tail == [] {
      assert segment + tail == segment;
      SplitNoSep(segment, '/');
    } else {
      assert segment + tail == segment + ['/'] + tail[1..];
      SplitAfterHead(segment, '/', tail[1..]);
    }
  }

  /** A path without any "/" has no category. */
  lemma CategoryFromPathNoSlash(p: string)
    requires '/' !in p
    ensures CategoryFromPath(Some(p)).None?
  {
    SplitNoSep(p, '/');
  }

  /** The test of line 75. `id` there is Python's builtin, never None, so only
      `bildplus` and `url` decide. */
  predicate Keep(d: Doc)
  {
    d.bildplus.Some? && d.url.Some?
  }

  /** A document with no identifier is kept all the same. */
  lemma KeepIgnoresIdentifier(d: Doc)
    ensures Keep(d) <==> Keep(d.(identifier := None))
  {
  }

  function Record(d: Doc): ScrapedArticle
    requires Keep(d)
  {
    ScrapedArticle(d.identifier, CategoryFromPath(d.relativePath), d.bildplus.value, d.title, d.url.value)
  }

  /** The records the loop of lines 50-91 appends, in block order. */
  function Collected(blocks: seq<Block>): (r: seq<ScrapedArticle>)
    ensures |r| <= |blocks|
    decreases |blocks|
  {
    if blocks == [] then []
    else (if blocks[0].Placed? && Keep(blocks[0].doc) then [Record(blocks[0].doc)] else []) + Collected(blocks[1..])
  }

  /** The scrape holds exactly the records of the kept documents. */
  lemma {:induction false} CollectedMembers(blocks: seq<Block>)
    ensures forall a :: a in Collected(blocks) ==>
              exists i :: 0 <= i < |blocks| && blocks[i].Placed? && Keep(blocks[i].doc) && Record(blocks[i].doc) == a
    ensures forall i :: 0 <= i < |blocks| && blocks[i].Placed? && Keep(blocks[i].doc) ==> Record(blocks[i].doc) in Collected(blocks)
    decreases |blocks|
  {
    if blocks != [] {
      var tl := blocks[1..];
      CollectedMembers(tl);
      assert forall i :: 1 <= i < |blocks| ==> blocks[i] == tl[i - 1];
      forall a | a in Collected(blocks)
        ensures exists i :: 0 <= i < |blocks| && blocks[i].Placed? && Keep(blocks[i].doc) && Record(blocks[i].doc) == a
      {
        if a !in Collected(tl) {
          assert blocks[0].Placed? && Keep(blocks[0].doc) && Record(blocks[0].doc) == a;
        } else {
          var i :| 0 <= i < |tl| && tl[i].Placed? && Keep(tl[i].doc) && Record(tl[i].doc) == a;
          assert blocks[i + 1] == tl[i];
        }
      }
    }
  }

  /** `scraped_articles` after `get_all_articles`. */
  function ScrapedFrom(page: ScriptPage): seq<ScrapedArticle>
  {
    match page
    case NoTag => []
    case BadJson => []
    case Blocks(blocks) => Collected(blocks)
  }

  /** Lines 135-139: whole hours and the whole minutes left over. `divmod` and `//`
      floor, as Dafny's `/` and `%` do for a positive divisor. */
  function TimeBetween(seconds: int): string
  {
    IntToString(seconds / 3600) + ", " + IntToString(seconds % 3600 / 60)
  }

  /** Reads an "H, M" text back: an independent reference for `TimeBetween`. */
  function ParseTimeBetween(s: string): Option<(int, int)>
  {
    var parts := Split(s, ',');
    if |parts| != 2 || parts[1] == [] || parts[1][0] != ' ' then None
    else
      match (ParseInt(parts[0]), ParseInt(parts[1][1..]))
      case (Some(h), Some(m)) => Some((h, m))
      case _ => None
  }

  /** The "H, M" text reads back as the hours and minutes it was made from; the
      minutes lie in [0, 60) and together they pin the elapsed time to its minute. */
  lemma TimeBetweenRoundTrip(seconds: int)
    ensures ParseTimeBetween(TimeBetween(seconds)) == Some((seconds / 3600, seconds % 3600 / 60))
    ensures 0 <= seconds % 3600 / 60 < 60
    ensures 3600 * (seconds / 3600) + 60 * (seconds % 3600 / 60) <= seconds < 3600 * (seconds / 3600) + 60 * (seconds % 3600 / 60) + 60
  {
    var h := seconds / 3600;
    var m := seconds % 3600 / 60;
    var hs := IntToString(h);
    var ms := IntToString(m);
    IntToStringRoundTrip(h);
    IntToStringRoundTrip(m);
    var tail := " " + ms;
    assert TimeBetween(seconds) == hs + [','] + tail;
    assert ',' !in tail;
    SplitAfterHead(hs, ',', tail);
    SplitNoSep(tail, ',');
    assert tail[1..] == ms;
  }

  /** `is_bildplus` on the downloaded page: the 15 characters from the first
      "isPremium" must contain "true"; `if index:` takes a match at 0 as no
      match and -1 as a match. */
  function IsBildplus(source: string): bool
  {
    var index := Find(source, "isPremium");
    index != 0 && Contains(Slice(source, index, index + 15), "true")
  }

  /** A page that starts with "isPremium" is never premium. */
  lemma IsBildplusAtStart(source: string)
    requires OccursAt(source, "isPremium", 0)
    ensures !IsBildplus(source)
  {
  }

  /** A page without "isPremium" is never premium: the slice `source[-1:14]`
      holds at most one character. */
  lemma IsBildplusAbsent(source: string)
    requires !Contains(source, "isPremium")
    ensures !IsBildplus(source)
  {
    var w := Slice(source, -1, 14);
    assert |w| <= 1;
    ContainsNeedsRoom(w, "true");
  }

  /** The first "isPremium" after the start, followed by `":true`, makes the page premium. */
  lemma IsBildplusLiteralTrue(pre: string, post: string)
    requires pre != []
    requires forall j :: 0 <= j < |pre| ==> !OccursAt(pre + "isPremium\":true" + post, "isPremium", j)
    ensures IsBildplus(pre + "isPremium\":true" + post)
  {
    var w := "isPremium\":true";
    var src := pre + w + post;
    assert src[|pre|..|pre| + 9] == "isPremium";
    assert OccursAt(src, "isPremium", |pre|);
    var index := Find(src, "isPremium");
    assert index == |pre|;
    assert Slice(src, index, index + 15) == w;
    assert w[11..15] == "true";
    assert OccursAt(w, "true", 11);
  }

  /** Followed by `":false` instead, it does not. */
  lemma IsBildplusLiteralFalse(pre: string, post: string)
    requires pre != []
    requires forall j :: 0 <= j < |pre| ==> !OccursAt(pre + "isPremium\":false" + post, "isPremium", j)
    ensures !IsBildplus(pre + "isPremium\":false" + post)
  {
    var w := "isPremium\":false";
    var src := pre + w + post;
    assert src[|pre|..|pre| + 9] == "isPremium";
    assert OccursAt(src, "isPremium", |pre|);
    var index := Find(src, "isPremium");
    assert index == |pre|;
    var win := Slice(src, index, index + 15);
    assert win == w[..15];
    forall j | 0 <= j ensures !OccursAt(win, "true", j) {
      if j + 4 <= |win| {
        assert win[j..j + 4][0] == win[j] != 't';
      }
    }
  }

  /** The value `post_plus_article` stores (lines 110-117). */
  function NewEntry(s: ScrapedArticle, now: int): Entry
  {
    Entry(s.title, Some(s.url), s.category, At(now), None, None)
  }

  /** `post_plus_article`: exactly the record's identifier gains the new entry;
      every other entry and the key order stay as they were. */
  function PostPlus(d: Dict, s: ScrapedArticle, now: int): (r: Dict)
    requires WellFormed(d)
    ensures WellFormed(r)
    ensures r.entries.Keys == d.entries.Keys + {s.identifier}
    ensures r.entries[s.identifier] == NewEntry(s, now)
    ensures forall k :: k in d.entries && k != s.identifier ==> r.entries[k] == d.entries[k]
    ensures r.order == if s.identifier in d.entries then d.order else d.order + [s.identifier]
  {
    var entries := d.entries[s.identifier := NewEntry(s, now)];
    if s.identifier in d.entries then Dict(d.order, entries) else Dict(d.order + [s.identifier], entries)
  }

  /** The argument of `update_plus_article_to_normal`: an identifier (line 180)
      or, as line 172 passes it, the whole scraped record. */
  datatype Key = ByIdent(ident: Ident) | ByRecord(record: ScrapedArticle)

  /** Lines 123-126: a datetime as it is, an ISO text through `fromisoformat`. */
  function PublishedInstant(p: Stamp, fromIso: string -> Option<int>): Option<int>
  {
    match p
    case At(t) => Some(t)
    case Iso(text) => fromIso(text)
  }

  /** `update_plus_article_to_normal`, or None where it raises: a record is not
      a hashable key, an identifier may be missing, a text may not parse. */
  function ToNormal(d: Dict, key: Key, now: int, fromIso: string -> Option<int>): (r: Option<Dict>)
    ensures r.Some? <==> key.ByIdent? && key.ident in d.entries && PublishedInstant(d.entries[key.ident].published, fromIso).Some?
  {
    match key
    case ByRecord(_) => None
    case ByIdent(k) =>
      if k !in d.entries then None
      else
        var e := d.entries[k];
        var published := PublishedInstant(e.published, fromIso);
        if published.None? then None
        else
          var e2 := e.(publishedToNormal := Some(At(now)), timeBetween := Some(TimeBetween(now - published.value)));
          Some(Dict(d.order, d.entries[k := e2]))
  }

  /** A successful update changes only its own entry: that entry gains the
      conversion time `now` and the "H, M" text of the time since `published`;
      keys and their order stay. */
  lemma ToNormalFacts(d: Dict, key: Key, now: int, fromIso: string -> Option<int>)
    requires ToNormal(d, key, now, fromIso).Some?
    ensures ToNormal(d, key, now, fromIso).value.order == d.order
    ensures ToNormal(d, key, now, fromIso).value.entries.Keys == d.entries.Keys
    ensures forall k :: k in d.entries && k != key.ident ==> ToNormal(d, key, now, fromIso).value.entries[k] == d.entries[k]
    ensures
      var e := d.entries[key.ident];
      ToNormal(d, key, now, fromIso).value.entries[key.ident] ==
        e.(publishedToNormal := Some(At(now)), timeBetween := Some(TimeBetween(now - PublishedInstant(e.published, fromIso).value)))
    ensures WellFormed(d) ==> WellFormed(ToNormal(d, key, now, fromIso).value)
  {
  }

  /** The state `check_articles` threads along: the dict, how many clock
      readings were taken, and whether an exception escaped. */
  datatype Run = Run(d: Dict, readings: nat, raised: bool)

  /** One iteration of the first loop (lines 165-176). */
  function Pass1Step(r: Run, s: ScrapedArticle, clock: nat -> int, fromIso: string -> Option<int>): (r': Run)
    requires WellFormed(r.d)
    ensures WellFormed(r'.d)
  {
    if r.raised then r
    else if s.identifier in r.d.entries then
      if !s.bildplus then
        // line 172 passes the record itself, which is never a key: it always raises
        assert ToNormal(r.d, ByRecord(s), clock(r.readings), fromIso).None?;
        Run(r.d, r.readings + 1, true)
      else r
    else if s.bildplus then Run(PostPlus(r.d, s, clock(r.readings)), r.readings + 1, false)
    else r
  }

  /** The first loop over the scraped records; an exception ends it. */
  function Pass1(r: Run, ss: seq<ScrapedArticle>, clock: nat -> int, fromIso: string -> Option<int>): (r': Run)
    requires WellFormed(r.d)
    ensures WellFormed(r'.d)
    decreases |ss|
  {
    if ss == [] then r else Pass1(Pass1Step(r, ss[0], clock, fromIso), ss[1..], clock, fromIso)
  }

  /** One iteration of the second loop (lines 178-180): the page is fetched for
      every entry, converted or not. */
  function Pass2Step(r: Run, k: Ident, fetch: Option<string> -> Option<string>,
                     clock: nat -> int, fromIso: string -> Option<int>): (r': Run)
    requires WellFormed(r.d)
    ensures WellFormed(r'.d)
    ensures r'.d.order == r.d.order && r'.d.entries.Keys == r.d.entries.Keys
  {
    if r.raised then r
    else if k !in r.d.entries then Run(r.d, r.readings, true)
    else
      var e := r.d.entries[k];
      var page := fetch(e.url);
      if page.None? then Run(r.d, r.readings, true)
      else if !IsBildplus(page.value) && e.timeBetween.None? then
        var t := ToNormal(r.d, ByIdent(k), clock(r.readings), fromIso);
        if t.None? then Run(r.d, r.readings + 1, true)
        else
          ToNormalFacts(r.d, ByIdent(k), clock(r.readings), fromIso);
          Run(t.value, r.readings + 1, false)
      else r
  }

  /** The second loop, over the keys in insertion order; an exception ends it. */
  function Pass2(r: Run, keys: seq<Ident>, fetch: Option<string> -> Option<string>,
                 clock: nat -> int, fromIso: string -> Option<int>): (r': Run)
    requires WellFormed(r.d)
    ensures WellFormed(r'.d)
    ensures r'.d.order == r.d.order && r'.d.entries.Keys == r.d.entries.Keys
    decreases |keys|
  {
    if keys == [] then r else Pass2(Pass2Step(r, keys[0], fetch, clock, fromIso), keys[1..], fetch, clock, fromIso)
  }

  /** `check_articles` from the dict `d` and the records `ss`. */
  function CheckRun(d: Dict, ss: seq<ScrapedArticle>, fetch: Option<string> -> Option<string>,
                    clock: nat -> int, fromIso: string -> Option<int>): Run
    requires WellFormed(d)
  {
    var r1 := Pass1(Run(d, 0, false), ss, clock, fromIso);
    Pass2(r1, r1.d.order, fetch, clock, fromIso)
  }

  /** Once an exception escaped, nothing further happens. */
  lemma {:induction false} Pass1Raised(r: Run, ss: seq<ScrapedArticle>, clock: nat -> int, fromIso: string -> Option<int>)
    requires WellFormed(r.d) && r.raised
    ensures Pass1(r, ss, clock, fromIso) == r
    decreases |ss|
  {
    if ss != [] {
      Pass1Raised(r, ss[1..], clock, fromIso);
    }
  }

  lemma {:induction false} Pass2Raised(r: Run, keys: seq<Ident>, fetch: Option<string> -> Option<string>,
                                       clock: nat -> int, fromIso: string -> Option<int>)
    requires WellFormed(r.d) && r.raised
    ensures Pass2(r, keys, fetch, clock, fromIso) == r
    decreases |keys|
  {
    if keys != [] {
      Pass2Raised(r, keys[1..], fetch, clock, fromIso);
    }
  }

  /** The first pass never changes an entry already in the dict, and the only
      entries it adds are for records scraped as premium. */
  lemma {:induction false} Pass1Entries(r: Run, ss: seq<ScrapedArticle>, clock: nat -> int, fromIso: string -> Option<int>)
    requires WellFormed(r.d)
    ensures r.d.entries.Keys <= Pass1(r, ss, clock, fromIso).d.entries.Keys
    ensures forall k :: k in r.d.entries ==> Pass1(r, ss, clock, fromIso).d.entries[k] == r.d.entries[k]
    ensures forall k :: k in Pass1(r, ss, clock, fromIso).d.entries && k !in r.d.entries ==>
              exists i :: 0 <= i < |ss| && ss[i].identifier == k && ss[i].bildplus
    decreases |ss|
  {
    if ss != [] {
      var r' := Pass1Step(r, ss[0], clock, fromIso);
      Pass1Entries(r', ss[1..], clock, fromIso);
      var res := Pass1(r, ss, clock, fromIso);
      forall k | k in res.d.entries && k !in r.d.entries
        ensures exists i :: 0 <= i < |ss| && ss[i].identifier == k && ss[i].bildplus
      {
        if k in r'.d.entries {
          assert ss[0].identifier == k && ss[0].bildplus;
        } else {
          var i :| 0 <= i < |ss[1..]| && ss[1..][i].identifier == k && ss[1..][i].bildplus;
          assert ss[i + 1] == ss[1..][i];
        }
      }
    }
  }

  /** Without an exception, the first pass leaves every record scraped as
      premium in the dict (lines 173-176). */
  lemma {:induction false} Pass1Posts(r: Run, ss: seq<ScrapedArticle>, clock: nat -> int, fromIso: string -> Option<int>)
    requires WellFormed(r.d)
    ensures !Pass1(r, ss, clock, fromIso).raised ==>
              forall i :: 0 <= i < |ss| && ss[i].bildplus ==> ss[i].identifier in Pass1(r, ss, clock, fromIso).d.entries
    decreases |ss|
  {
    if ss != [] {
      var tl := ss[1..];
      var r' := Pass1Step(r, ss[0], clock, fromIso);
      var res := Pass1(r, ss, clock, fromIso);
      if r'.raised {
        Pass1Raised(r', tl, clock, fromIso);
      } else {
        Pass1Entries(r', tl, clock, fromIso);
        Pass1Posts(r', tl, clock, fromIso);
        forall i | 0 <= i < |ss| && ss[i].bildplus && !res.raised
          ensures ss[i].identifier in res.d.entries
        {
          if i > 0 {
            assert tl[i - 1] == ss[i];
          }
        }
      }
    }
  }

  /** Record `i` is the first record scraped as premium with identifier `k`. */
  predicate FirstPremium(ss: seq<ScrapedArticle>, i: int, k: Ident)
  {
    && 0 <= i < |ss| && ss[i].identifier == k && ss[i].bildplus
    && forall j :: 0 <= j < i ==> !(ss[j].identifier == k && ss[j].bildplus)
  }

  lemma FirstPremiumShift(ss: seq<ScrapedArticle>, i: int, k: Ident)
    requires ss != [] && FirstPremium(ss[1..], i, k) && !(ss[0].identifier == k && ss[0].bildplus)
    ensures FirstPremium(ss, i + 1, k)
  {
    assert ss[i + 1] == ss[1..][i];
    forall j | 0 <= j < i + 1 ensures !(ss[j].identifier == k && ss[j].bildplus) {
      if j > 0 {
        assert ss[j] == ss[1..][j - 1];
      }
    }
  }

  /** A key the first pass adds holds the entry `post_plus_article` built for
      the first premium record with that identifier, at some clock reading. */
  lemma {:induction false} Pass1PostedEntry(r: Run, ss: seq<ScrapedArticle>, clock: nat -> int, fromIso: string -> Option<int>)
    requires WellFormed(r.d)
    ensures forall k :: k in Pass1(r, ss, clock, fromIso).d.entries && k !in r.d.entries ==>
              exists i, n :: FirstPremium(ss, i, k) && Pass1(r, ss, clock, fromIso).d.entries[k] == NewEntry(ss[i], clock(n))
    decreases |ss|
  {
    if ss != [] {
      var s := ss[0];
      var tl := ss[1..];
      var r' := Pass1Step(r, s, clock, fromIso);
      var res := Pass1(r, ss, clock, fromIso);
      assert res == Pass1(r', tl, clock, fromIso);
      if r'.raised {
        Pass1Raised(r', tl, clock, fromIso);
        assert res.d == r.d;
      } else {
        Pass1Entries(r', tl, clock, fromIso);
        Pass1PostedEntry(r', tl, clock, fromIso);
        forall k | k in res.d.entries && k !in r.d.entries
          ensures exists i, n :: FirstPremium(ss, i, k) && res.d.entries[k] == NewEntry(ss[i], clock(n))
        {
          if k in r'.d.entries {
            assert s.identifier == k && s.bildplus;
            assert FirstPremium(ss, 0, k);
            assert res.d.entries[k] == NewEntry(ss[0], clock(r.readings));
          } else {
            var i, n :| FirstPremium(tl, i, k) && res.d.entries[k] == NewEntry(tl[i], clock(n));
            FirstPremiumShift(ss, i, k);
            assert ss[i + 1] == tl[i];
          }
        }
      }
    }
  }

  /** Record `i` makes the first pass raise: it is scraped as free and its
      identifier is in the dict by then, stored before or posted by an earlier
      premium record. */
  predicate RaisesAt(d: Dict, ss: seq<ScrapedArticle>, i: int)
    requires 0 <= i < |ss|
  {
    && !ss[i].bildplus
    && (ss[i].identifier in d.entries || exists j :: 0 <= j < i && ss[j].identifier == ss[i].identifier && ss[j].bildplus)
  }

  /** Passing the record instead of its identifier (line 172) makes the first
      pass raise exactly when some stored article is scraped as free. */
  lemma {:induction false} Pass1RaisesIff(r: Run, ss: seq<ScrapedArticle>, clock: nat -> int, fromIso: string -> Option<int>)
    requires WellFormed(r.d) && !r.raised
    ensures Pass1(r, ss, clock, fromIso).raised <==> exists i :: 0 <= i < |ss| && RaisesAt(r.d, ss, i)
    decreases |ss|
  {
    if ss != [] {
      var s := ss[0];
      var r' := Pass1Step(r, s, clock, fromIso);
      if s.identifier in r.d.entries && !s.bildplus {
        assert r'.raised;
        Pass1Raised(r', ss[1..], clock, fromIso);
        assert RaisesAt(r.d, ss, 0);
      } else {
        assert !r'.raised;
        Pass1RaisesIff(r', ss[1..], clock, fromIso);
        var tl := ss[1..];
        assert forall k :: k in r'.d.entries <==> k in r.d.entries || (s.bildplus && k == s.identifier);
        forall i | 0 <= i < |tl| ensures RaisesAt(r'.d, tl, i) <==> RaisesAt(r.d, ss, i + 1) {
          assert tl[i] == ss[i + 1];
          if RaisesAt(r.d, ss, i + 1) && !(ss[i + 1].identifier in r.d.entries) && !(s.bildplus && ss[i + 1].identifier == s.identifier) {
            var j :| 0 <= j < i + 1 && ss[j].identifier == ss[i + 1].identifier && ss[j].bildplus;
            assert j != 0;
            assert tl[j - 1] == ss[j];
          }
          if RaisesAt(r'.d, tl, i) && !(tl[i].identifier in r'.d.entries) {
            var j :| 0 <= j < i && tl[j].identifier == tl[i].identifier && tl[j].bildplus;
            assert ss[j + 1] == tl[j];
          }
        }
        if exists i :: 0 <= i < |ss| && RaisesAt(r.d, ss, i) {
          var i :| 0 <= i < |ss| && RaisesAt(r.d, ss, i);
          assert i != 0;
          assert RaisesAt(r'.d, tl, i - 1);
        }
      }
    }
  }

  /** One step of the second pass changes at most its own key's entry, and only
      by converting an entry that was not converted. */
  lemma Pass2StepEntries(r: Run, k0: Ident, fetch: Option<string> -> Option<string>,
                         clock: nat -> int, fromIso: string -> Option<int>)
    requires WellFormed(r.d)
    ensures forall k :: k in r.d.entries && k != k0 ==> Pass2Step(r, k0, fetch, clock, fromIso).d.entries[k] == r.d.entries[k]
    ensures k0 in r.d.entries && Pass2Step(r, k0, fetch, clock, fromIso).d.entries[k0] != r.d.entries[k0] ==>
              && r.d.entries[k0].timeBetween.None?
              && Pass2Step(r, k0, fetch, clock, fromIso).d.entries[k0].timeBetween.Some?
              && Pass2Step(r, k0, fetch, clock, fromIso).d.entries[k0].publishedToNormal.Some?
  {
    var r' := Pass2Step(r, k0, fetch, clock, fromIso);
    if r'.d != r.d {
      ToNormalFacts(r.d, ByIdent(k0), clock(r.readings), fromIso);
    }
  }

  /** The second pass never touches an entry that is already converted; any
      entry it changes gets converted. */
  lemma {:induction false} Pass2Entries(r: Run, keys: seq<Ident>, fetch: Option<string> -> Option<string>,
                                        clock: nat -> int, fromIso: string -> Option<int>)
    requires WellFormed(r.d)
    ensures forall k :: k in r.d.entries && r.d.entries[k].timeBetween.Some? ==>
              Pass2(r, keys, fetch, clock, fromIso).d.entries[k] == r.d.entries[k]
    ensures forall k :: k in r.d.entries && Pass2(r, keys, fetch, clock, fromIso).d.entries[k] != r.d.entries[k] ==>
              Pass2(r, keys, fetch, clock, fromIso).d.entries[k].timeBetween.Some? &&
              Pass2(r, keys, fetch, clock, fromIso).d.entries[k].publishedToNormal.Some?
    decreases |keys|
  {
    if keys != [] {
      var r' := Pass2Step(r, keys[0], fetch, clock, fromIso);
      Pass2StepEntries(r, keys[0], fetch, clock, fromIso);
      Pass2Entries(r', keys[1..], fetch, clock, fromIso);
    }
  }

  /** Without an exception, the second pass converts every listed entry whose
      page is not premium and which was not converted yet. */
  lemma {:induction false} Pass2Converts(r: Run, keys: seq<Ident>, fetch: Option<string> -> Option<string>,
                                         clock: nat -> int, fromIso: string -> Option<int>, i: nat)
    requires WellFormed(r.d)
    requires forall a, b :: 0 <= a < b < |keys| ==> keys[a] != keys[b]
    requires i < |keys| && keys[i] in r.d.entries && r.d.entries[keys[i]].timeBetween.None?
    requires fetch(r.d.entries[keys[i]].url).Some? && !IsBildplus(fetch(r.d.entries[keys[i]].url).value)
    ensures !Pass2(r, keys, fetch, clock, fromIso).raised ==>
              && Pass2(r, keys, fetch, clock, fromIso).d.entries[keys[i]].timeBetween.Some?
              && Pass2(r, keys, fetch, clock, fromIso).d.entries[keys[i]].publishedToNormal.Some?
    decreases |keys|
  {
    var r' := Pass2Step(r, keys[0], fetch, clock, fromIso);
    if r'.raised {
      Pass2Raised(r', keys[1..], fetch, clock, fromIso);
    } else if i == 0 {
      ToNormalFacts(r.d, ByIdent(keys[0]), clock(r.readings), fromIso);
      Pass2Entries(r', keys[1..], fetch, clock, fromIso);
    } else {
      Pass2StepEntries(r, keys[0], fetch, clock, fromIso);
      assert keys[i] != keys[0];
      assert keys[1..][i - 1] == keys[i];
      Pass2Converts(r', keys[1..], fetch, clock, fromIso, i - 1);
    }
  }

  /** Key `k` makes the second pass raise: it is missing, its page download
      fails, or its page is free, it is not converted yet and its `published`
      does not parse. None of this depends on the clock. */
  predicate Pass2FailsAt(d: Dict, k: Ident, fetch: Option<string> -> Option<string>, fromIso: string -> Option<int>)
  {
    || k !in d.entries
    || fetch(d.entries[k].url).None?
    || (&& !IsBildplus(fetch(d.entries[k].url).value)
        && d.entries[k].timeBetween.None?
        && PublishedInstant(d.entries[k].published, fromIso).None?)
  }

  /** The second pass raises exactly when one of its keys fails, judged against
      the dict it started from: each step only touches its own key. */
  lemma {:induction false} Pass2RaisesIff(r: Run, keys: seq<Ident>, fetch: Option<string> -> Option<string>,
                                          clock: nat -> int, fromIso: string -> Option<int>)
    requires WellFormed(r.d) && !r.raised
    requires forall a, b :: 0 <= a < b < |keys| ==> keys[a] != keys[b]
    ensures Pass2(r, keys, fetch, clock, fromIso).raised <==>
              exists i :: 0 <= i < |keys| && Pass2FailsAt(r.d, keys[i], fetch, fromIso)
    decreases |keys|
  {
    if keys != [] {
      var k := keys[0];
      var tl := keys[1..];
      var r' := Pass2Step(r, k, fetch, clock, fromIso);
      if Pass2FailsAt(r.d, k, fetch, fromIso) {
        assert r'.raised;
        Pass2Raised(r', tl, fetch, clock, fromIso);
      } else {
        assert !r'.raised;
        Pass2StepEntries(r, k, fetch, clock, fromIso);
        forall a, b | 0 <= a < b < |tl| ensures tl[a] != tl[b] {
          assert tl[a] == keys[a + 1] && tl[b] == keys[b + 1];
        }
        Pass2RaisesIff(r', tl, fetch, clock, fromIso);
        forall i | 0 <= i < |tl| ensures Pass2FailsAt(r'.d, tl[i], fetch, fromIso) <==> Pass2FailsAt(r.d, keys[i + 1], fetch, fromIso) {
          assert tl[i] == keys[i + 1] && keys[i + 1] != k;
        }
        if exists i :: 0 <= i < |keys| && Pass2FailsAt(r.d, keys[i], fetch, fromIso) {
          var i :| 0 <= i < |keys| && Pass2FailsAt(r.d, keys[i], fetch, fromIso);
          assert i != 0;
          assert Pass2FailsAt(r'.d, tl[i - 1], fetch, fromIso);
        }
      }
    }
  }

  /** `check_articles` raises exactly when its first pass does, or else when
      some key of the dict the first pass left makes the second pass fail. */
  lemma CheckRunRaisesIff(d: Dict, ss: seq<ScrapedArticle>, fetch: Option<string> -> Option<string>,
                          clock: nat -> int, fromIso: string -> Option<int>)
    requires WellFormed(d)
    ensures
      var r1 := Pass1(Run(d, 0, false), ss, clock, fromIso);
      CheckRun(d, ss, fetch, clock, fromIso).raised <==>
        (exists i :: 0 <= i < |ss| && RaisesAt(d, ss, i)) ||
        (exists k :: k in r1.d.entries && Pass2FailsAt(r1.d, k, fetch, fromIso))
  {
    var r1 := Pass1(Run(d, 0, false), ss, clock, fromIso);
    Pass1RaisesIff(Run(d, 0, false), ss, clock, fromIso);
    if r1.raised {
      Pass2Raised(r1, r1.d.order, fetch, clock, fromIso);
    } else {
      Pass2RaisesIff(r1, r1.d.order, fetch, clock, fromIso);
      OrderFails(r1.d, fetch, fromIso);
    }
  }

  /** A key of the dict fails exactly when some position of its key order does. */
  lemma OrderFails(d: Dict, fetch: Option<string> -> Option<string>, fromIso: string -> Option<int>)
    requires WellFormed(d)
    ensures (exists i :: 0 <= i < |d.order| && Pass2FailsAt(d, d.order[i], fetch, fromIso)) <==>
            (exists k :: k in d.entries && Pass2FailsAt(d, k, fetch, fromIso))
  {
    if exists k :: k in d.entries && Pass2FailsAt(d, k, fetch, fromIso) {
      var k :| k in d.entries && Pass2FailsAt(d, k, fetch, fromIso);
      var i :| 0 <= i < |d.order| && d.order[i] == k;
    }
  }

  /** A whole `check_articles`: keys are only ever added, each new one for a
      record scraped as premium, and an entry already converted comes out
      exactly as it went in. */
  lemma CheckRunEntries(d: Dict, ss: seq<ScrapedArticle>, fetch: Option<string> -> Option<string>,
                        clock: nat -> int, fromIso: string -> Option<int>)
    requires WellFormed(d)
    ensures d.entries.Keys <= CheckRun(d, ss, fetch, clock, fromIso).d.entries.Keys
    ensures forall k :: k in CheckRun(d, ss, fetch, clock, fromIso).d.entries && k !in d.entries ==>
              exists i :: 0 <= i < |ss| && ss[i].identifier == k && ss[i].bildplus
    ensures forall k :: k in d.entries && d.entries[k].timeBetween.Some? ==>
              CheckRun(d, ss, fetch, clock, fromIso).d.entries[k] == d.entries[k]
    ensures !CheckRun(d, ss, fetch, clock, fromIso).raised ==>
              forall i :: 0 <= i < |ss| && ss[i].bildplus ==> ss[i].identifier in CheckRun(d, ss, fetch, clock, fromIso).d.entries
  {
    var r1 := Pass1(Run(d, 0, false), ss, clock, fromIso);
    Pass1Entries(Run(d, 0, false), ss, clock, fromIso);
    Pass1Posts(Run(d, 0, false), ss, clock, fromIso);
    Pass2Entries(r1, r1.d.order, fetch, clock, fromIso);
    if r1.raised {
      Pass2Raised(r1, r1.d.order, fetch, clock, fromIso);
    }
  }

  lemma CollectedUnfold(blocks: seq<Block>, i: nat)
    requires i < |blocks|
    ensures Collected(blocks[i..]) ==
      (if blocks[i].Placed? && Keep(blocks[i].doc) then [Record(blocks[i].doc)] else []) + Collected(blocks[i + 1..])
  {
    assert blocks[i..][1..] == blocks[i + 1..];
  }

  lemma Pass1Unfold(r: Run, ss: seq<ScrapedArticle>, i: nat, clock: nat -> int, fromIso: string -> Option<int>)
    requires WellFormed(r.d) && i < |ss|
    ensures Pass1(r, ss[i..], clock, fromIso) == Pass1(Pass1Step(r, ss[i], clock, fromIso), ss[i + 1..], clock, fromIso)
  {
    assert ss[i..][1..] == ss[i + 1..];
  }

  lemma Pass2Unfold(r: Run, keys: seq<Ident>, j: nat, fetch: Option<string> -> Option<string>,
                    clock: nat -> int, fromIso: string -> Option<int>)
    requires WellFormed(r.d) && j < |keys|
    ensures Pass2(r, keys[j..], fetch, clock, fromIso) == Pass2(Pass2Step(r, keys[j], fetch, clock, fromIso), keys[j + 1..], fetch, clock, fromIso)
  {
    assert keys[j..][1..] == keys[j + 1..];
  }

  /** The script's module-level state: the `articles` dict and the list
      `scraped_articles` of the latest scrape. */
  class Scraper {
    var articles: Dict
    var scrapedArticles: seq<ScrapedArticle>

    /** The state after `check_and_open_json` has loaded `loaded`. */
    constructor (loaded: Dict)
      requires WellFormed(loaded)
      ensures articles == loaded && scrapedArticles == []
    {
      articles := loaded;
      scrapedArticles := [];
    }

    /** `get_all_articles` on the decoded page: the list is reset, then every
        kept document is appended in block order. */
    method GetAllArticles(page: ScriptPage)
      modifies this
      ensures scrapedArticles == ScrapedFrom(page)
      ensures articles == old(articles)
    {
      scrapedArticles := [];
      if page.Blocks? {
        var blocks := page.blocks;
        var collected: seq<ScrapedArticle> := [];
        var i := 0;
        assert blocks[0..] == blocks;
        while i < |blocks|
          invariant 0 <= i <= |blocks|
          invariant articles == old(articles)
          invariant Collected(blocks) == collected + Collected(blocks[i..])
        {
          CollectedUnfold(blocks, i);
          var b := blocks[i];
          if b.Placed? && Keep(b.doc) {
            var rec := Record(b.doc);
            assert collected + ([rec] + Collected(blocks[i + 1..])) == (collected + [rec]) + Collected(blocks[i + 1..]);
            collected := collected + [rec];
          } else {
            assert [] + Collected(blocks[i + 1..]) == Collected(blocks[i + 1..]);
          }
          i := i + 1;
        }
        assert blocks[i..] == [];
        assert collected + [] == collected;
        scrapedArticles := collected;
      }
    }

    /** `post_plus_article(s)` with the clock reading `now`. */
    method PostPlusArticle(s: ScrapedArticle, now: int)
      modifies this
      requires WellFormed(articles)
      ensures articles == PostPlus(old(articles), s, now)
      ensures scrapedArticles == old(scrapedArticles)
    {
      var entry := NewEntry(s, now);
      if s.identifier !in articles.entries {
        articles := articles.(order := articles.order + [s.identifier]);
      }
      articles := articles.(entries := articles.entries[s.identifier := entry]);
    }

    /** `update_plus_article_to_normal(key)` with the clock reading `now`;
        `raised` where it raises, and then nothing has changed. */
    method UpdatePlusArticleToNormal(key: Key, now: int, fromIso: string -> Option<int>) returns (raised: bool)
      modifies this
      ensures if raised then ToNormal(old(articles), key, now, fromIso).None? && articles == old(articles)
              else ToNormal(old(articles), key, now, fromIso) == Some(articles)
      ensures scrapedArticles == old(scrapedArticles)
    {
      if key.ByRecord? || key.ident !in articles.entries {
        return true;
      }
      var k := key.ident;
      var e := articles.entries[k];
      var published := PublishedInstant(e.published, fromIso);
      if published.None? {
        return true;
      }
      e := e.(publishedToNormal := Some(At(now)), timeBetween := Some(TimeBetween(now - published.value)));
      articles := Dict(articles.order, articles.entries[k := e]);
      raised := false;
    }

    /** One iteration of the first loop of `check_articles` (lines 166-176)
        for the record `s`, the clock having been read `readings0` times. */
    method CheckOneScraped(s: ScrapedArticle, clock: nat -> int, fromIso: string -> Option<int>, readings0: nat)
      returns (raised: bool, readings: nat)
      modifies this
      requires WellFormed(articles)
      ensures Run(articles, readings, raised) == Pass1Step(Run(old(articles), readings0, false), s, clock, fromIso)
      ensures scrapedArticles == old(scrapedArticles)
    {
      readings, raised := readings0, false;
      if s.identifier in articles.entries {
        if !s.bildplus {
          raised := UpdatePlusArticleToNormal(ByRecord(s), clock(readings), fromIso);
          readings := readings + 1;
        }
      } else if s.bildplus {
        PostPlusArticle(s, clock(readings));
        readings := readings + 1;
      }
    }

    /** The first loop of `check_articles` (lines 165-176), from `readings0`
        clock readings on; `raised` where an exception escapes. */
    method CheckScraped(clock: nat -> int, fromIso: string -> Option<int>, readings0: nat)
      returns (raised: bool, readings: nat)
      modifies this
      requires WellFormed(articles)
      ensures Run(articles, readings, raised) == Pass1(Run(old(articles), readings0, false), old(scrapedArticles), clock, fromIso)
      ensures scrapedArticles == old(scrapedArticles)
    {
      var ss := scrapedArticles;
      readings := readings0;
      raised := false;
      var i := 0;
      assert ss[0..] == ss;
      while i < |ss|
        invariant 0 <= i <= |ss|
        invariant WellFormed(articles) && scrapedArticles == ss
        invariant Pass1(Run(old(articles), readings0, false), ss, clock, fromIso) == Pass1(Run(articles, readings, false), ss[i..], clock, fromIso)
      {
        Pass1Unfold(Run(articles, readings, false), ss, i, clock, fromIso);
        raised, readings := CheckOneScraped(ss[i], clock, fromIso, readings);
        if raised {
          Pass1Raised(Run(articles, readings, true), ss[i + 1..], clock, fromIso);
          return;
        }
        i := i + 1;
      }
      assert ss[i..] == [];
    }

    /** One iteration of the second loop of `check_articles` (lines 179-180)
        for the key `k`, the clock having been read `readings0` times. */
    method CheckOneStored(k: Ident, fetch: Option<string> -> Option<string>, clock: nat -> int,
                          fromIso: string -> Option<int>, readings0: nat)
      returns (raised: bool, readings: nat)
      modifies this
      requires WellFormed(articles) && k in articles.entries
      ensures Run(articles, readings, raised) == Pass2Step(Run(old(articles), readings0, false), k, fetch, clock, fromIso)
      ensures scrapedArticles == old(scrapedArticles)
    {
      readings, raised := readings0, false;
      var page := fetch(articles.entries[k].url);
      if page.None? {
        raised := true;
        return;
      }
      if !IsBildplus(page.value) && articles.entries[k].timeBetween.None? {
        raised := UpdatePlusArticleToNormal(ByIdent(k), clock(readings), fromIso);
        readings := readings + 1;
      }
    }

    /** The second loop of `check_articles` (lines 178-180) over the keys as
        they stand, from `readings0` clock readings on; `raised` where an
        exception escapes. */
    method CheckStored(fetch: Option<string> -> Option<string>, clock: nat -> int, fromIso: string -> Option<int>, readings0: nat)
      returns (raised: bool)
      modifies this
      requires WellFormed(articles)
      ensures raised == Pass2(Run(old(articles), readings0, false), old(articles).order, fetch, clock, fromIso).raised
      ensures articles == Pass2(Run(old(articles), readings0, false), old(articles).order, fetch, clock, fromIso).d
      ensures scrapedArticles == old(scrapedArticles)
    {
      var keys := articles.order;
      var readings := readings0;
      raised := false;
      var j := 0;
      assert keys[0..] == keys;
      while j < |keys|
        invariant 0 <= j <= |keys|
        invariant WellFormed(articles) && scrapedArticles == old(scrapedArticles) && articles.order == keys
        invariant Pass2(Run(old(articles), readings0, false), keys, fetch, clock, fromIso) == Pass2(Run(articles, readings, false), keys[j..], fetch, clock, fromIso)
      {
        Pass2Unfold(Run(articles, readings, false), keys, j, fetch, clock, fromIso);
        raised, readings := CheckOneStored(keys[j], fetch, clock, fromIso, readings);
        if raised {
          Pass2Raised(Run(articles, readings, true), keys[j + 1..], fetch, clock, fromIso);
          return;
        }
        j := j + 1;
      }
      assert keys[j..] == [];
    }

    /** `check_articles`: the scraped records against the dict, then every entry
        against its page. The i-th `datetime.now()` reading is `clock(i)`;
        `raised` where an exception escapes, with the dict as it was then. */
    method CheckArticles(fetch: Option<string> -> Option<string>, clock: nat -> int, fromIso: string -> Option<int>)
      returns (raised: bool)
      modifies this
      requires WellFormed(articles)
      ensures raised == CheckRun(old(articles), old(scrapedArticles), fetch, clock, fromIso).raised
      ensures articles == CheckRun(old(articles), old(scrapedArticles), fetch, clock, fromIso).d
      ensures scrapedArticles == old(scrapedArticles)
    {
      var readings;
      raised, readings := CheckScraped(clock, fromIso, 0);
      if raised {
        Pass2Raised(Run(articles, readings, true), articles.order, fetch, clock, fromIso);
        return;
      }
      raised := CheckStored(fetch, clock, fromIso, readings);
    }
  }
}
