/** The decision half of `sync_bildwatch` (bildwatch_sehbmaster.py): which
    scraped articles to create and which stored articles to patch to
    "converted", as a pure function of the stored rows, the scraped list and
    the instant `now` read at line 200. The writes themselves are in module
    Cycle. */
module Reconciler {
  import opened Wrappers
  import opened Timestamps
  import opened Scrape

  /** A row of GET /bild/articles, reduced to the fields the cycle reads. */
  datatype DbRow = DbRow(id: string, isPremium: bool, published: Option<string>)

  predicate Distinct(ks: seq<string>)
  {
    forall i, j :: 0 <= i < j < |ks| ==> ks[i] != ks[j]
  }

  /** The ids of a list of articles, position by position. */
  function Ids(s: seq<Article>): (r: seq<string>)
    ensures |r| == |s|
  {
    seq(|s|, i requires 0 <= i < |s| => s[i].id)
  }

  predicate HasId(s: seq<Article>, k: string)
  {
    exists i :: 0 <= i < |s| && s[i].id == k
  }

  /** `db_by_id = {row["id"]: row for row in db_rows}`: later rows win. */
  function IndexDb(rows: seq<DbRow>): (db: map<string, DbRow>)
    ensures forall k :: k in db ==> db[k].id == k
    ensures forall k :: k in db <==> exists i :: 0 <= i < |rows| && rows[i].id == k
    decreases |rows|
  {
    if rows == [] then map[]
    else
      var front := rows[..|rows| - 1];
      var last := rows[|rows| - 1];
      assert forall i :: 0 <= i < |front| ==> front[i] == rows[i];
      IndexDb(front)[last.id := last]
  }

  /** Row `i` is the last stored row with id `k`. */
  predicate LastRowAt(rows: seq<DbRow>, i: int, k: string)
  {
    0 <= i < |rows| && rows[i].id == k && forall j :: i < j < |rows| ==> rows[j].id != k
  }

  /** A last row of the stored rows other than the final one is a last row of
      the rows before the final one. */
  lemma LastRowAtFront(rows: seq<DbRow>, i: int, k: string)
    requires rows != [] && LastRowAt(rows[..|rows| - 1], i, k) && rows[|rows| - 1].id != k
    ensures LastRowAt(rows, i, k) && rows[i] == rows[..|rows| - 1][i]
  {
  }

  /** Each id of `db_by_id` holds the last stored row with that id. */
  lemma {:induction false} IndexDbLast(rows: seq<DbRow>)
    ensures forall k :: k in IndexDb(rows) ==> exists i :: LastRowAt(rows, i, k) && rows[i] == IndexDb(rows)[k]
    decreases |rows|
  {
    if rows != [] {
      var front := rows[..|rows| - 1];
      var last := rows[|rows| - 1];
      var db := IndexDb(rows);
      assert db == IndexDb(front)[last.id := last];
      IndexDbLast(front);
      forall k | k in db ensures exists i :: LastRowAt(rows, i, k) && rows[i] == db[k] {
        if k == last.id {
          assert LastRowAt(rows, |rows| - 1, k);
        } else {
          var i :| LastRowAt(front, i, k) && front[i] == IndexDb(front)[k];
          LastRowAtFront(rows, i, k);
        }
      }
    }
  }

  /** A Python dict keyed by article id: keys in the order of first insertion,
      each holding the value assigned last. */
  datatype ScrapedIndex = ScrapedIndex(order: seq<string>, rows: map<string, Article>)

  /** `d[a.id] = a` on such a dict. */
  function Put(ix: ScrapedIndex, a: Article): ScrapedIndex
  {
    if a.id in ix.rows then ScrapedIndex(ix.order, ix.rows[a.id := a])
    else ScrapedIndex(ix.order + [a.id], ix.rows[a.id := a])
  }

  /** `scraped_by_id = {row["id"]: row for row in scraped}` (line 181). */
  function IndexScraped(s: seq<Article>): (ix: ScrapedIndex)
    ensures Distinct(ix.order)
    ensures forall k :: k in ix.order <==> k in ix.rows
    ensures forall k :: k in ix.rows ==> ix.rows[k].id == k
    decreases |s|
  {
    if s == [] then ScrapedIndex([], map[])
    else Put(IndexScraped(s[..|s| - 1]), s[|s| - 1])
  }

  /** The last article in `s` with id `k`: a reference definition for the dict's value. */
  function LastWithId(s: seq<Article>, k: string): (a: Article)
    requires HasId(s, k)
    ensures a in s && a.id == k
    decreases |s|
  {
    if s[|s| - 1].id == k then s[|s| - 1]
    else
      var front := s[..|s| - 1];
      assert forall i :: 0 <= i < |front| ==> front[i] == s[i];
      LastWithId(front, k)
  }

  /** The dict holds exactly the scraped ids, each mapped to its last occurrence. */
  lemma {:induction false} IndexScrapedRows(s: seq<Article>)
    ensures forall k :: k in IndexScraped(s).rows <==> HasId(s, k)
    ensures forall k :: k in IndexScraped(s).rows ==> IndexScraped(s).rows[k] == LastWithId(s, k)
    decreases |s|
  {
    if s != [] {
      var front := s[..|s| - 1];
      IndexScrapedRows(front);
      assert forall i :: 0 <= i < |front| ==> front[i] == s[i];
      forall k ensures HasId(s, k) <==> HasId(front, k) || s[|s| - 1].id == k {
        if HasId(s, k) && s[|s| - 1].id != k {
          var i :| 0 <= i < |s| && s[i].id == k;
          assert i < |front|;
        }
      }
    }
  }

  /** The position of the first article in `s` with id `k`. */
  function FirstIndex(s: seq<Article>, k: string): (p: nat)
    requires HasId(s, k)
    ensures p < |s| && s[p].id == k
    ensures forall q :: 0 <= q < p ==> s[q].id != k
    decreases |s|
  {
    if s[0].id == k then 0
    else
      var tl := s[1..];
      assert forall i :: 1 <= i < |s| ==> s[i] == tl[i - 1];
      assert HasId(tl, k) by {
        var i :| 0 <= i < |s| && s[i].id == k;
        assert tl[i - 1].id == k;
      }
      1 + FirstIndex(tl, k)
  }

  /** Appending an article keeps the first position of every id already present. */
  lemma FirstIndexAppend(s: seq<Article>, a: Article, k: string)
    requires HasId(s, k)
    ensures HasId(s + [a], k) && FirstIndex(s + [a], k) == FirstIndex(s, k)
  {
    var p := FirstIndex(s, k);
    assert (s + [a])[p] == s[p];
  }

  /** The ids of `order` all occur in `s`, listed by their first occurrence. */
  predicate OrderedByFirst(s: seq<Article>, order: seq<string>)
  {
    && (forall k :: k in order ==> HasId(s, k))
    && forall i, j :: 0 <= i < j < |order| ==> FirstIndex(s, order[i]) < FirstIndex(s, order[j])
  }

  lemma OrderedAppendOld(s: seq<Article>, a: Article, order: seq<string>)
    requires OrderedByFirst(s, order)
    ensures OrderedByFirst(s + [a], order)
  {
    forall k | k in order ensures HasId(s + [a], k) && FirstIndex(s + [a], k) == FirstIndex(s, k) {
      FirstIndexAppend(s, a, k);
    }
  }

  lemma OrderedAppendNew(s: seq<Article>, a: Article, order: seq<string>)
    requires OrderedByFirst(s, order) && !HasId(s, a.id)
    ensures OrderedByFirst(s + [a], order + [a.id])
  {
    var t := s + [a];
    var o := order + [a.id];
    OrderedAppendOld(s, a, order);
    assert t[|s|].id == a.id;
    assert HasId(t, a.id);
    forall k | k in o ensures HasId(t, k) {
      if k != a.id {
        assert k in order;
      }
    }
    forall i, j | 0 <= i < j < |o| ensures FirstIndex(t, o[i]) < FirstIndex(t, o[j]) {
      assert o[i] == order[i] && order[i] in order;
      if j < |order| {
        assert o[j] == order[j];
      }
    }
  }

  /** `scraped_by_id` lists the scraped ids in the order of their first
      occurrence; `ReconcileCreates` and `ReconcilePatches` carry it over to
      the plan. */
  lemma {:induction false} IndexScrapedOrder(s: seq<Article>)
    ensures OrderedByFirst(s, IndexScraped(s).order)
    decreases |s|
  {
    if s != [] {
      var front := s[..|s| - 1];
      var a := s[|s| - 1];
      assert s == front + [a];
      var ixf := IndexScraped(front);
      assert IndexScraped(s) == Put(ixf, a);
      IndexScrapedOrder(front);
      if a.id in ixf.rows {
        OrderedAppendOld(front, a, ixf.order);
      } else {
        IndexScrapedRows(front);
        OrderedAppendNew(front, a, ixf.order);
      }
    }
  }

  /** One conversion to PATCH: the article id and the hours since its `published`. */
  datatype PatchOp = PatchOp(id: string, hours: Option<real>)

  /** The writes one cycle attempts, in the order it attempts them. */
  datatype Plan = Plan(creates: seq<Article>, patches: seq<PatchOp>)

  function PatchIds(ps: seq<PatchOp>): (r: seq<string>)
    ensures |r| == |ps|
  {
    seq(|ps|, i requires 0 <= i < |ps| => ps[i].id)
  }

  /** Loop 188-189: every dict entry whose id the store does not know. */
  function CreatesFor(order: seq<string>, rows: map<string, Article>, db: map<string, DbRow>): seq<Article>
    requires forall k :: k in order ==> k in rows
    decreases |order|
  {
    if order == [] then []
    else (if order[0] !in db then [rows[order[0]]] else []) + CreatesFor(order[1..], rows, db)
  }

  /** The transition test of lines 202-207. */
  predicate Converts(k: string, rows: map<string, Article>, db: map<string, DbRow>)
  {
    k in db && k in rows && db[k].isPremium && !rows[k].isPremium
  }

  /** Lines 208-209: hours from the stored `published` to `now`. */
  function ConversionHours(row: DbRow, now: int, fromIso: string -> Option<int>): Option<real>
  {
    HoursBetween(ParseIsoDt(row.published, fromIso), Some(now))
  }

  /** Loop 201-209: every dict entry stored as premium and now scraped as free. */
  function PatchesFor(order: seq<string>, rows: map<string, Article>, db: map<string, DbRow>,
                      now: int, fromIso: string -> Option<int>): seq<PatchOp>
    decreases |order|
  {
    if order == [] then []
    else
      var k := order[0];
      (if Converts(k, rows, db) then [PatchOp(k, ConversionHours(db[k], now, fromIso))] else [])
      + PatchesFor(order[1..], rows, db, now, fromIso)
  }

  /** The plan against a store given as a map from id to row. */
  function ReconcileWith(db: map<string, DbRow>, scraped: seq<Article>, now: int, fromIso: string -> Option<int>): Plan
  {
    var ix := IndexScraped(scraped);
    Plan(CreatesFor(ix.order, ix.rows, db), PatchesFor(ix.order, ix.rows, db, now, fromIso))
  }

  /** The plan of one cycle from the stored rows, the scrape and `now`. */
  function Reconcile(dbRows: seq<DbRow>, scraped: seq<Article>, now: int, fromIso: string -> Option<int>): Plan
  {
    ReconcileWith(IndexDb(dbRows), scraped, now, fromIso)
  }

  /** Dropping the head of a list of distinct keys keeps them distinct, and the
      head is not among the rest. */
  lemma DistinctTail(order: seq<string>)
    requires order != [] && Distinct(order)
    ensures Distinct(order[1..]) && order[0] !in order[1..]
    ensures forall k :: k in order <==> k == order[0] || k in order[1..]
  {
    var tl := order[1..];
    forall i, j | 0 <= i < j < |tl| ensures tl[i] != tl[j] {
      assert tl[i] == order[i + 1] && tl[j] == order[j + 1];
    }
    forall j | 0 <= j < |tl| ensures tl[j] != order[0] {
      assert tl[j] == order[j + 1];
    }
    assert order == [order[0]] + tl;
  }

  lemma {:induction false} CreatesForFacts(order: seq<string>, rows: map<string, Article>, db: map<string, DbRow>)
    requires forall k :: k in order ==> k in rows && rows[k].id == k
    requires Distinct(order)
    ensures Distinct(Ids(CreatesFor(order, rows, db)))
    ensures forall k :: k in Ids(CreatesFor(order, rows, db)) <==> k in order && k !in db
    ensures forall a :: a in CreatesFor(order, rows, db) ==> a.id in rows && a == rows[a.id]
    decreases |order|
  {
    if order != [] {
      var tl := order[1..];
      DistinctTail(order);
      CreatesForFacts(tl, rows, db);
      var head: seq<Article> := if order[0] !in db then [rows[order[0]]] else [];
      var rest := CreatesFor(tl, rows, db);
      var r := CreatesFor(order, rows, db);
      assert r == head + rest;
      assert Ids(r) == Ids(head) + Ids(rest);
      assert Ids(head) == if order[0] !in db then [order[0]] else [];
    }
  }

  lemma {:induction false} PatchesForFacts(order: seq<string>, rows: map<string, Article>, db: map<string, DbRow>,
                                           now: int, fromIso: string -> Option<int>)
    requires Distinct(order)
    ensures Distinct(PatchIds(PatchesFor(order, rows, db, now, fromIso)))
    ensures forall k :: k in PatchIds(PatchesFor(order, rows, db, now, fromIso)) <==> k in order && Converts(k, rows, db)
    ensures forall p :: p in PatchesFor(order, rows, db, now, fromIso) ==> p.id in db && p.hours == ConversionHours(db[p.id], now, fromIso)
    decreases |order|
  {
    if order != [] {
      var tl := order[1..];
      DistinctTail(order);
      PatchesForFacts(tl, rows, db, now, fromIso);
      var k := order[0];
      var head: seq<PatchOp> := if Converts(k, rows, db) then [PatchOp(k, ConversionHours(db[k], now, fromIso))] else [];
      var rest := PatchesFor(tl, rows, db, now, fromIso);
      var r := PatchesFor(order, rows, db, now, fromIso);
      assert r == head + rest;
      assert PatchIds(r) == PatchIds(head) + PatchIds(rest);
      assert PatchIds(head) == if Converts(k, rows, db) then [k] else [];
    }
  }

  /** Dropping the head of an ordered list leaves it ordered, with the head
      before every id that is left. */
  lemma OrderedTail(s: seq<Article>, order: seq<string>)
    requires order != [] && OrderedByFirst(s, order)
    ensures HasId(s, order[0]) && OrderedByFirst(s, order[1..])
    ensures forall k :: k in order[1..] ==> HasId(s, k) && FirstIndex(s, order[0]) < FirstIndex(s, k)
  {
    var tl := order[1..];
    assert order[0] in order;
    forall k | k in tl ensures HasId(s, k) {
      assert k in order;
    }
    forall i, j | 0 <= i < j < |tl| ensures FirstIndex(s, tl[i]) < FirstIndex(s, tl[j]) {
      assert tl[i] == order[i + 1] && tl[j] == order[j + 1];
    }
    forall k | k in tl ensures FirstIndex(s, order[0]) < FirstIndex(s, k) {
      var j :| 0 <= j < |tl| && tl[j] == k;
      assert order[j + 1] == k;
    }
  }

  /** An id placed in front of an ordered list whose ids all come later keeps it ordered. */
  lemma OrderedCons(s: seq<Article>, head: seq<string>, rest: seq<string>)
    requires |head| <= 1 && OrderedByFirst(s, head) && OrderedByFirst(s, rest)
    requires forall x, k :: x in head && k in rest ==> FirstIndex(s, x) < FirstIndex(s, k)
    ensures OrderedByFirst(s, head + rest)
  {
    var o := head + rest;
    forall k | k in o ensures HasId(s, k) {
      if k !in head {
        assert k in rest;
      }
    }
    forall i, j | 0 <= i < j < |o| ensures FirstIndex(s, o[i]) < FirstIndex(s, o[j]) {
      if i < |head| {
        assert o[i] in head && o[j] == rest[j - |head|] && rest[j - |head|] in rest;
      } else {
        assert o[i] == rest[i - |head|] && o[j] == rest[j - |head|];
      }
    }
  }

  lemma IdsAppend(a: seq<Article>, b: seq<Article>)
    ensures Ids(a + b) == Ids(a) + Ids(b)
  {
    assert forall i :: 0 <= i < |a| ==> (a + b)[i] == a[i];
    assert forall i :: |a| <= i < |a| + |b| ==> (a + b)[i] == b[i - |a|];
  }

  /** Every planned create's id comes from `order`. */
  lemma {:induction false} CreatesForWithin(order: seq<string>, rows: map<string, Article>, db: map<string, DbRow>)
    requires forall k :: k in order ==> k in rows && rows[k].id == k
    ensures forall k :: k in Ids(CreatesFor(order, rows, db)) ==> k in order
    decreases |order|
  {
    if order != [] {
      var tl := order[1..];
      CreatesForWithin(tl, rows, db);
      var head: seq<Article> := if order[0] !in db then [rows[order[0]]] else [];
      assert CreatesFor(order, rows, db) == head + CreatesFor(tl, rows, db);
      IdsAppend(head, CreatesFor(tl, rows, db));
      assert Ids(head) == if order[0] !in db then [order[0]] else [];
      assert forall k :: k in tl ==> k in order;
    }
  }

  /** The creates come in the order of `order`. */
  lemma {:induction false} CreatesForOrdered(s: seq<Article>, order: seq<string>, rows: map<string, Article>, db: map<string, DbRow>)
    requires forall k :: k in order ==> k in rows && rows[k].id == k
    requires Distinct(order) && OrderedByFirst(s, order)
    ensures OrderedByFirst(s, Ids(CreatesFor(order, rows, db)))
    decreases |order|
  {
    if order == [] {
      assert Ids(CreatesFor(order, rows, db)) == [];
    } else {
      var tl := order[1..];
      DistinctTail(order);
      OrderedTail(s, order);
      CreatesForOrdered(s, tl, rows, db);
      var head: seq<Article> := if order[0] !in db then [rows[order[0]]] else [];
      var rest := CreatesFor(tl, rows, db);
      CreatesForWithin(tl, rows, db);
      assert CreatesFor(order, rows, db) == head + rest;
      IdsAppend(head, rest);
      assert Ids(head) == if order[0] !in db then [order[0]] else [];
      OrderedCons(s, Ids(head), Ids(rest));
    }
  }

  /** The patches come in the order of `order`. */
  lemma {:induction false} PatchesForOrdered(s: seq<Article>, order: seq<string>, rows: map<string, Article>, db: map<string, DbRow>,
                                             now: int, fromIso: string -> Option<int>)
    requires Distinct(order) && OrderedByFirst(s, order)
    ensures OrderedByFirst(s, PatchIds(PatchesFor(order, rows, db, now, fromIso)))
    decreases |order|
  {
    if order == [] {
      assert PatchIds(PatchesFor(order, rows, db, now, fromIso)) == [];
    } else {
      var tl := order[1..];
      DistinctTail(order);
      OrderedTail(s, order);
      PatchesForOrdered(s, tl, rows, db, now, fromIso);
      PatchesForFacts(tl, rows, db, now, fromIso);
      var k := order[0];
      var head: seq<PatchOp> := if Converts(k, rows, db) then [PatchOp(k, ConversionHours(db[k], now, fromIso))] else [];
      var rest := PatchesFor(tl, rows, db, now, fromIso);
      assert PatchesFor(order, rows, db, now, fromIso) == head + rest;
      assert PatchIds(head + rest) == PatchIds(head) + PatchIds(rest);
      assert PatchIds(head) == if Converts(k, rows, db) then [k] else [];
      OrderedCons(s, PatchIds(head), PatchIds(rest));
    }
  }

  /** A create is planned exactly once for each distinct scraped id the store
      lacks, never for a stored id, and carries the last scraped row with that id. */
  lemma ReconcileCreates(dbRows: seq<DbRow>, scraped: seq<Article>, now: int, fromIso: string -> Option<int>)
    ensures Distinct(Ids(Reconcile(dbRows, scraped, now, fromIso).creates))
    ensures forall k :: k in Ids(Reconcile(dbRows, scraped, now, fromIso).creates) <==> HasId(scraped, k) && k !in IndexDb(dbRows)
    ensures forall a :: a in Reconcile(dbRows, scraped, now, fromIso).creates ==> HasId(scraped, a.id) && a == LastWithId(scraped, a.id)
    ensures OrderedByFirst(scraped, Ids(Reconcile(dbRows, scraped, now, fromIso).creates))
  {
    var ix := IndexScraped(scraped);
    IndexScrapedRows(scraped);
    IndexScrapedOrder(scraped);
    CreatesForFacts(ix.order, ix.rows, IndexDb(dbRows));
    CreatesForOrdered(scraped, ix.order, ix.rows, IndexDb(dbRows));
  }

  /** A patch is planned for an id exactly when it is both stored and scraped,
      stored as premium and scraped (last occurrence) as free; each at most once,
      with the hours from the stored `published` to `now`. */
  lemma ReconcilePatches(dbRows: seq<DbRow>, scraped: seq<Article>, now: int, fromIso: string -> Option<int>)
    ensures Distinct(PatchIds(Reconcile(dbRows, scraped, now, fromIso).patches))
    ensures forall k :: k in PatchIds(Reconcile(dbRows, scraped, now, fromIso).patches) <==>
      k in IndexDb(dbRows) && HasId(scraped, k) && IndexDb(dbRows)[k].isPremium && !LastWithId(scraped, k).isPremium
    ensures forall p :: p in Reconcile(dbRows, scraped, now, fromIso).patches ==>
      p.id in IndexDb(dbRows) && p.hours == HoursBetween(ParseIsoDt(IndexDb(dbRows)[p.id].published, fromIso), Some(now))
    ensures OrderedByFirst(scraped, PatchIds(Reconcile(dbRows, scraped, now, fromIso).patches))
  {
    var ix := IndexScraped(scraped);
    IndexScrapedRows(scraped);
    IndexScrapedOrder(scraped);
    PatchesForFacts(ix.order, ix.rows, IndexDb(dbRows), now, fromIso);
    PatchesForOrdered(scraped, ix.order, ix.rows, IndexDb(dbRows), now, fromIso);
  }

  /** No id is both created and patched in one cycle, and a stored id that was
      not scraped is never touched. */
  lemma ReconcileDisjoint(dbRows: seq<DbRow>, scraped: seq<Article>, now: int, fromIso: string -> Option<int>, k: string)
    ensures !(k in Ids(Reconcile(dbRows, scraped, now, fromIso).creates) && k in PatchIds(Reconcile(dbRows, scraped, now, fromIso).patches))
    ensures !HasId(scraped, k) ==> k !in Ids(Reconcile(dbRows, scraped, now, fromIso).creates) && k !in PatchIds(Reconcile(dbRows, scraped, now, fromIso).patches)
  {
    ReconcileCreates(dbRows, scraped, now, fromIso);
    ReconcilePatches(dbRows, scraped, now, fromIso);
  }
}
