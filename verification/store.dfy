/** What the article store holds after one cycle's writes, and the
    reconciliation run again against it. The store's own code is not part of
    this model: a successful create is taken to store the row as sent, a
    successful patch to clear `is_premium`, and a failed write to change
    nothing. Under that reading the cycle heals itself: a second cycle over the
    same scrape plans exactly the writes that failed, so with no failures it
    plans nothing. */
module StoreModel {
  import opened Wrappers
  import opened Scrape
  import opened Reconciler

  /** The stored row of a successful create whose body was stamped `published`. */
  function CreatedRow(a: Article, published: string): DbRow
  {
    DbRow(a.id, a.isPremium, Some(published))
  }

  /** The store after the first `n` creates, the i-th succeeding when `ok(i)`. */
  function AfterCreates(db: map<string, DbRow>, cs: seq<Article>, ok: nat -> bool, stamp: nat -> string, n: nat): map<string, DbRow>
    requires n <= |cs|
    decreases n
  {
    if n == 0 then db
    else
      var d := AfterCreates(db, cs, ok, stamp, n - 1);
      if ok(n - 1) then d[cs[n - 1].id := CreatedRow(cs[n - 1], stamp(n - 1))] else d
  }

  /** The store after the first `n` patches, the j-th succeeding when `ok(j)`. */
  function AfterPatches(db: map<string, DbRow>, ps: seq<PatchOp>, ok: nat -> bool, n: nat): map<string, DbRow>
    requires n <= |ps|
    decreases n
  {
    if n == 0 then db
    else
      var d := AfterPatches(db, ps, ok, n - 1);
      var k := ps[n - 1].id;
      if ok(n - 1) && k in d then d[k := d[k].(isPremium := false)] else d
  }

  predicate CreatedOk(cs: seq<Article>, ok: nat -> bool, n: nat, k: string)
  {
    exists i :: 0 <= i < n && i < |cs| && ok(i) && cs[i].id == k
  }

  predicate PatchedOk(ps: seq<PatchOp>, ok: nat -> bool, n: nat, k: string)
  {
    exists j :: 0 <= j < n && j < |ps| && ok(j) && ps[j].id == k
  }

  predicate KeyedById(db: map<string, DbRow>)
  {
    forall k :: k in db ==> db[k].id == k
  }

  lemma {:induction false} AfterCreatesFacts(db: map<string, DbRow>, cs: seq<Article>, ok: nat -> bool, stamp: nat -> string, n: nat)
    requires n <= |cs|
    requires KeyedById(db)
    requires Distinct(Ids(cs))
    requires forall i :: 0 <= i < |cs| ==> cs[i].id !in db
    ensures KeyedById(AfterCreates(db, cs, ok, stamp, n))
    ensures forall k :: k in AfterCreates(db, cs, ok, stamp, n) <==> k in db || CreatedOk(cs, ok, n, k)
    ensures forall k :: k in db ==> AfterCreates(db, cs, ok, stamp, n)[k] == db[k]
    ensures forall i :: 0 <= i < n && ok(i) ==> cs[i].id in AfterCreates(db, cs, ok, stamp, n) && AfterCreates(db, cs, ok, stamp, n)[cs[i].id] == CreatedRow(cs[i], stamp(i))
    decreases n
  {
    if n > 0 {
      AfterCreatesFacts(db, cs, ok, stamp, n - 1);
      var d := AfterCreates(db, cs, ok, stamp, n - 1);
      var post := AfterCreates(db, cs, ok, stamp, n);
      assert Ids(cs)[n - 1] == cs[n - 1].id;
      forall i | 0 <= i < n - 1 ensures cs[i].id != cs[n - 1].id {
        assert Ids(cs)[i] == cs[i].id;
      }
      forall k ensures CreatedOk(cs, ok, n, k) <==> CreatedOk(cs, ok, n - 1, k) || (ok(n - 1) && cs[n - 1].id == k) {
        if CreatedOk(cs, ok, n, k) && !(ok(n - 1) && cs[n - 1].id == k) {
          var i :| 0 <= i < n && i < |cs| && ok(i) && cs[i].id == k;
          assert i < n - 1;
        }
      }
    }
  }

  lemma {:induction false} AfterPatchesFacts(db: map<string, DbRow>, ps: seq<PatchOp>, ok: nat -> bool, n: nat)
    requires n <= |ps|
    requires KeyedById(db)
    ensures KeyedById(AfterPatches(db, ps, ok, n))
    ensures AfterPatches(db, ps, ok, n).Keys == db.Keys
    ensures forall k :: k in db && PatchedOk(ps, ok, n, k) ==> AfterPatches(db, ps, ok, n)[k] == db[k].(isPremium := false)
    ensures forall k :: k in db && !PatchedOk(ps, ok, n, k) ==> AfterPatches(db, ps, ok, n)[k] == db[k]
    decreases n
  {
    if n > 0 {
      AfterPatchesFacts(db, ps, ok, n - 1);
      forall k ensures PatchedOk(ps, ok, n, k) <==> PatchedOk(ps, ok, n - 1, k) || (ok(n - 1) && ps[n - 1].id == k) {
        if PatchedOk(ps, ok, n, k) && !(ok(n - 1) && ps[n - 1].id == k) {
          var j :| 0 <= j < n && j < |ps| && ok(j) && ps[j].id == k;
          assert j < n - 1;
        }
      }
    }
  }

  /** The store once all writes of `plan` have been attempted, creates first. */
  function AfterCycle(db: map<string, DbRow>, plan: Plan, createOk: nat -> bool, stamp: nat -> string, patchOk: nat -> bool): map<string, DbRow>
  {
    AfterPatches(AfterCreates(db, plan.creates, createOk, stamp, |plan.creates|), plan.patches, patchOk, |plan.patches|)
  }

  /** What the store holds after the writes of the plan computed against it. */
  lemma AfterCycleFacts(db: map<string, DbRow>, scraped: seq<Article>, now: int,
                        fromIso: string -> Option<int>, createOk: nat -> bool, stamp: nat -> string, patchOk: nat -> bool)
    requires KeyedById(db)
    ensures
      var ix := IndexScraped(scraped);
      var plan := ReconcileWith(db, scraped, now, fromIso);
      var post := AfterCycle(db, plan, createOk, stamp, patchOk);
      && KeyedById(post)
      && (forall k :: k in post <==> k in db || CreatedOk(plan.creates, createOk, |plan.creates|, k))
      && (forall k :: k in db && !PatchedOk(plan.patches, patchOk, |plan.patches|, k) ==> k in post && post[k] == db[k])
      && (forall k :: k in db && PatchedOk(plan.patches, patchOk, |plan.patches|, k) ==> k in post && post[k] == db[k].(isPremium := false))
      && (forall k :: k in post && k !in db ==> k in ix.rows && post[k].isPremium == ix.rows[k].isPremium)
      && (forall i :: 0 <= i < |plan.creates| && createOk(i) ==> plan.creates[i].id in post && post[plan.creates[i].id] == CreatedRow(plan.creates[i], stamp(i)))
  {
    var ix := IndexScraped(scraped);
    var plan := ReconcileWith(db, scraped, now, fromIso);
    var cs, ps := plan.creates, plan.patches;
    CreatesForFacts(ix.order, ix.rows, db);
    PatchesForFacts(ix.order, ix.rows, db, now, fromIso);
    forall i | 0 <= i < |cs| ensures cs[i].id !in db && cs[i].id in ix.rows && cs[i] == ix.rows[cs[i].id] {
      assert Ids(cs)[i] == cs[i].id;
      assert cs[i] in cs;
    }
    var post1 := AfterCreates(db, cs, createOk, stamp, |cs|);
    AfterCreatesFacts(db, cs, createOk, stamp, |cs|);
    AfterPatchesFacts(post1, ps, patchOk, |ps|);
    forall j | 0 <= j < |ps| ensures ps[j].id in db {
      assert ps[j] in ps;
    }
    var post := AfterCycle(db, plan, createOk, stamp, patchOk);
    forall k | k in post && k !in db ensures k in ix.rows && post[k].isPremium == ix.rows[k].isPremium {
      var i :| 0 <= i < |cs| && i < |cs| && createOk(i) && cs[i].id == k;
      assert !PatchedOk(ps, patchOk, |ps|, k);
    }
    forall i | 0 <= i < |cs| && createOk(i) ensures cs[i].id in post && post[cs[i].id] == CreatedRow(cs[i], stamp(i)) {
      assert !PatchedOk(ps, patchOk, |ps|, cs[i].id);
    }
  }

  /** With distinct ids, an id is a failed write exactly when its one position failed. */
  lemma CreateSlotFate(cs: seq<Article>, ok: nat -> bool, k: string)
    requires Distinct(Ids(cs))
    ensures (k in Ids(cs) && !CreatedOk(cs, ok, |cs|, k)) <==> exists i :: 0 <= i < |cs| && cs[i].id == k && !ok(i)
  {
    if k in Ids(cs) {
      var i :| 0 <= i < |cs| && Ids(cs)[i] == k;
      if CreatedOk(cs, ok, |cs|, k) {
        var i' :| 0 <= i' < |cs| && i' < |cs| && ok(i') && cs[i'].id == k;
        assert Ids(cs)[i'] == k;
      }
    }
    if exists i :: 0 <= i < |cs| && cs[i].id == k && !ok(i) {
      var i :| 0 <= i < |cs| && cs[i].id == k && !ok(i);
      assert Ids(cs)[i] == k;
    }
  }

  lemma PatchSlotFate(ps: seq<PatchOp>, ok: nat -> bool, k: string)
    requires Distinct(PatchIds(ps))
    ensures (k in PatchIds(ps) && !PatchedOk(ps, ok, |ps|, k)) <==> exists j :: 0 <= j < |ps| && ps[j].id == k && !ok(j)
  {
    if k in PatchIds(ps) {
      var j :| 0 <= j < |ps| && PatchIds(ps)[j] == k;
      if PatchedOk(ps, ok, |ps|, k) {
        var j' :| 0 <= j' < |ps| && j' < |ps| && ok(j') && ps[j'].id == k;
        assert PatchIds(ps)[j'] == k;
      }
    }
    if exists j :: 0 <= j < |ps| && ps[j].id == k && !ok(j) {
      var j :| 0 <= j < |ps| && ps[j].id == k && !ok(j);
      assert PatchIds(ps)[j] == k;
    }
  }

  /** One id at a time: planned again as a create exactly when its create failed. */
  lemma CreateAfterWritesAt(db: map<string, DbRow>, scraped: seq<Article>, now: int, later: int,
                            fromIso: string -> Option<int>, createOk: nat -> bool, stamp: nat -> string, patchOk: nat -> bool, k: string)
    requires KeyedById(db)
    ensures
      var plan := ReconcileWith(db, scraped, now, fromIso);
      var next := ReconcileWith(AfterCycle(db, plan, createOk, stamp, patchOk), scraped, later, fromIso);
      k in Ids(next.creates) <==> exists i :: 0 <= i < |plan.creates| && plan.creates[i].id == k && !createOk(i)
  {
    var ix := IndexScraped(scraped);
    var plan := ReconcileWith(db, scraped, now, fromIso);
    var post := AfterCycle(db, plan, createOk, stamp, patchOk);
    AfterCycleFacts(db, scraped, now, fromIso, createOk, stamp, patchOk);
    CreatesForFacts(ix.order, ix.rows, db);
    CreatesForFacts(ix.order, ix.rows, post);
    CreateSlotFate(plan.creates, createOk, k);
  }

  /** One id at a time: planned again as a patch exactly when its patch failed. */
  lemma PatchAfterWritesAt(db: map<string, DbRow>, scraped: seq<Article>, now: int, later: int,
                           fromIso: string -> Option<int>, createOk: nat -> bool, stamp: nat -> string, patchOk: nat -> bool, k: string)
    requires KeyedById(db)
    ensures
      var plan := ReconcileWith(db, scraped, now, fromIso);
      var next := ReconcileWith(AfterCycle(db, plan, createOk, stamp, patchOk), scraped, later, fromIso);
      k in PatchIds(next.patches) <==> exists j :: 0 <= j < |plan.patches| && plan.patches[j].id == k && !patchOk(j)
  {
    var ix := IndexScraped(scraped);
    var plan := ReconcileWith(db, scraped, now, fromIso);
    var post := AfterCycle(db, plan, createOk, stamp, patchOk);
    AfterCycleFacts(db, scraped, now, fromIso, createOk, stamp, patchOk);
    PatchesForFacts(ix.order, ix.rows, db, now, fromIso);
    PatchesForFacts(ix.order, ix.rows, post, later, fromIso);
    PatchSlotFate(plan.patches, patchOk, k);
    if k in db && !PatchedOk(plan.patches, patchOk, |plan.patches|, k) {
      assert post[k] == db[k];
    }
  }

  /** After one cycle's writes, the same scrape plans a create exactly for the
      creates that failed. */
  lemma CreatesAfterWrites(db: map<string, DbRow>, scraped: seq<Article>, now: int, later: int,
                           fromIso: string -> Option<int>, createOk: nat -> bool, stamp: nat -> string, patchOk: nat -> bool)
    requires KeyedById(db)
    ensures
      var plan := ReconcileWith(db, scraped, now, fromIso);
      var next := ReconcileWith(AfterCycle(db, plan, createOk, stamp, patchOk), scraped, later, fromIso);
      forall k :: k in Ids(next.creates) <==> exists i :: 0 <= i < |plan.creates| && plan.creates[i].id == k && !createOk(i)
  {
    forall k {
      CreateAfterWritesAt(db, scraped, now, later, fromIso, createOk, stamp, patchOk, k);
    }
  }

  /** After one cycle's writes, the same scrape plans a patch exactly for the
      patches that failed. */
  lemma PatchesAfterWrites(db: map<string, DbRow>, scraped: seq<Article>, now: int, later: int,
                           fromIso: string -> Option<int>, createOk: nat -> bool, stamp: nat -> string, patchOk: nat -> bool)
    requires KeyedById(db)
    ensures
      var plan := ReconcileWith(db, scraped, now, fromIso);
      var next := ReconcileWith(AfterCycle(db, plan, createOk, stamp, patchOk), scraped, later, fromIso);
      forall k :: k in PatchIds(next.patches) <==> exists j :: 0 <= j < |plan.patches| && plan.patches[j].id == k && !patchOk(j)
  {
    forall k {
      PatchAfterWritesAt(db, scraped, now, later, fromIso, createOk, stamp, patchOk, k);
    }
  }

  /** A plan list that holds no id is empty. */
  lemma NoIdsNoCreates(cs: seq<Article>)
    ensures (forall k :: k !in Ids(cs)) ==> cs == []
  {
    if cs != [] {
      assert Ids(cs)[0] == cs[0].id && Ids(cs)[0] in Ids(cs);
    }
  }

  lemma NoIdsNoPatches(ps: seq<PatchOp>)
    ensures (forall k :: k !in PatchIds(ps)) ==> ps == []
  {
    if ps != [] {
      assert PatchIds(ps)[0] == ps[0].id && PatchIds(ps)[0] in PatchIds(ps);
    }
  }

  /** Idempotence: once every write of a cycle has succeeded, rerunning the
      reconciliation over the same scrape plans no writes at all. */
  lemma ReconcileIdempotent(db: map<string, DbRow>, scraped: seq<Article>, now: int, later: int,
                            fromIso: string -> Option<int>, createOk: nat -> bool, stamp: nat -> string, patchOk: nat -> bool)
    requires KeyedById(db)
    requires forall i :: createOk(i) && patchOk(i)
    ensures
      var plan := ReconcileWith(db, scraped, now, fromIso);
      ReconcileWith(AfterCycle(db, plan, createOk, stamp, patchOk), scraped, later, fromIso) == Plan([], [])
  {
    CreatesAfterWrites(db, scraped, now, later, fromIso, createOk, stamp, patchOk);
    PatchesAfterWrites(db, scraped, now, later, fromIso, createOk, stamp, patchOk);
    var plan := ReconcileWith(db, scraped, now, fromIso);
    var next := ReconcileWith(AfterCycle(db, plan, createOk, stamp, patchOk), scraped, later, fromIso);
    NoIdsNoCreates(next.creates);
    NoIdsNoPatches(next.patches);
  }
}
