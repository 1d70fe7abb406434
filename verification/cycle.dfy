/** The imperative half of `sync_bildwatch` (bildwatch_sehbmaster.py): the
    create and patch loops with their success counters, the metrics record,
    the minutes text of the final status message and the outcome of one
    cycle. Every remote call is an oracle: `createOk(i)` / `patchOk(j)` says
    whether the i-th create / j-th patch request succeeds, and
    `createStamp(i)` / `patchStamp(j)` is the `iso_now_utc()` reading taken
    while building that request's body. */
module Cycle {
  import opened Wrappers
  import opened Strings
  import opened Timestamps
  import opened Scrape
  import opened Payloads
  import opened Reconciler

  /** How many of the first `n` writes succeed. */
  function Successes(ok: nat -> bool, n: nat): nat
    decreases n
  {
    if n == 0 then 0 else Successes(ok, n - 1) + (if ok(n - 1) then 1 else 0)
  }

  /** How many of the first `n` creates succeed for a premium article. */
  function PremiumSuccesses(cs: seq<Article>, ok: nat -> bool, n: nat): nat
    requires n <= |cs|
    decreases n
  {
    if n == 0 then 0 else PremiumSuccesses(cs, ok, n - 1) + (if ok(n - 1) && cs[n - 1].isPremium then 1 else 0)
  }

  /** `sum(1 for a in s if a.get("isPremium"))`. */
  function CountPremium(s: seq<Article>): (n: nat)
    ensures n <= |s|
    decreases |s|
  {
    if s == [] then 0 else CountPremium(s[..|s| - 1]) + (if s[|s| - 1].isPremium then 1 else 0)
  }

  /** `created_premium <= created <= len(creates)`, and every write counts
      exactly when every write succeeds. */
  lemma {:induction false} SuccessBounds(cs: seq<Article>, ok: nat -> bool, n: nat)
    requires n <= |cs|
    ensures PremiumSuccesses(cs, ok, n) <= Successes(ok, n) <= n
    ensures Successes(ok, n) == n <==> forall i :: 0 <= i < n ==> ok(i)
    decreases n
  {
    if n > 0 {
      SuccessBounds(cs, ok, n - 1);
    }
  }

  /** With no failed write, `created_premium` counts the premium creates. */
  lemma {:induction false} AllSucceedPremium(cs: seq<Article>, ok: nat -> bool, n: nat)
    requires n <= |cs|
    requires forall i :: 0 <= i < n ==> ok(i)
    ensures PremiumSuccesses(cs, ok, n) == CountPremium(cs[..n])
    decreases n
  {
    if n > 0 {
      AllSucceedPremium(cs, ok, n - 1);
      assert cs[..n][..n - 1] == cs[..n - 1];
    }
  }

  /** No premium row counts zero and all premium rows count all of them. */
  lemma {:induction false} CountPremiumExtremes(s: seq<Article>)
    ensures CountPremium(s) == 0 <==> forall i :: 0 <= i < |s| ==> !s[i].isPremium
    ensures CountPremium(s) == |s| <==> forall i :: 0 <= i < |s| ==> s[i].isPremium
    decreases |s|
  {
    if s != [] {
      var front := s[..|s| - 1];
      CountPremiumExtremes(front);
      assert forall i :: 0 <= i < |front| ==> front[i] == s[i];
    }
  }

  /** Loop 188-197: one POST per create, in order; a failure is logged and the
      loop goes on, and only successful requests are counted. */
  method ApplyCreates(creates: seq<Article>, ok: nat -> bool, stamp: nat -> string)
    returns (created: nat, createdPremium: nat, sent: seq<ArticlePayload>)
    ensures created == Successes(ok, |creates|)
    ensures createdPremium == PremiumSuccesses(creates, ok, |creates|)
    ensures createdPremium <= created <= |creates|
    ensures |sent| == |creates|
    ensures forall i :: 0 <= i < |creates| ==> sent[i] == CreatePayload(creates[i], stamp(i))
  {
    created, createdPremium, sent := 0, 0, [];
    var i := 0;
    while i < |creates|
      invariant 0 <= i <= |creates|
      invariant created == Successes(ok, i)
      invariant createdPremium == PremiumSuccesses(creates, ok, i)
      invariant |sent| == i
      invariant forall j :: 0 <= j < i ==> sent[j] == CreatePayload(creates[j], stamp(j))
    {
      sent := sent + [CreatePayload(creates[i], stamp(i))];
      if ok(i) {
        created := created + 1;
        if creates[i].isPremium {
          createdPremium := createdPremium + 1;
        }
      }
      i := i + 1;
    }
    SuccessBounds(creates, ok, |creates|);
  }

  /** The request of `patch_article_in_sehbmaster` for one conversion: the id
      and the cleaned update dict, stamped with its own `iso_now_utc()` reading. */
  function PatchBody(p: PatchOp, convertedNow: string): (string, Fields)
  {
    (p.id, Clean(PatchUpdates(convertedNow, p.hours)))
  }

  /** Line 209 raises TypeError for a conversion whose stored `published`
      parses to a naive datetime: `hours_between` subtracts it from the aware
      `now`, outside the `try` of line 210. */
  predicate PatchRaises(p: PatchOp, db: map<string, DbRow>, fromIso: string -> Option<int>, hasOffset: string -> bool)
  {
    p.id in db && ParsesNaive(db[p.id].published, fromIso, hasOffset)
  }

  /** How many conversions the patch loop gets through: the position of the
      first one that raises, or all of them. */
  function PatchesReached(patches: seq<PatchOp>, db: map<string, DbRow>, fromIso: string -> Option<int>,
                          hasOffset: string -> bool): (n: nat)
    ensures n <= |patches|
    ensures n < |patches| ==> PatchRaises(patches[n], db, fromIso, hasOffset)
    ensures forall j :: 0 <= j < n ==> !PatchRaises(patches[j], db, fromIso, hasOffset)
    decreases |patches|
  {
    if patches == [] then 0
    else if PatchRaises(patches[0], db, fromIso, hasOffset) then 0
    else
      var tl := patches[1..];
      assert forall j :: 1 <= j < |patches| ==> patches[j] == tl[j - 1];
      1 + PatchesReached(tl, db, fromIso, hasOffset)
  }

  /** The patch loop stops early exactly when some conversion raises. */
  lemma PatchesReachedAll(patches: seq<PatchOp>, db: map<string, DbRow>, fromIso: string -> Option<int>,
                          hasOffset: string -> bool)
    ensures PatchesReached(patches, db, fromIso, hasOffset) < |patches| <==>
              exists j :: 0 <= j < |patches| && PatchRaises(patches[j], db, fromIso, hasOffset)
  {
  }

  /** Loop 201-223: one PATCH per conversion, in order, with the cleaned body;
      a failed request is logged and the loop goes on, and only successes are
      counted. A conversion whose duration raises ends the loop (`aborted`)
      before its request. */
  method ApplyPatches(patches: seq<PatchOp>, ok: nat -> bool, stamp: nat -> string,
                      db: map<string, DbRow>, fromIso: string -> Option<int>, hasOffset: string -> bool)
    returns (patched: nat, sent: seq<(string, Fields)>, aborted: bool)
    ensures aborted <==> PatchesReached(patches, db, fromIso, hasOffset) < |patches|
    ensures |sent| == PatchesReached(patches, db, fromIso, hasOffset)
    ensures patched == Successes(ok, |sent|) <= |sent|
    ensures forall j :: 0 <= j < |sent| ==> sent[j] == PatchBody(patches[j], stamp(j))
  {
    patched, sent, aborted := 0, [], false;
    var reached := PatchesReached(patches, db, fromIso, hasOffset);
    var j := 0;
    while j < |patches|
      invariant 0 <= j <= reached
      invariant patched == Successes(ok, j) <= j
      invariant |sent| == j
      invariant forall i :: 0 <= i < j ==> sent[i] == PatchBody(patches[i], stamp(i))
    {
      if PatchRaises(patches[j], db, fromIso, hasOffset) {
        aborted := true;
        return;
      }
      sent := sent + [PatchBody(patches[j], stamp(j))];
      if ok(j) {
        patched := patched + 1;
      }
      j := j + 1;
    }
  }

  /** Lines 226-236 with `post_metrics`: the snapshot counts the scraped list as
      returned (duplicates included), the hour is `now` of line 200 truncated,
      and the new counts are the successful creates. */
  function MetricsFor(scraped: seq<Article>, now: int, created: nat, createdPremium: nat): (m: MetricsPayload)
    ensures m.snapshotTotal == |scraped| && m.snapshotPremium == CountPremium(scraped)
    ensures m.snapshotPremium <= m.snapshotTotal
    ensures m.tsHour % SecondsPerHour == 0 && m.tsHour <= now < m.tsHour + SecondsPerHour
    ensures m.snapshotTotal == 0 ==> m.snapshotPremiumPct == 0.0
    ensures m.snapshotTotal > 0 ==> m.snapshotPremiumPct * m.snapshotTotal as real == 100.0 * m.snapshotPremium as real
    ensures 0.0 <= m.snapshotPremiumPct <= 100.0
    ensures m.newCount == created && m.newPremiumCount == createdPremium
  {
    var premium := CountPremium(scraped);
    MetricsPayload(HourStart(now), |scraped|, premium, Pct(premium, |scraped|), created, createdPremium)
  }

  /** `round(d / 60.0, 2)` in hundredths of a minute for `d` whole seconds:
      the nearest whole number to 5d/3, which is never half-way between two. */
  function Hundredths(d: nat): (h: nat)
    ensures 5 * d - 1 <= 3 * h <= 5 * d + 1
  {
    (5 * d + 1) / 3
  }

  /** `f"{h / 100:.2f}"`: the whole minutes, a dot and exactly two decimals. */
  function Format2(h: nat): string
  {
    NatToString(h / 100) + "." + [DigitChar(h % 100 / 10), DigitChar(h % 10)]
  }

  /** Line 253: `f"{mins:.2f}".rstrip("0").rstrip(".")`. */
  function MinutesText(d: nat): string
  {
    RStrip(RStrip(Format2(Hundredths(d)), '0'), '.')
  }

  lemma DigitCharZero(n: nat)
    requires n < 10
    ensures DigitChar(n) == '0' <==> n == 0
  {
  }

  /** Two zero decimals: the dot goes too and the whole minutes remain. */
  lemma MinutesTextNoDecimals(d: nat)
    requires Hundredths(d) % 100 == 0
    ensures MinutesText(d) == NatToString(Hundredths(d) / 100)
  {
    var h := Hundredths(d);
    var w := NatToString(h / 100);
    assert IsDigit(w[|w| - 1]);
    DigitCharZero(h % 100 / 10);
    DigitCharZero(h % 10);
    assert Format2(h) == (w + ".") + "00";
    RStripTail(w + ".", "00", '0');
    RStripTail(w, ".", '.');
  }

  /** A zero second decimal only: that zero goes. */
  lemma MinutesTextOneDecimal(d: nat)
    requires Hundredths(d) % 100 != 0 && Hundredths(d) % 10 == 0
    ensures MinutesText(d) == NatToString(Hundredths(d) / 100) + "." + [DigitChar(Hundredths(d) % 100 / 10)]
  {
    var h := Hundredths(d);
    var w := NatToString(h / 100);
    var hi := DigitChar(h % 100 / 10);
    DigitCharZero(h % 100 / 10);
    DigitCharZero(h % 10);
    assert Format2(h) == (w + "." + [hi]) + "0";
    RStripTail(w + "." + [hi], "0", '0');
    RStripTail(w + "." + [hi], "", '.');
    assert w + "." + [hi] + "" == w + "." + [hi];
  }

  /** A non-zero second decimal: nothing goes. */
  lemma MinutesTextTwoDecimals(d: nat)
    requires Hundredths(d) % 10 != 0
    ensures MinutesText(d) == NatToString(Hundredths(d) / 100) + "." + [DigitChar(Hundredths(d) % 100 / 10), DigitChar(Hundredths(d) % 10)]
  {
    var h := Hundredths(d);
    var s := NatToString(h / 100) + "." + [DigitChar(h % 100 / 10), DigitChar(h % 10)];
    DigitCharZero(h % 10);
    assert Format2(h) == s;
    RStripTail(s, "", '0');
    RStripTail(s, "", '.');
    assert s + "" == s;
  }

  /** The minutes text drops trailing zero decimals and then a bare dot, and
      never touches the whole minutes. */
  lemma MinutesTextShape(d: nat)
    ensures Hundredths(d) % 100 == 0 ==> MinutesText(d) == NatToString(Hundredths(d) / 100)
    ensures Hundredths(d) % 100 != 0 && Hundredths(d) % 10 == 0 ==>
      MinutesText(d) == NatToString(Hundredths(d) / 100) + "." + [DigitChar(Hundredths(d) % 100 / 10)]
    ensures Hundredths(d) % 10 != 0 ==>
      MinutesText(d) == NatToString(Hundredths(d) / 100) + "." + [DigitChar(Hundredths(d) % 100 / 10), DigitChar(Hundredths(d) % 10)]
  {
    var h := Hundredths(d);
    if h % 100 == 0 {
      MinutesTextNoDecimals(d);
    } else if h % 10 == 0 {
      MinutesTextOneDecimal(d);
    } else {
      MinutesTextTwoDecimals(d);
    }
  }

  /** The first rendering the source comments on: 6 s is 0.10 min, shown as "0.1". */
  lemma MinutesTextTenth()
    ensures MinutesText(6) == "0.1"
  {
    var h := Hundredths(6);
    assert h == 10;
    assert h % 100 == 10 && h % 10 == 0 && h / 100 == 0 && h % 100 / 10 == 1;
    MinutesTextShape(6);
    assert NatToString(0) == "0" && DigitChar(1) == '1';
  }

  /** The second one: 120 s is 2.00 min, shown as "2". */
  lemma MinutesTextWhole()
    ensures MinutesText(120) == "2"
  {
    var h := Hundredths(120);
    assert h == 200;
    assert h % 100 == 0 && h / 100 == 2;
    MinutesTextShape(120);
    assert NatToString(2) == "2";
  }

  /** What one call of `sync_bildwatch` did. `Finished` ends with the "idle"
      status message. `Failed` (a fetch raised) and `Aborted` (a duration
      raised in the patch loop, after the creates and the patches before it)
      end with the "error" one. All carry the minutes text. */
  datatype Report =
    | Finished(created: nat, createdPremium: nat, patched: nat,
               createBodies: seq<ArticlePayload>, patchBodies: seq<(string, Fields)>,
               metrics: MetricsPayload, minutes: string)
    | Aborted(created: nat, createdPremium: nat, patched: nat,
              createBodies: seq<ArticlePayload>, patchBodies: seq<(string, Fields)>,
              minutes: string)
    | Failed(minutes: string)

  /** Whether the patch loop of a cycle over these rows and this scrape raises. */
  predicate CycleAborts(dbRows: seq<DbRow>, scraped: seq<Article>, now: int,
                        fromIso: string -> Option<int>, hasOffset: string -> bool)
  {
    var patches := Reconcile(dbRows, scraped, now, fromIso).patches;
    PatchesReached(patches, IndexDb(dbRows), fromIso, hasOffset) < |patches|
  }

  /** The patch loop raises only for a stored `published` that parses naive:
      with every stored value aware (or missing, or unparseable), it never does. */
  lemma AwareNeverAborts(dbRows: seq<DbRow>, scraped: seq<Article>, now: int,
                         fromIso: string -> Option<int>, hasOffset: string -> bool)
    requires forall i :: 0 <= i < |dbRows| ==> !ParsesNaive(dbRows[i].published, fromIso, hasOffset)
    ensures !CycleAborts(dbRows, scraped, now, fromIso, hasOffset)
  {
    var patches := Reconcile(dbRows, scraped, now, fromIso).patches;
    var db := IndexDb(dbRows);
    IndexDbLast(dbRows);
    PatchesReachedAll(patches, db, fromIso, hasOffset);
    forall j | 0 <= j < |patches| ensures !PatchRaises(patches[j], db, fromIso, hasOffset) {
      if patches[j].id in db {
        var i :| LastRowAt(dbRows, i, patches[j].id) && dbRows[i] == db[patches[j].id];
      }
    }
  }

  /** `sync_bildwatch`. `dbFetch` / `page` are None where fetching the stored rows
      / the home page raises; `now` is the reading of line 200 and `elapsed` the
      whole seconds between `start_ts` and `end_ts`. */
  method SyncBildwatch(dbFetch: Option<seq<DbRow>>, page: Option<PageContext>,
                       createOk: nat -> bool, createStamp: nat -> string, now: int,
                       patchOk: nat -> bool, patchStamp: nat -> string,
                       elapsed: nat, fromIso: string -> Option<int>, hasOffset: string -> bool)
    returns (r: Report)
    ensures r.Failed? <==> dbFetch.None? || page.None?
    ensures r.Aborted? <==> dbFetch.Some? && page.Some? && CycleAborts(dbFetch.value, ScrapedList(page.value), now, fromIso, hasOffset)
    ensures r.minutes == MinutesText(elapsed)
    ensures !r.Failed? ==>
      var scraped := ScrapedList(page.value);
      var plan := Reconcile(dbFetch.value, scraped, now, fromIso);
      var reached := PatchesReached(plan.patches, IndexDb(dbFetch.value), fromIso, hasOffset);
      && |r.createBodies| == |plan.creates|
      && (forall i :: 0 <= i < |plan.creates| ==> r.createBodies[i] == CreatePayload(plan.creates[i], createStamp(i)))
      && r.created == Successes(createOk, |plan.creates|)
      && r.createdPremium == PremiumSuccesses(plan.creates, createOk, |plan.creates|)
      && r.createdPremium <= r.created <= |plan.creates|
      && |r.patchBodies| == reached
      && (forall j :: 0 <= j < reached ==>
            r.patchBodies[j] == PatchBody(plan.patches[j], patchStamp(j)))
      && r.patched == Successes(patchOk, reached) <= reached
    ensures r.Finished? ==>
      r.metrics == MetricsFor(ScrapedList(page.value), now, r.created, r.createdPremium)
  {
    var minutes := MinutesText(elapsed);
    if dbFetch.None? {
      return Failed(minutes);
    }
    var db := IndexDb(dbFetch.value);
    if page.None? {
      return Failed(minutes);
    }
    var scraped := GetAllArticlesFromBild(page.value);
    var plan := ReconcileWith(db, scraped, now, fromIso);
    var created, createdPremium, createBodies := ApplyCreates(plan.creates, createOk, createStamp);
    var patched, patchBodies, aborted := ApplyPatches(plan.patches, patchOk, patchStamp, db, fromIso, hasOffset);
    if aborted {
      return Aborted(created, createdPremium, patched, createBodies, patchBodies, minutes);
    }
    var metrics := MetricsFor(scraped, now, created, createdPremium);
    r := Finished(created, createdPremium, patched, createBodies, patchBodies, metrics, minutes);
  }

  /** A fresh store and two scraped articles, one premium: both are created,
      nothing is patched, and the snapshot counts two with one premium. */
  lemma ScenarioFreshStore(a1: Article, a2: Article, now: int, fromIso: string -> Option<int>, ok: nat -> bool)
    requires a1.id == "a1" && a1.isPremium && a2.id == "a2" && !a2.isPremium
    requires forall i :: ok(i)
    ensures Reconcile([], [a1, a2], now, fromIso) == Plan([a1, a2], [])
    ensures Successes(ok, 2) == 2
    ensures PremiumSuccesses([a1, a2], ok, 2) == 1
    ensures CountPremium([a1, a2]) == 1
  {
    var s := [a1, a2];
    assert s[..1] == [a1] && [a1][..0] == [];
    assert IndexScraped([a1]) == Put(ScrapedIndex([], map[]), a1) == ScrapedIndex(["a1"], map["a1" := a1]);
    var rows := map["a1" := a1, "a2" := a2];
    assert IndexScraped(s) == Put(IndexScraped([a1]), a2) == ScrapedIndex(["a1", "a2"], rows);
    var db: map<string, DbRow> := map[];
    assert IndexDb([]) == db;
    var order := ["a1", "a2"];
    assert order[1..] == ["a2"] && order[1..][1..] == [];
    assert CreatesFor(["a2"], rows, db) == [a2] + CreatesFor([], rows, db) == [a2];
    assert CreatesFor(order, rows, db) == [a1] + CreatesFor(["a2"], rows, db) == [a1, a2];
    assert PatchesFor(["a2"], rows, db, now, fromIso) == PatchesFor([], rows, db, now, fromIso) == [];
    assert PatchesFor(order, rows, db, now, fromIso) == PatchesFor(["a2"], rows, db, now, fromIso);
    assert CountPremium(s) == CountPremium([a1]) + 0;
  }

  /** A premium stored article scraped free two hours after its `published`
      is patched with a duration of 2.0 hours, and nothing is created. */
  lemma ScenarioTransition(a1: Article, t0: int, published: string, fromIso: string -> Option<int>)
    requires a1.id == "a1" && !a1.isPremium
    requires ParseIsoDt(Some(published), fromIso) == Some(t0)
    ensures Reconcile([DbRow("a1", true, Some(published))], [a1], t0 + 7200, fromIso) == Plan([], [PatchOp("a1", Some(2.0))])
  {
    var row := DbRow("a1", true, Some(published));
    assert [row][..0] == [] && [a1][..0] == [];
    assert IndexDb([row]) == map["a1" := row];
    assert IndexScraped([a1]) == ScrapedIndex(["a1"], map["a1" := a1]);
    assert ConversionHours(row, t0 + 7200, fromIso) == Some(2.0);
  }
}
