/** The request bodies bildwatch_sehbmaster.py sends to the article store:
    `create_article_in_sehbmaster`, `patch_article_in_sehbmaster` with its
    None-dropping cleaner, and the metrics body of `post_metrics`. The HTTP
    transport (`_req`) is not modelled. */
module Payloads {
  import opened Wrappers
  import opened Scrape

  /** A JSON value as the request bodies use them. */
  datatype Json = JNull | JBool(b: bool) | JStr(s: string) | JNum(x: real)

  /** A Python dict literal of a request body, in insertion order. */
  type Fields = seq<(string, Json)>

  /** The body POSTed for a new article. */
  datatype ArticlePayload = ArticlePayload(
    id: string, title: string, url: string, category: Option<string>,
    isPremium: bool, converted: bool, published: string,
    convertedTime: Option<string>, convertedDurationHours: Option<real>)

  /** `create_article_in_sehbmaster`: `published` is the `iso_now_utc()` reading
      taken while building this very body, not the start of the cycle. */
  function CreatePayload(a: Article, publishedNow: string): (p: ArticlePayload)
    ensures p.id == a.id && p.title == a.title && p.url == a.url
    ensures p.category == a.category && p.isPremium == a.isPremium
    ensures !p.converted && p.published == publishedNow
    ensures p.convertedTime.None? && p.convertedDurationHours.None?
  {
    ArticlePayload(a.id, a.title, a.url, a.category, a.isPremium, false, publishedNow, None, None)
  }

  predicate HasKey(fs: Fields, k: string)
  {
    exists i :: 0 <= i < |fs| && fs[i].0 == k
  }

  /** Keys the cleaner keeps even with a None value. */
  predicate Protected(k: string)
  {
    k == "converted" || k == "is_premium"
  }

  predicate Survives(kv: (string, Json))
  {
    kv.1 != JNull || Protected(kv.0)
  }

  /** The dict comprehension of line 111: entries whose value is None are
      dropped unless the key is "converted" or "is_premium"; order is kept. */
  function Clean(updates: Fields): (r: Fields)
    ensures |r| <= |updates|
    ensures forall kv :: kv in r <==> kv in updates && Survives(kv)
    decreases |updates|
  {
    if updates == [] then []
    else
      var rest := Clean(updates[1..]);
      assert forall kv :: kv in updates <==> kv == updates[0] || kv in updates[1..];
      if Survives(updates[0]) then [updates[0]] + rest else rest
  }

  /** The update dict built at lines 213-218 for one conversion. */
  function PatchUpdates(convertedNow: string, hours: Option<real>): Fields
  {
    [("is_premium", JBool(false)),
     ("converted", JBool(true)),
     ("converted_time", JStr(convertedNow)),
     ("converted_duration_hours", if hours.Some? then JNum(hours.value) else JNull)]
  }

  /** The PATCH body always un-premiums and converts, always carries the
      conversion time, and carries the duration exactly when there is one. */
  lemma PatchBodyShape(convertedNow: string, hours: Option<real>)
    ensures ("is_premium", JBool(false)) in Clean(PatchUpdates(convertedNow, hours))
    ensures ("converted", JBool(true)) in Clean(PatchUpdates(convertedNow, hours))
    ensures ("converted_time", JStr(convertedNow)) in Clean(PatchUpdates(convertedNow, hours))
    ensures HasKey(Clean(PatchUpdates(convertedNow, hours)), "converted_duration_hours") <==> hours.Some?
    ensures hours.Some? ==> ("converted_duration_hours", JNum(hours.value)) in Clean(PatchUpdates(convertedNow, hours))
    ensures |Clean(PatchUpdates(convertedNow, hours))| == if hours.Some? then 4 else 3
  {
    var u := PatchUpdates(convertedNow, hours);
    var c := Clean(u);
    assert u[0] in u && u[1] in u && u[2] in u && u[3] in u;
    assert Survives(u[0]) && Survives(u[1]) && Survives(u[2]);
    if hours.Some? {
      assert u[3] in c;
    } else {
      forall i | 0 <= i < |c| ensures c[i].0 != "converted_duration_hours" {
        assert c[i] in c;
      }
    }
    assert u[1..][1..] == u[2..] && u[2..][1..] == u[3..] && u[3..][1..] == [];
    assert Clean(u[3..]) == if hours.Some? then [u[3]] else [];
    assert Clean(u[2..]) == [u[2]] + Clean(u[3..]);
    assert Clean(u[1..]) == [u[1]] + Clean(u[2..]);
    assert c == [u[0]] + Clean(u[1..]);
  }

  /** `snapshot_premium / snapshot_total * 100` guarded by `if snapshot_total`;
      exact here, where Python rounds the float to two decimals. */
  function Pct(premium: nat, total: nat): (pct: real)
    ensures total == 0 ==> pct == 0.0
    ensures total > 0 ==> pct * total as real == 100.0 * premium as real
    ensures premium <= total ==> 0.0 <= pct <= 100.0
  {
    if total == 0 then 0.0 else premium as real / total as real * 100.0
  }

  /** The body of `post_metrics`. */
  datatype MetricsPayload = MetricsPayload(
    tsHour: int, snapshotTotal: nat, snapshotPremium: nat, snapshotPremiumPct: real,
    newCount: nat, newPremiumCount: nat)
}
