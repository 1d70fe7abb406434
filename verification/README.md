# bildwatch in Dafny

A model of the two watchers in the bildwatch repository. Both follow which articles on the BILD home page are behind the "BILD+" paywall, and when a premium article turns free.

- `bildwatch_sehbmaster.py` runs one cycle of `sync_bildwatch`. It fetches the stored article rows and scrapes the home page. It then decides which articles to create and which stored premium articles to patch to "converted". It performs those writes one at a time: a failed write is logged and the cycle goes on. Finally it posts an hourly metrics record and reports "idle". It reports "error" when a fetch failed, or when a stored `published` without a UTC offset makes the duration of a conversion raise.
- `bildscraper.py` is the older stand-alone version of the same idea. A dict `articles` of premium articles is filled from each scrape and updated in place when an article turns free. The elapsed time is kept as an `"H, M"` text.

Time is whole seconds. Every call into the outside world is a parameter of the model:
- `datetime.fromisoformat` is an oracle `fromIso`. A second oracle `hasOffset` says which texts it reads as aware datetimes, with a UTC offset.
- Each `iso_now_utc()` / `datetime.now()` reading is a stamp or clock function indexed by position.
- Each remote write is a success oracle `ok(i)`.
- A page download is a `fetch` oracle.

Module layout:
- `Strings`: the Python `str` operations used.
- `Timestamps`: `parse_iso_dt`, `hours_between` and hour truncation.
- `Scrape`: the scraping logic of `get_all_articles_from_bild`.
- `Payloads`: the request bodies and the None-dropping cleaner.
- `Reconciler`: the pure create/patch decision.
- `Cycle`: the write loops, metrics, minutes text and the outcome of a cycle.
- `StoreModel`: what an idealised store holds after the writes, and the idempotence of the cycle.
- `Bildscraper`: `bildscraper.py`, as a class `Scraper` whose fields are the script's `articles` and `scraped_articles`.

Where the code's behaviour is surprising, the model follows the code:
- Every create stamps `published` with its own `iso_now_utc()` reading (line 104), not the cycle start.
- `ts_hour` is taken from `now`, which is read after the creates (lines 200, 228).
- `converted_time` is a fresh reading (line 216), while the duration uses `now`.
- `new_count` is the number of successful creates, not the number of planned creates.
- Duplicate scraped ids collapse to their last occurrence in the dict of line 181. The snapshot counts still use the undeduplicated list.
- In `bildscraper.py`, line 172 passes the whole record to `update_plus_article_to_normal`. That call raises on every path, and the model raises there too (`Pass1RaisesIff`).
- The keep test of line 75 checks the builtin `id`, so a record without an identifier is kept (`KeepIgnoresIdentifier`).
- `is_bildplus` treats a match at index 0 as no match and -1 as a match. The model does the same (`IsBildplusAtStart`, `IsBildplusAbsent`).

## Model

| member | source | states |
|---|---|---|
| Strings.RStrip | bildwatch_sehbmaster.py:253 | `rstrip(c)` leaves the longest prefix that does not end in `c`; everything removed is `c` |
| Strings.RStripTail | bildwatch_sehbmaster.py:253 | stripping `c` from `s + t` removes exactly `t` when `t` is all `c` and `s` does not end in `c` |
| Strings.SplitJoin | bildwatch_sehbmaster.py:146 | joining the pieces of `split(sep)` gives the text back, and no piece holds the separator |
| Strings.SplitHasSecond | bildwatch_sehbmaster.py:146 | a text holding the separator splits into at least two pieces, so `[1]` exists |
| Strings.FindFrom | bildscraper.py:143 | `find` yields the first index where the pattern occurs, or -1 when it occurs nowhere |
| Strings.Slice | bildscraper.py:145 | `s[start:stop]` clamps both bounds as Python does and holds exactly the characters between them, or nothing when they cross |
| Strings.Capitalize | bildscraper.py:71 | `capitalize` keeps the length, upper-cases the first character and lower-cases the rest |
| Strings.IntToStringRoundTrip | bildscraper.py:139 | `str(i)` reads back as `i` and holds no comma |
| Timestamps.ParseIsoDt | bildwatch_sehbmaster.py:56-64 | a missing or empty value parses to None; any other value is the `fromisoformat` reading of the value, with a trailing "Z" first rewritten to "+00:00" |
| Timestamps.ZuluIsUtcOffset | bildwatch_sehbmaster.py:60-62 | a value ending in "Z" is `fromisoformat` of the same text ending in "+00:00", so both spellings parse alike |
| Timestamps.HoursBetween | bildwatch_sehbmaster.py:66-69 | the result is present exactly when both ends are, and then it is the signed difference in hours |
| Timestamps.HourStart | bildwatch_sehbmaster.py:228 | the bucket is a whole hour and holds `now` |
| Timestamps.HourStartUnique | bildwatch_sehbmaster.py:228 | the bucket is the only hour boundary in the hour up to `now` |
| Scrape.CategoryIsSecondSegment | bildwatch_sehbmaster.py:146 | the category is the url segment between the first and second "/" |
| Scrape.CollectFacts | bildwatch_sehbmaster.py:140-154 | the rows come from ARTICLE children, each with the category of its url; the loop aborts exactly when some ARTICLE url is non-empty without a "/" |
| Scrape.FirstRaising | bildwatch_sehbmaster.py:140-146 | the position of the first ARTICLE child whose url makes `split("/")[1]` raise, or the length when none does |
| Scrape.RowsMembers | bildwatch_sehbmaster.py:143-153 | a row is there exactly when some ARTICLE child yields it, with id, title, url, category and premium flag all from that child's props |
| Scrape.CollectTruncates | bildwatch_sehbmaster.py:140-154 | the loop keeps exactly the rows of the ARTICLE children before the first raising url, in child order, and stops early exactly when such a child exists |
| Scrape.CollectArticles | bildwatch_sehbmaster.py:140-154 | the nested loop collects the rows of the specification function `Collect`, keeping the rows gathered before an IndexError |
| Scrape.PostFilter | bildwatch_sehbmaster.py:158 | exactly the rows with truthy id, title and url survive |
| Scrape.PostFilterSingle | bildwatch_sehbmaster.py:158 | one row survives, as its article, exactly when its id, title and url are truthy |
| Scrape.PostFilterAppend | bildwatch_sehbmaster.py:158 | the filter goes row by row: survivors keep their input order and their repeats, which `len(scraped)` at line 226 counts |
| Scrape.GetAllArticlesFromBild | bildwatch_sehbmaster.py:128-158 | every returned article has a non-empty id, title and url, and its category is the second url segment |
| Payloads.CreatePayload | bildwatch_sehbmaster.py:96-107 | the create body copies the article, is unconverted, and is stamped with its own reading |
| Payloads.Clean | bildwatch_sehbmaster.py:111 | an entry survives exactly when its value is not None or its key is "converted" or "is_premium" |
| Payloads.PatchBodyShape | bildwatch_sehbmaster.py:208-218 | the patch body always sets is_premium false, converted true and converted_time; it has the duration key exactly when a duration exists |
| Payloads.Pct | bildwatch_sehbmaster.py:116 | the percentage is 0 for an empty snapshot, otherwise premium/total*100, and lies in [0, 100] |
| Reconciler.IndexDb | bildwatch_sehbmaster.py:177 | `db_by_id` holds exactly the ids of the stored rows, each under its own id |
| Reconciler.IndexDbLast | bildwatch_sehbmaster.py:177 | each id holds the last stored row with that id |
| Reconciler.IndexScraped | bildwatch_sehbmaster.py:181 | `scraped_by_id` has distinct keys, exactly those of its values, each under its own id |
| Reconciler.FirstIndex | bildwatch_sehbmaster.py:181 | the position of the first scraped article with a given id |
| Reconciler.IndexScrapedOrder | bildwatch_sehbmaster.py:181 | the keys of `scraped_by_id` are listed by their first occurrence in the scrape |
| Reconciler.IndexScrapedRows | bildwatch_sehbmaster.py:181 | the dict holds exactly the scraped ids, each mapped to its last occurrence |
| Reconciler.CreatesForFacts | bildwatch_sehbmaster.py:188-189 | the create loop plans distinct ids, exactly the dict keys absent from the store |
| Reconciler.PatchesForFacts | bildwatch_sehbmaster.py:201-209 | the patch loop plans distinct ids, exactly the stored-premium ids now scraped as free, with their hours |
| Reconciler.CreatesForOrdered | bildwatch_sehbmaster.py:188-189 | the create loop keeps the order of the dict's keys |
| Reconciler.PatchesForOrdered | bildwatch_sehbmaster.py:201-207 | the patch loop keeps the order of the dict's keys |
| Reconciler.ReconcileCreates | bildwatch_sehbmaster.py:188-191 | one create per distinct scraped id absent from the stored rows, carrying its last scraped occurrence, in the order of first occurrence in the scrape |
| Reconciler.ReconcilePatches | bildwatch_sehbmaster.py:201-209 | a patch for an id exactly when it is stored as premium and its last scraped occurrence is free; the hours run from the stored `published` to `now`; the patches come in the order of first occurrence in the scrape, which decides which of them go out before an abort |
| Reconciler.ReconcileDisjoint | bildwatch_sehbmaster.py:177-207 | no id is both created and patched in one cycle, and ids that were not scraped are never touched |
| StoreModel.AfterCreatesFacts | bildwatch_sehbmaster.py:188-197 | successful creates add exactly their ids, each holding the sent row with its own `published` stamp, and leave stored rows as they were |
| StoreModel.AfterPatchesFacts | bildwatch_sehbmaster.py:210-220 | a successfully patched row is the stored row with only is_premium cleared; other rows and the keys stay |
| StoreModel.AfterCycleFacts | bildwatch_sehbmaster.py:188-223 | the store after one cycle's writes: its keys, untouched rows, patched rows as the stored row with only is_premium cleared, and created rows as the sent row with its own stamp |
| StoreModel.CreatesAfterWrites | bildwatch_sehbmaster.py:188-197 | rerun over the same scrape, the next cycle plans a create exactly for each create that failed |
| StoreModel.PatchesAfterWrites | bildwatch_sehbmaster.py:201-223 | rerun over the same scrape, the next cycle plans a patch exactly for each patch that failed |
| StoreModel.ReconcileIdempotent | bildwatch_sehbmaster.py:174-223 | once every write of a cycle succeeded, the same scrape plans no writes |
| Cycle.SuccessBounds | bildwatch_sehbmaster.py:190-197 | created_premium <= created <= number of creates, with equality exactly when every write succeeds |
| Cycle.AllSucceedPremium | bildwatch_sehbmaster.py:192-194 | with no failed create, created_premium counts the premium creates |
| Cycle.CountPremium | bildwatch_sehbmaster.py:227 | the premium count never exceeds the snapshot size |
| Cycle.CountPremiumExtremes | bildwatch_sehbmaster.py:227 | the count is 0 exactly when no row is premium, and the full size exactly when all are |
| Cycle.ApplyCreates | bildwatch_sehbmaster.py:188-197 | one body per planned create, in order; the counters count exactly the successful requests |
| Cycle.PatchesReached | bildwatch_sehbmaster.py:201-209 | the patch loop gets as far as the first conversion whose stored `published` parses naive, or through all of them |
| Cycle.PatchesReachedAll | bildwatch_sehbmaster.py:201-209 | the loop stops early exactly when some conversion's `published` parses naive |
| Cycle.ApplyPatches | bildwatch_sehbmaster.py:201-223 | one cleaned body per patch reached, in order; `patched` counts exactly the successful requests; `aborted` exactly when a duration raises |
| Cycle.MetricsFor | bildwatch_sehbmaster.py:225-236 | the metrics: snapshot total and premium count, a percentage that is 0 for an empty snapshot and premium/total*100 otherwise, `now` truncated to the hour, and the new counts |
| Cycle.Hundredths | bildwatch_sehbmaster.py:251 | `round(d / 60, 2)` is the nearest hundredth of a minute |
| Cycle.MinutesTextShape | bildwatch_sehbmaster.py:253 | the minutes text drops trailing zero decimals and then a bare dot, and keeps the whole minutes |
| Cycle.MinutesTextNoDecimals | bildwatch_sehbmaster.py:253 | a whole number of minutes is shown without dot or decimals |
| Cycle.MinutesTextOneDecimal | bildwatch_sehbmaster.py:253 | a zero second decimal is dropped and the first decimal kept |
| Cycle.MinutesTextTwoDecimals | bildwatch_sehbmaster.py:253 | a non-zero second decimal keeps both decimals |
| Cycle.MinutesTextTenth | bildwatch_sehbmaster.py:253 | "0.10" becomes "0.1" |
| Cycle.MinutesTextWhole | bildwatch_sehbmaster.py:253 | "2.00" becomes "2" |
| Cycle.AwareNeverAborts | bildwatch_sehbmaster.py:208-209 | with no stored `published` parsing naive, the patch loop never raises |
| Cycle.SyncBildwatch | bildwatch_sehbmaster.py:161-275 | the cycle fails before any write exactly when a fetch fails, aborts to "error" after its creates exactly when a conversion's duration raises, and otherwise ends "idle" even when writes fail; bodies, counters and metrics follow the plan up to where it stopped |
| Cycle.ScenarioFreshStore | bildwatch_sehbmaster.py:181-197 | against an empty store, two scraped articles are both created, and the snapshot counts 2 with 1 premium |
| Cycle.ScenarioTransition | bildwatch_sehbmaster.py:201-209 | a stored premium article scraped free two hours after `published` is patched with 2.0 hours |
| Bildscraper.CategoryFromPathSegment | bildscraper.py:67-73 | the category is the capitalised segment after the first "/" |
| Bildscraper.CategoryFromPathNoSlash | bildscraper.py:68-73 | a path without "/" yields no category, because the IndexError is swallowed |
| Bildscraper.KeepIgnoresIdentifier | bildscraper.py:75 | whether a document is kept does not depend on its identifier |
| Bildscraper.CollectedMembers | bildscraper.py:50-91 | the scrape holds exactly the records of the kept documents |
| Bildscraper.TimeBetweenRoundTrip | bildscraper.py:135-139 | the "H, M" text reads back as the floor hours and leftover minutes; 0 <= M < 60, and they pin the elapsed time to its minute |
| Bildscraper.IsBildplusAtStart | bildscraper.py:143-149 | a match of "isPremium" at index 0 counts as not premium |
| Bildscraper.IsBildplusAbsent | bildscraper.py:143-149 | a page without "isPremium" is not premium |
| Bildscraper.IsBildplusLiteralTrue | bildscraper.py:143-147 | a first match followed by `":true` is premium |
| Bildscraper.IsBildplusLiteralFalse | bildscraper.py:143-149 | a first match followed by `":false` is not premium |
| Bildscraper.PostPlus | bildscraper.py:107-117 | exactly the record's identifier gains the new entry; every other entry is unchanged |
| Bildscraper.ToNormal | bildscraper.py:119-139 | the update fails exactly for a record key, a missing key or an unparseable `published` |
| Bildscraper.ToNormalFacts | bildscraper.py:123-139 | a successful update keeps the key order and the other entries, marks that entry converted with `publishedToNormal` and the "H, M" text, and keeps the dict well formed |
| Bildscraper.Pass1Entries | bildscraper.py:165-176 | the first pass never changes a stored entry and adds entries only for records scraped as premium |
| Bildscraper.Pass1Posts | bildscraper.py:173-176 | without an exception, every record scraped as premium ends up in the dict |
| Bildscraper.Pass1PostedEntry | bildscraper.py:107-117 | a key the first pass adds holds `post_plus_article`'s entry for the first premium record with that identifier |
| Bildscraper.Pass1RaisesIff | bildscraper.py:171-172 | the first pass raises exactly when a record scraped as free finds its identifier already in the dict |
| Bildscraper.Pass2Entries | bildscraper.py:178-180 | the second pass never touches a converted entry; any entry it changes is converted |
| Bildscraper.Pass2Converts | bildscraper.py:178-180 | without an exception, every unconverted entry whose page is not premium gets converted |
| Bildscraper.Pass2RaisesIff | bildscraper.py:178-180 | the second pass raises exactly when some key's page download fails, or its page is free, it is unconverted and its `published` does not parse |
| Bildscraper.CheckRunRaisesIff | bildscraper.py:162-180 | `check_articles` raises exactly when the first pass raises or, after it, some key of the dict fails in the second pass |
| Bildscraper.CheckRunEntries | bildscraper.py:162-180 | `check_articles` only adds keys, each for a premium record, leaves converted entries as they were, and without an exception holds every premium record |
| Bildscraper.Scraper.constructor | bildscraper.py:24-35 | the state starts from the loaded dict and an empty scrape |
| Bildscraper.Scraper.GetAllArticles | bildscraper.py:37-91 | the scrape list is reset, then filled with the kept records in block order |
| Bildscraper.Scraper.PostPlusArticle | bildscraper.py:107-117 | the dict becomes `PostPlus` of the old dict |
| Bildscraper.Scraper.UpdatePlusArticleToNormal | bildscraper.py:119-139 | the dict becomes `ToNormal` of the old dict, or stays as it was when the call raises |
| Bildscraper.Scraper.CheckOneScraped | bildscraper.py:166-176 | one record's step of the first loop |
| Bildscraper.Scraper.CheckScraped | bildscraper.py:165-176 | the first loop, ending at the first exception |
| Bildscraper.Scraper.CheckOneStored | bildscraper.py:179-180 | one key's step of the second loop |
| Bildscraper.Scraper.CheckStored | bildscraper.py:178-180 | the second loop over the keys in insertion order, ending at the first exception |
| Bildscraper.Scraper.CheckArticles | bildscraper.py:162-180 | `check_articles` leaves the dict and the raised flag of `CheckRun` |

## Left out

- HTTP: `_req`, the `requests` calls, the headers and the API key are not modelled. A fetch is an input that may be missing; a write is a success flag.
- Logging and status: `send_log`, `status_upsert` and `print` are sinks without effect on the outcome. Their failures are swallowed, so they are not modelled. The "working" status at the start is not modelled either.
- HTML and JSON decoding: BeautifulSoup and `json.loads` are not modelled; the decoded page structure is the input.
- Missing keys: a stored row without an `"id"` makes `row["id"]` at line 177 raise, which ends the cycle in "error". This is not modelled: rows are taken to carry their ids. A broken key path of the page data is caught at line 154 and yields no rows, which the model covers as `Unparseable`.
- Python truthiness: non-boolean `isPremium` values are not modelled, and neither is the `if not db_row` test on an empty row.
- Time: instants are whole seconds. Microseconds, time zones and the Berlin rendering in `fmt_berlin_time_and_date` are not modelled. `fromisoformat` is an oracle, and so is whether the datetime it yields carries a UTC offset.
- Timestamps.HoursBetween: the value is an exact rational. It does not model float division or the `round(duration, 4)` of line 217.
- Payloads.Pct: the value is an exact rational. It does not model the float or `round(pct, 2)`.
- Cycle.Hundredths: assumes whole, non-negative seconds. A negative elapsed time (the clock going backwards) is not modelled.
- Cycle.SyncBildwatch: the text of the status messages is not modelled, apart from the minutes. An aborted cycle reports the writes it made but not the exception text.
- StoreModel: the store after a cycle is given for a cycle that runs both write loops to the end, not for one aborted in the patch loop. The article store's own code is not part of this model. A successful create is taken to store the row as sent. A successful patch clears `is_premium`. A failed write changes nothing.
- Files and the loop: `check_and_open_json`, `save_to_json`, `datetime_converter`, the sleep loop and the "Desktop" switch of `bildscraper.py` are not modelled. The constructor takes the loaded dict.
- Crashes in `get_all_articles`: a block without "layouts", a failing key path, or a `None` script text would end the program, and are not modelled. A non-string `relativePath` raises inside the `try` of lines 68-73 and is swallowed, leaving the category None; the model only takes string paths.
- Strings.Capitalize: handles ASCII letters only, not Unicode case mapping.
- `is_bildplus`: the page download is the `fetch` oracle. A download that raises, including one for a `None` url, ends `check_articles`.
- Analyzers: `analyzer.py` and `pandas_analyzer.py` are reporting and plotting scripts and are not part of this model.
- Bildscraper.ToNormal: a TypeError from `now - published_date` at bildscraper.py:132 (an aware `published` text against the naive `datetime.now()`) is not modelled. In the source it comes after line 129 has already set `publishedToNormal`, leaving a partial update; the model treats every parsed `published` as naive, so the subtraction never raises there.
