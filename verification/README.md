# Wikipedia most-viewed snapshot, modelled in Dafny

The script fetches the ranking of the most viewed English Wikipedia pages. It keeps up to twenty real articles from that ranking. For each article it looks up the author of the latest revision, fetches the page HTML, stamps the fetch time and converts the HTML to markdown. It then replaces a `pages` table in a SQLite file with one row per article.

This project models the pure logic around those network calls in `main.py`:

- `wrappers.dfy`: the `Option` and `Result` types.
- `records.dfy`: the `page_data` record as `Records.PageRecord`. The three enrichment fields are `Option`s, because a fresh record holds `None` in them. The record also has the *bare* and *complete* predicates.
- `ranking.dfy`: the selection loop of `get_20_most_viewed_articles`. A ranking item is kept when its namespace is 0 and its title is not `"Main Page"`. The loop stops once twenty items are kept. Each URL is the fixed prefix `https://en.wikipedia.org/wiki/` followed by the title with spaces replaced by underscores. `SelectTopArticles` is the loop as written. `TopArticles` is an independent filter-then-take definition, and the loop is proved equal to it.
- `enrichment.dfy`: `update_page_data` as a record transformer. The network is an input: `net(i)` holds the revision-query reply for the `i`-th record, the HTML reply, and the clock reading taken right after the HTML arrived. The HTML-to-markdown converter is a function parameter that may fail (`None`), since a raising converter aborts the run. Extracting the editor (`query_pages[0]["revisions"][0]["user"]`) fails on an empty `pages` object, a missing or empty `revisions` list, or a missing `user`. The first failing record aborts the stage, and the error names that record.
- `store.dfy`: `create_db` over an abstract database, a map from table name to rows. The `pages` table is dropped and recreated. SQLite matches table names without regard to ASCII case, so the drop also removes a table spelled `Pages` or `PAGES`. Then one row per record is inserted: the fetch time rendered by an ISO-8601 function parameter, the editor, the markdown and the URL. The title is not stored. An editor or markdown of `None` becomes a SQL NULL. A record without a fetch time makes `isoformat()` fail. Python's `sqlite3` module runs `DROP`/`CREATE` without a transaction but holds the `INSERT`s until `commit()`, so after such a failure the table exists and is empty.
- `pipeline.dfy`: the order of stages in `main`. The ranking reply is an input too; a failed ranking request aborts the run before anything else happens. The store is touched only after every record is enriched, so a failed ranking request or enrichment leaves the database exactly as it was.

Two behaviours of the code worth stating plainly:

- The function is named `get_20_most_viewed_articles` (main.py:20) and the command line describes itself as fetching "the 20 most viewed Wikipedia articles" (main.py:116), but the loop returns fewer than twenty records when fewer items of the fetched ranking qualify.
- After a failed insert, `pages` has already been recreated and is empty; it is never left dropped. Within this pipeline no insert can fail, because the store only receives complete records (`Store.CompleteRecordsPersist`).

## Model

| member | source | states |
|---|---|---|
| `Ranking.QualifyingSound` | main.py:34-37 | every kept item is an item of the ranking that is in namespace 0 and is not the landing page |
| `Ranking.PositionsSpec` | main.py:34-37 | the qualifying items sit at strictly increasing ranks of the input, and every qualifying rank is among them (an order-preserving subsequence that misses nothing) |
| `Ranking.FullPrefixDecides` | main.py:39 | once a prefix of the ranking holds twenty qualifying items, the rest of the ranking cannot change the selection, so stopping there is sound |
| `Ranking.SelectTopArticles` | main.py:33-41 | the skip/append/stop-at-twenty loop returns exactly the first min(20, #qualifying) qualifying items, as bare records, in rank order |
| `Ranking.TopArticlesCount` | main.py:37-39 | the selection holds at most 20 records and at most as many as qualify; it holds exactly 20 when at least 20 qualify, and all of them otherwise |
| `Ranking.TopArticlesComeFromRanking` | main.py:37-38 | every selected record is bare, carries the title of a qualifying ranking item unchanged, has the URL derived from that title, and the selected items keep rank order |
| `Ranking.TopArticlesSkipNothing` | main.py:34-39 | no qualifying item ranked above a selected one is passed over |
| `Ranking.ShortRankingSelectsAll` | main.py:34-41 | when fewer than twenty are selected, every qualifying item of the ranking is among them |
| `Ranking.Underscored` | main.py:31 | the transformed title has the title's length, with each space turned into an underscore and every other character kept |
| `Ranking.ArticleUrlShape` | main.py:31 | the URL is the fixed prefix followed by a part as long as the title that has no space and differs from the title only at its spaces |
| `Ranking.UnderscoredFixedPoints` | main.py:31 | replacing spaces is idempotent, and it leaves a title unchanged exactly when the title has no space |
| `Enrichment.MostRecentEditor` | main.py:56-59 | the editor is the user of the first revision of the first returned page; it fails exactly when the request fails, no page is returned, the page has no revisions key, the list is empty, or the user is missing |
| `Enrichment.MostRecentEditorReadsFirstPage` | main.py:58-59 | the editor depends only on the first page entry of the reply: entries after the first never change the result |
| `Enrichment.EnrichPage` | main.py:55-62 | a record is enriched iff the editor lookup, the HTML fetch and the conversion all succeed; the first failing step is the one reported; the result is complete, keeps url and title, and holds the converter's output as markdown |
| `Enrichment.Enrich` | main.py:54-63 | enrichment succeeds iff every record's lookup, fetch and conversion succeed, giving one enriched record per input in order; otherwise it reports the first failing record, and all records before it succeeded |
| `Enrichment.EnrichedRecords` | main.py:54-62 | after enrichment every record is complete, keeps url and title, and holds its own editor, clock reading and the converter applied to its own HTML; length and order are unchanged |
| `Enrichment.EnrichFailsIffSomeExchangeFails` | main.py:54-62 | the stage fails exactly when the editor lookup, HTML fetch or conversion of some record fails |
| `Enrichment.FetchTimesFollowClock` | main.py:60-61 | fetch times are the clock readings in record order, so they are non-decreasing whenever the clock is |
| `Store.Rows` | main.py:81-93 | one row per record in input order when every record has a fetch time; otherwise the first record without one is reported |
| `Store.CreateDb` | main.py:71-94 | afterwards `pages` holds exactly the records' rows in order, or nothing if an insert failed; no other spelling of `pages` survives; every table whose name differs from `pages` ignoring case is unchanged, and no other table appears |
| `Store.CreateDbDropsOtherCase` | main.py:71 | a table named `Pages` is dropped by the drop of `pages`, leaving only the new `pages` table |
| `Store.CompleteRecordsPersist` | main.py:81-93 | complete records always persist: N records give N rows, none with a NULL editor or markdown, each with its record's url |
| `Store.CreateDbTwice` | main.py:71-79 | persisting twice gives the same database as persisting only the second batch (N rows, not 2N) |
| `Store.CreateDbForgetsPriorRun` | main.py:71-79 | the `pages` table after persisting does not depend on what was in the database before |
| `Store.CreateDbIgnoresTitles` | main.py:72-92 | records that differ only in their titles persist identically |
| `Pipeline.Run` | main.py:99-110 | a failed ranking request aborts the run; with a delivered ranking the run succeeds iff enrichment succeeds; a failed run leaves the database untouched; tables other than `pages` (ignoring case) are kept; after a success `pages` holds at most 20 rows, row k being the k-th qualifying article's URL with the editor, ISO time and converted HTML of its own exchange |
| `Pipeline.RunReplacesPriorSnapshot` | main.py:102-110 | a successful later run leaves the same `pages` table it would leave in an empty database, and a failed later run leaves the earlier snapshot in place |
| `Pipeline.ThreeItemScenario` | main.py:31-93 | for the ranking [A (ns 0), Main Page (ns 0), B (ns 4)], the table ends with the single row for A, with url `https://en.wikipedia.org/wiki/A` |

## Left out

- HTTP requests and JSON decoding (main.py:28-29, 56-57, 60): every reply is an input (the ranking reply of `Pipeline.Run`, and `Enrichment.Exchange` per record). A failed request, an undecodable body, or a reply without the `query`/`mostviewed` or `query`/`pages` keys is a single `Failed` case. An HTTP error status does not raise in the source (`.text` is still read), so it is just another delivered body. A request that never answers is not represented: no timeout is set at main.py:28, 56 or 60, so the source would wait forever.
- Ranking items without an `ns` or `title` key (main.py:37): the model's ranking items always carry both. In the source such an item raises `KeyError` only when the loop reaches it, which aborts the run before enrichment with the database untouched, like a failed ranking request; an item after the twentieth qualifying one is never read.
- The ranking request and its `pvimlimit` of 30 (main.py:21-29): the model takes whatever ranking list the API returned, of any length.
- `html2text.html2text` (main.py:62): an uninterpreted function parameter `toMarkdown`, whose `None` result stands for the converter raising.
- `dt.datetime.now()`, `isoformat()` and `time.sleep(.1)` (main.py:61, 63, 88): the clock reading is part of each exchange, its ISO-8601 rendering is a function parameter `iso`, and the pause has no effect on values.
- The SQLite engine, SQL text, commit and close, and the `pages.db` path next to the script (main.py:66-70, 94-97): the abstract database map stands in for them. Storage failures other than a missing fetch time, such as a full disk, are not modelled.
- In-place mutation (main.py:54-62): the source mutates the records. After a mid-stage failure, the earlier records are already enriched, and the failing record already holds the editor if its lookup succeeded, and also the fetch time if the converter raised. The run is aborted, so this is never observable. The model returns new records instead.
- `main`'s verbose printing and the argument parser (main.py:100-120): console output only.
- notebook.py: an exploratory copy of the same selection, enrichment and store steps. It also writes the first page's markdown to `page.md` and never fills the `markdown` field.
- Enrichment.FetchTimesFollowClock: this proves that fetch times are non-decreasing only when the clock readings are. The wall clock can go backwards, and the source does nothing about it.
