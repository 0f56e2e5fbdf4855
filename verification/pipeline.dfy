/** The driver: fetch the ranking and select the most viewed articles, enrich
    them, then replace the snapshot table. Any failure aborts the run; since the
    store is touched only after every record has been enriched, a failed ranking
    request or enrichment leaves the database exactly as the previous run left it. */
module Pipeline {
  import opened Wrappers
  import opened Records
  import opened Ranking
  import opened Enrichment
  import opened Store

  /** Why a run aborted: the ranking request failed, or a record's enrichment did. */
  datatype RunFailure = RankingFailed | EnrichFailed(failure: Failure)

  /** The database after a run, and the failure that aborted it, if any.
      The store stage cannot fail here: it only ever receives complete records. */
  datatype RunOutcome = RunOutcome(db: Database, failure: Option<RunFailure>)

  /** One run, with `ranking` the reply to the most-viewed request, `net` the
      per-record network exchanges, `toMarkdown` the HTML converter and `iso`
      the timestamp rendering, starting from database `db`. */
  function Run(ranking: Reply<seq<RankItem>>, net: nat -> Exchange, toMarkdown: string -> Option<string>,
               iso: Instant -> string, db: Database): (r: RunOutcome)
    ensures ranking.Failed? ==> r == RunOutcome(db, Some(RankingFailed))
    ensures ranking.Delivered? ==>
      (r.failure.None? <==> Enrich(TopArticles(ranking.body), net, toMarkdown).Ok?)
    ensures ranking.Delivered? && r.failure.Some? ==>
      r.failure == Some(EnrichFailed(Enrich(TopArticles(ranking.body), net, toMarkdown).error))
    ensures r.failure.Some? ==> r.db == db
    ensures forall t :: t in db && !SameTable(t, PagesTable) ==> t in r.db && r.db[t] == db[t]
    ensures r.failure.None? ==> ranking.Delivered? && PagesTable in r.db
    ensures r.failure.None? ==>
      var q, rows := Qualifying(ranking.body), r.db[PagesTable];
      && |rows| <= Limit
      && |rows| == |TopArticles(ranking.body)|
      && forall k :: 0 <= k < |rows| ==>
        && ExchangeSucceeds(net(k), toMarkdown)
        && rows[k] == Row(iso(net(k).clock),
                          Some(MostRecentEditor(net(k).revisionQuery).value),
                          toMarkdown(net(k).htmlFetch.body),
                          ArticleUrl(q[k].title))
  {
    match ranking
    case Failed => RunOutcome(db, Some(RankingFailed))
    case Delivered(items) =>
      var pages := TopArticles(items);
      match Enrich(pages, net, toMarkdown)
      case Err(f) => RunOutcome(db, Some(EnrichFailed(f)))
      case Ok(done) =>
        EnrichedRecords(pages, net, toMarkdown);
        CompleteRecordsPersist(db, done, iso);
        TopArticlesCount(items);
        RunOutcome(CreateDb(db, done, iso).db, None)
  }

  /** A later successful run replaces the snapshot entirely; a later failed run
      leaves the earlier snapshot in place. */
  lemma RunReplacesPriorSnapshot(
    ranking1: Reply<seq<RankItem>>, net1: nat -> Exchange,
    ranking2: Reply<seq<RankItem>>, net2: nat -> Exchange,
    toMarkdown: string -> Option<string>, iso: Instant -> string, db: Database)
    ensures var first := Run(ranking1, net1, toMarkdown, iso, db);
      var second := Run(ranking2, net2, toMarkdown, iso, first.db);
      && (second.failure.None? ==>
            second.db[PagesTable] == Run(ranking2, net2, toMarkdown, iso, map[]).db[PagesTable])
      && (second.failure.Some? ==> second.db == first.db)
  {
    var first := Run(ranking1, net1, toMarkdown, iso, db);
    match ranking2
    case Failed =>
    case Delivered(items) =>
      match Enrich(TopArticles(items), net2, toMarkdown)
      case Err(_) =>
      case Ok(done) =>
        CreateDbForgetsPriorRun(first.db, map[], done, iso);
  }

  /** A three-item ranking in which only the first item qualifies (the second is
      the landing page, the third is outside the article namespace) yields a
      one-row table for that article. */
  lemma ThreeItemScenario(net: nat -> Exchange, toMarkdown: string -> Option<string>,
                          iso: Instant -> string, db: Database)
    requires net(0) == Exchange(
      Delivered([QueryPage(Some([Revision(Some("alice"))]))]),
      Delivered("<p>a</p>"),
      Instant(0))
    requires toMarkdown("<p>a</p>").Some?
    ensures var r := Run(Delivered([RankItem("A", 0), RankItem("Main Page", 0), RankItem("B", 4)]),
                         net, toMarkdown, iso, db);
      && r.failure.None?
      && PagesTable in r.db
      && r.db[PagesTable] == [Row(iso(Instant(0)), Some("alice"), toMarkdown("<p>a</p>"),
                                  "https://en.wikipedia.org/wiki/A")]
  {
    var items := [RankItem("A", 0), RankItem("Main Page", 0), RankItem("B", 4)];
    ScenarioSelection();
    var url := "https://en.wikipedia.org/wiki/A";
    ScenarioUrl();
    var done := [PageRecord(Some(Instant(0)), Some("alice"), toMarkdown("<p>a</p>"), url, "A")];
    assert MostRecentEditor(net(0).revisionQuery) == Ok("alice");
    assert EnrichPage(BareRecord("A"), net(0), toMarkdown) == Ok(done[0]);
    var enriched := Enrich([BareRecord("A")], net, toMarkdown);
    assert enriched.Ok? && |enriched.value| == 1;
    assert enriched.value == done;
    var rows := [Row(iso(Instant(0)), Some("alice"), toMarkdown("<p>a</p>"), url)];
    var stored := Rows(done, iso);
    assert done[0].timeFetched.Some?;
    assert stored.Ok? && |stored.value| == 1;
    assert stored.value[0] == rows[0];
    assert stored.value == rows;
  }

  lemma ScenarioSelection()
    ensures TopArticles([RankItem("A", 0), RankItem("Main Page", 0), RankItem("B", 4)]) == [BareRecord("A")]
  {
    var items := [RankItem("A", 0), RankItem("Main Page", 0), RankItem("B", 4)];
    assert items[..2][..1][..0] == [];
    assert items[..2][..1] == [RankItem("A", 0)];
    assert Qualifying(items) == [RankItem("A", 0)];
  }

  lemma ScenarioUrl()
    ensures ArticleUrl("A") == "https://en.wikipedia.org/wiki/A"
  {
    assert Underscored("A") == "A";
  }
}
