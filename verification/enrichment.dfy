/** Enrichment of the selected records: for each record in order, look up the
    author of the latest revision, fetch the page HTML, stamp the fetch time and
    convert the HTML to markdown. Every network answer is an input: `net(i)` is
    what the two requests for the `i`-th record returned and what the clock read
    right after the HTML arrived. The first failure aborts the whole stage. */
module Enrichment {
  import opened Wrappers
  import opened Records

  /** What an HTTP request yielded: a decoded body, or a failure (transport
      error, undecodable JSON, or a reply without the `query`/`pages` keys). */
  datatype Reply<+T> = Delivered(body: T) | Failed

  /** One revision entry; `user` is absent when the API withholds it. */
  datatype Revision = Revision(user: Option<string>)

  /** One entry of the `pages` object; `revisions` is absent for a missing page. */
  datatype QueryPage = QueryPage(revisions: Option<seq<Revision>>)

  /** The network's side of one record: the revision query reply (its page
      entries in reply order), the HTML fetch reply, and the clock reading. */
  datatype Exchange = Exchange(
    revisionQuery: Reply<seq<QueryPage>>,
    htmlFetch: Reply<string>,
    clock: Instant)

  /** Why enriching one record failed. */
  datatype EnrichError =
    | RevisionQueryFailed   // the revision request or its decoding failed
    | NoPageReturned        // the `pages` object is empty
    | NoRevisionsKey        // the first page entry has no `revisions`
    | NoRevisions           // the `revisions` list is empty
    | NoUserKey             // the latest revision has no `user`
    | HtmlFetchFailed       // the HTML request failed
    | ConversionFailed      // the HTML-to-markdown converter raised

  /** The first record whose enrichment failed, and why. */
  datatype Failure = Failure(index: nat, cause: EnrichError)

  /** The editor of the latest revision, read from the first page entry of the reply. */
  function MostRecentEditor(reply: Reply<seq<QueryPage>>): (r: Result<string, EnrichError>)
    ensures r.Ok? <==>
      && reply.Delivered?
      && |reply.body| > 0
      && reply.body[0].revisions.Some?
      && |reply.body[0].revisions.value| > 0
      && reply.body[0].revisions.value[0].user.Some?
    ensures r.Ok? ==> Some(r.value) == reply.body[0].revisions.value[0].user
    ensures reply.Failed? ==> r == Err(RevisionQueryFailed)
    ensures reply.Delivered? && |reply.body| == 0 ==> r == Err(NoPageReturned)
  {
    match reply
    case Failed => Err(RevisionQueryFailed)
    case Delivered(pages) =>
      if |pages| == 0 then Err(NoPageReturned)
      else match pages[0].revisions
        case None => Err(NoRevisionsKey)
        case Some(revs) =>
          if |revs| == 0 then Err(NoRevisions)
          else match revs[0].user
            case None => Err(NoUserKey)
            case Some(u) => Ok(u)
  }

  /** Only the first page entry of the reply is read: later entries never change the editor. */
  lemma MostRecentEditorReadsFirstPage(first: QueryPage, rest1: seq<QueryPage>, rest2: seq<QueryPage>)
    ensures MostRecentEditor(Delivered([first] + rest1)) == MostRecentEditor(Delivered([first] + rest2))
  {
  }

  /** The request, then the conversion, for one record succeeded. */
  predicate ExchangeSucceeds(ex: Exchange, toMarkdown: string -> Option<string>) {
    && MostRecentEditor(ex.revisionQuery).Ok?
    && ex.htmlFetch.Delivered?
    && toMarkdown(ex.htmlFetch.body).Some?
  }

  /** Enrich one record. The steps run in order (editor lookup, HTML fetch,
      conversion), so the first step that fails is the one reported. */
  function EnrichPage(page: PageRecord, ex: Exchange, toMarkdown: string -> Option<string>)
    : (r: Result<PageRecord, EnrichError>)
    ensures r.Ok? <==>
      MostRecentEditor(ex.revisionQuery).Ok? && ex.htmlFetch.Delivered? && toMarkdown(ex.htmlFetch.body).Some?
    ensures MostRecentEditor(ex.revisionQuery).Err? ==> r == Err(MostRecentEditor(ex.revisionQuery).error)
    ensures MostRecentEditor(ex.revisionQuery).Ok? && ex.htmlFetch.Failed? ==> r == Err(HtmlFetchFailed)
    ensures MostRecentEditor(ex.revisionQuery).Ok? && ex.htmlFetch.Delivered? && toMarkdown(ex.htmlFetch.body).None?
      ==> r == Err(ConversionFailed)
    ensures r.Ok? ==>
      && r.value.IsComplete()
      && r.value.url == page.url
      && r.value.title == page.title
      && r.value.mostRecentEditor == Some(MostRecentEditor(ex.revisionQuery).value)
      && r.value.timeFetched == Some(ex.clock)
      && r.value.markdown == toMarkdown(ex.htmlFetch.body)
  {
    match MostRecentEditor(ex.revisionQuery)
    case Err(e) => Err(e)
    case Ok(editor) =>
      match ex.htmlFetch
      case Failed => Err(HtmlFetchFailed)
      case Delivered(html) =>
        match toMarkdown(html)
        case None => Err(ConversionFailed)
        case Some(md) =>
          Ok(page.(mostRecentEditor := Some(editor),
                   timeFetched := Some(ex.clock),
                   markdown := Some(md)))
  }

  /** Enrich every record in order; the first failing record aborts the stage. */
  function Enrich(pages: seq<PageRecord>, net: nat -> Exchange, toMarkdown: string -> Option<string>)
    : (r: Result<seq<PageRecord>, Failure>)
    ensures r.Ok? <==> forall i :: 0 <= i < |pages| ==> EnrichPage(pages[i], net(i), toMarkdown).Ok?
    ensures r.Ok? ==>
      && |r.value| == |pages|
      && forall i :: 0 <= i < |pages| ==> r.value[i] == EnrichPage(pages[i], net(i), toMarkdown).value
    ensures r.Err? ==>
      && r.error.index < |pages|
      && EnrichPage(pages[r.error.index], net(r.error.index), toMarkdown) == Err(r.error.cause)
      && forall i :: 0 <= i < r.error.index ==> EnrichPage(pages[i], net(i), toMarkdown).Ok?
    decreases |pages|
  {
    if |pages| == 0 then Ok([])
    else
      var n := |pages| - 1;
      match Enrich(pages[..n], net, toMarkdown)
      case Err(f) => Err(f)
      case Ok(done) =>
        match EnrichPage(pages[n], net(n), toMarkdown)
        case Err(e) => Err(Failure(n, e))
        case Ok(p) => Ok(done + [p])
  }

  /** After a successful enrichment every record is complete, keeps its URL and
      title, and holds the editor, clock reading and converted HTML of its own
      exchange; length and order are unchanged. */
  lemma EnrichedRecords(pages: seq<PageRecord>, net: nat -> Exchange, toMarkdown: string -> Option<string>)
    requires Enrich(pages, net, toMarkdown).Ok?
    ensures var done := Enrich(pages, net, toMarkdown).value;
      && |done| == |pages|
      && forall i :: 0 <= i < |pages| ==>
        && done[i].IsComplete()
        && done[i].url == pages[i].url
        && done[i].title == pages[i].title
        && ExchangeSucceeds(net(i), toMarkdown)
        && done[i].markdown == toMarkdown(net(i).htmlFetch.body)
        && done[i].timeFetched == Some(net(i).clock)
        && MostRecentEditor(net(i).revisionQuery).Ok?
        && done[i].mostRecentEditor == Some(MostRecentEditor(net(i).revisionQuery).value)
  {
  }

  /** Enrichment fails exactly when the editor lookup, HTML fetch or conversion
      of some record fails. */
  lemma EnrichFailsIffSomeExchangeFails(pages: seq<PageRecord>, net: nat -> Exchange, toMarkdown: string -> Option<string>)
    ensures Enrich(pages, net, toMarkdown).Err? <==>
      exists i :: 0 <= i < |pages| &&
        (|| MostRecentEditor(net(i).revisionQuery).Err?
         || net(i).htmlFetch.Failed?
         || toMarkdown(net(i).htmlFetch.body).None?)
  {
  }

  /** Fetch times are the clock readings in record order, so they are
      non-decreasing whenever the clock is. */
  lemma FetchTimesFollowClock(pages: seq<PageRecord>, net: nat -> Exchange, toMarkdown: string -> Option<string>)
    requires Enrich(pages, net, toMarkdown).Ok?
    requires forall i, j :: 0 <= i <= j < |pages| ==> net(i).clock.micros <= net(j).clock.micros
    ensures var done := Enrich(pages, net, toMarkdown).value;
      forall i, j :: 0 <= i <= j < |done| ==>
        done[i].timeFetched.value.micros <= done[j].timeFetched.value.micros
  {
  }
}
