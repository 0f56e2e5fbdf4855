/** The one domain entity of the pipeline: the `page_data` record. */
module Records {
  import opened Wrappers

  /** A wall-clock reading; its ISO-8601 rendering is supplied from outside. */
  datatype Instant = Instant(micros: int)

  /** One article of the snapshot, with the fields in the order the record declares them.
      The three enrichment fields are `None` until the page has been enriched. */
  datatype PageRecord = PageRecord(
    timeFetched: Option<Instant>,
    mostRecentEditor: Option<string>,
    markdown: Option<string>,
    url: string,
    title: string)
  {
    /** Only `url` and `title` are populated. */
    predicate IsBare() {
      timeFetched.None? && mostRecentEditor.None? && markdown.None?
    }

    /** All five fields are populated. */
    predicate IsComplete() {
      timeFetched.Some? && mostRecentEditor.Some? && markdown.Some?
    }
  }
}
