/** The snapshot store: the database is a map from table name to its rows.
    Persisting drops the `pages` table if it exists, recreates it empty, and
    inserts one row per record in input order. The title is not stored. */
module Store {
  import opened Wrappers
  import opened Records

  /** One row of the `pages` table: fetch time as ISO-8601 text, editor,
      markdown and URL. `None` is a SQL NULL. */
  datatype Row = Row(
    timeFetched: string,
    mostRecentEditor: Option<string>,
    markdown: Option<string>,
    url: string)

  /** Every table of the database file, by name. */
  type Database = map<string, seq<Row>>

  const PagesTable: string := "pages"

  /** SQLite compares table names without regard to ASCII case. */
  function LowerAscii(c: char): char {
    if 'A' <= c <= 'Z' then (c as int + 32) as char else c
  }

  /** The name with every ASCII capital lowered: no capital remains, and every
      other character stays where it was. */
  function FoldCase(name: string): (r: string)
    ensures |r| == |name|
    ensures forall i :: 0 <= i < |r| ==> !('A' <= r[i] <= 'Z')
    ensures forall i :: 0 <= i < |name| && !('A' <= name[i] <= 'Z') ==> r[i] == name[i]
  {
    seq(|name|, i requires 0 <= i < |name| => LowerAscii(name[i]))
  }

  /** Folding twice is folding once. */
  lemma FoldCaseIdempotent(name: string)
    ensures FoldCase(FoldCase(name)) == FoldCase(name)
  {
  }

  /** Two table names denote the same table. */
  predicate SameTable(a: string, b: string) {
    FoldCase(a) == FoldCase(b)
  }

  /** The insert of the record at `index` failed: it has no fetch time to render. */
  datatype StoreError = MissingFetchTime(index: nat)

  /** The database after persisting, and the error that aborted the inserts, if any. */
  datatype Persisted = Persisted(db: Database, failure: Option<StoreError>)

  /** The rows of all records in order, or the first record that cannot be rendered. */
  function Rows(pages: seq<PageRecord>, iso: Instant -> string): (r: Result<seq<Row>, StoreError>)
    ensures r.Ok? <==> forall i :: 0 <= i < |pages| ==> pages[i].timeFetched.Some?
    ensures r.Ok? ==>
      && |r.value| == |pages|
      && forall i :: 0 <= i < |pages| ==>
        r.value[i] == Row(iso(pages[i].timeFetched.value), pages[i].mostRecentEditor, pages[i].markdown, pages[i].url)
    ensures r.Err? ==>
      && r.error.index < |pages|
      && pages[r.error.index].timeFetched.None?
      && forall i :: 0 <= i < r.error.index ==> pages[i].timeFetched.Some?
    decreases |pages|
  {
    if |pages| == 0 then Ok([])
    else
      var n := |pages| - 1;
      match Rows(pages[..n], iso)
      case Err(e) => Err(e)
      case Ok(rows) =>
        match pages[n].timeFetched
        case None => Err(MissingFetchTime(n))
        case Some(t) => Ok(rows + [Row(iso(t), pages[n].mostRecentEditor, pages[n].markdown, pages[n].url)])
  }

  /** Drop `pages` (under any spelling of its case), recreate it and insert the
      rows. Dropping and creating take effect at once; the inserts become
      visible only at the final commit, so when an insert fails the table is
      left empty. */
  function CreateDb(db: Database, pages: seq<PageRecord>, iso: Instant -> string): (r: Persisted)
    ensures PagesTable in r.db
    ensures forall t :: t in r.db && SameTable(t, PagesTable) ==> t == PagesTable
    ensures forall t :: t in db && !SameTable(t, PagesTable) ==> t in r.db && r.db[t] == db[t]
    ensures forall t :: t in r.db && t != PagesTable ==> t in db && !SameTable(t, PagesTable)
    ensures r.failure.None? <==> forall i :: 0 <= i < |pages| ==> pages[i].timeFetched.Some?
    ensures r.failure.None? ==>
      && |r.db[PagesTable]| == |pages|
      && forall i :: 0 <= i < |pages| ==>
        r.db[PagesTable][i] == Row(iso(pages[i].timeFetched.value), pages[i].mostRecentEditor, pages[i].markdown, pages[i].url)
    ensures r.failure.Some? ==> r.db[PagesTable] == []
  {
    var kept := map t | t in db && !SameTable(t, PagesTable) :: db[t];
    var recreated := kept[PagesTable := []];
    match Rows(pages, iso)
    case Err(e) => Persisted(recreated, Some(e))
    case Ok(rows) => Persisted(recreated[PagesTable := rows], None)
  }

  /** Complete records always persist: one row per record, no NULL field. */
  lemma CompleteRecordsPersist(db: Database, pages: seq<PageRecord>, iso: Instant -> string)
    requires forall i :: 0 <= i < |pages| ==> pages[i].IsComplete()
    ensures var r := CreateDb(db, pages, iso);
      && r.failure.None?
      && |r.db[PagesTable]| == |pages|
      && forall i :: 0 <= i < |pages| ==>
        && r.db[PagesTable][i].mostRecentEditor.Some?
        && r.db[PagesTable][i].markdown.Some?
        && r.db[PagesTable][i].url == pages[i].url
  {
  }

  /** `pages` under another spelling of its case is dropped too: only the new table remains. */
  lemma CreateDbDropsOtherCase(rows: seq<Row>, pages: seq<PageRecord>, iso: Instant -> string)
    ensures "Pages" !in CreateDb(map["Pages" := rows], pages, iso).db
    ensures CreateDb(map["Pages" := rows], pages, iso).db.Keys == {PagesTable}
  {
    assert FoldCase("Pages") == FoldCase(PagesTable) by {
      assert FoldCase("Pages")[0] == 'p';
      assert forall i :: 1 <= i < 5 ==> FoldCase("Pages")[i] == FoldCase(PagesTable)[i];
    }
  }

  /** Persisting twice leaves only the second run's rows: the first run's table
      is dropped, never appended to. */
  lemma CreateDbTwice(db: Database, first: seq<PageRecord>, second: seq<PageRecord>, iso: Instant -> string)
    ensures CreateDb(CreateDb(db, first, iso).db, second, iso) == CreateDb(db, second, iso)
  {
  }

  /** The `pages` table after persisting depends on the records alone, not on
      anything a prior run left behind. */
  lemma CreateDbForgetsPriorRun(db1: Database, db2: Database, pages: seq<PageRecord>, iso: Instant -> string)
    ensures CreateDb(db1, pages, iso).db[PagesTable] == CreateDb(db2, pages, iso).db[PagesTable]
    ensures CreateDb(db1, pages, iso).failure == CreateDb(db2, pages, iso).failure
  {
  }

  /** Titles are not stored: records that differ only in their titles persist identically. */
  lemma CreateDbIgnoresTitles(db: Database, a: seq<PageRecord>, b: seq<PageRecord>, iso: Instant -> string)
    requires |a| == |b|
    requires forall i :: 0 <= i < |a| ==> a[i].(title := b[i].title) == b[i]
    ensures CreateDb(db, a, iso) == CreateDb(db, b, iso)
  {
    RowsIgnoreTitles(a, b, iso);
  }

  /** Rendering rows never looks at a record's title. */
  lemma RowsIgnoreTitles(a: seq<PageRecord>, b: seq<PageRecord>, iso: Instant -> string)
    requires |a| == |b|
    requires forall i :: 0 <= i < |a| ==> a[i].(title := b[i].title) == b[i]
    ensures Rows(a, iso) == Rows(b, iso)
  {
    var ra, rb := Rows(a, iso), Rows(b, iso);
    assert forall i :: 0 <= i < |a| ==> a[i].timeFetched == b[i].timeFetched;
    if ra.Ok? {
      assert forall i :: 0 <= i < |a| ==> ra.value[i] == rb.value[i];
    } else {
      var x, y := ra.error.index, rb.error.index;
      assert !(x < y) && !(y < x);
    }
  }
}
