/** Selection of the most viewed articles from the ranking the API returns:
    keep real articles other than the landing page, stop at twenty, and derive
    each record's canonical URL from its title. */
module Ranking {
  import opened Wrappers
  import opened Records

  /** One entry of the `mostviewed` ranking, in rank order. */
  datatype RankItem = RankItem(title: string, ns: int)

  /** The namespace of encyclopedia articles. */
  const ArticleNamespace: int := 0
  /** The landing page is an article, but it is never selected. */
  const MainPageTitle: string := "Main Page"
  /** How many records a run keeps at most. */
  const Limit: nat := 20
  /** Base of every canonical article URL. */
  const WikiPrefix: string := "https://en.wikipedia.org/wiki/"

  /** An item is kept iff it is in the article namespace and is not the landing page. */
  predicate Qualifies(item: RankItem) {
    item.ns == ArticleNamespace && item.title != MainPageTitle
  }

  function SpaceToUnderscore(c: char): char {
    if c == ' ' then '_' else c
  }

  /** The title with every space replaced by an underscore. */
  function Underscored(title: string): (r: string)
    ensures |r| == |title|
    ensures forall i :: 0 <= i < |title| ==> r[i] == SpaceToUnderscore(title[i])
    decreases |title|
  {
    if |title| == 0 then []
    else Underscored(title[..|title| - 1]) + [SpaceToUnderscore(title[|title| - 1])]
  }

  /** The canonical article URL of a title. */
  function ArticleUrl(title: string): string {
    WikiPrefix + Underscored(title)
  }

  /** A freshly selected record: only `url` and `title` are set. */
  function BareRecord(title: string): PageRecord {
    PageRecord(None, None, None, ArticleUrl(title), title)
  }

  /** The qualifying items of a ranking, in rank order. */
  function Qualifying(items: seq<RankItem>): (q: seq<RankItem>)
    ensures |q| <= |items|
    decreases |items|
  {
    if |items| == 0 then []
    else
      var last := items[|items| - 1];
      Qualifying(items[..|items| - 1]) + (if Qualifies(last) then [last] else [])
  }

  /** Every kept item is an item of the ranking that qualifies. */
  lemma {:induction false} QualifyingSound(items: seq<RankItem>)
    ensures forall x :: x in Qualifying(items) ==> x in items && Qualifies(x)
    decreases |items|
  {
    if |items| > 0 {
      var n := |items| - 1;
      QualifyingSound(items[..n]);
      forall x | x in Qualifying(items)
        ensures x in items && Qualifies(x)
      {
        if x in Qualifying(items[..n]) {
          assert x in items[..n];
        }
      }
    }
  }

  /** The ranks (indices into `items`) of the qualifying items, ascending. */
  function Positions(items: seq<RankItem>): (ps: seq<nat>)
    ensures |ps| == |Qualifying(items)|
    ensures forall k :: 0 <= k < |ps| ==> ps[k] < |items|
    decreases |items|
  {
    if |items| == 0 then []
    else
      var n := |items| - 1;
      Positions(items[..n]) + (if Qualifies(items[n]) then [n] else [])
  }

  /** The `k`-th qualifying item sits at the `k`-th recorded rank. */
  lemma {:induction false} PositionsMatch(items: seq<RankItem>)
    ensures forall k :: 0 <= k < |Positions(items)| ==> items[Positions(items)[k]] == Qualifying(items)[k]
    decreases |items|
  {
    if |items| > 0 {
      var n := |items| - 1;
      PositionsMatch(items[..n]);
      var prev := Positions(items[..n]);
      forall k | 0 <= k < |prev|
        ensures items[prev[k]] == Qualifying(items)[k]
      {
        assert items[prev[k]] == items[..n][prev[k]];
      }
    }
  }

  /** The recorded ranks are strictly increasing. */
  lemma {:induction false} PositionsIncreasing(items: seq<RankItem>)
    ensures forall k, l :: 0 <= k < l < |Positions(items)| ==> Positions(items)[k] < Positions(items)[l]
    decreases |items|
  {
    if |items| > 0 {
      PositionsIncreasing(items[..|items| - 1]);
    }
  }

  /** A qualifying rank is recorded. */
  lemma {:induction false} PositionRecorded(items: seq<RankItem>, j: nat)
    requires j < |items| && Qualifies(items[j])
    ensures j in Positions(items)
    decreases |items|
  {
    var n := |items| - 1;
    if j < n {
      assert items[..n][j] == items[j];
      PositionRecorded(items[..n], j);
    }
  }

  /** Every qualifying rank is recorded. */
  lemma PositionsComplete(items: seq<RankItem>)
    ensures forall j :: 0 <= j < |items| && Qualifies(items[j]) ==> j in Positions(items)
  {
    forall j | 0 <= j < |items| && Qualifies(items[j])
      ensures j in Positions(items)
    {
      PositionRecorded(items, j);
    }
  }

  /** The qualifying items sit at strictly increasing ranks of the ranking, and
      every qualifying rank is among them. */
  lemma PositionsSpec(items: seq<RankItem>)
    ensures forall k :: 0 <= k < |Positions(items)| ==> items[Positions(items)[k]] == Qualifying(items)[k]
    ensures forall k, l :: 0 <= k < l < |Positions(items)| ==> Positions(items)[k] < Positions(items)[l]
    ensures forall j :: 0 <= j < |items| && Qualifies(items[j]) ==> j in Positions(items)
  {
    PositionsMatch(items);
    PositionsIncreasing(items);
    PositionsComplete(items);
  }

  /** The first `n` elements of `s`, or all of `s` when it is shorter. */
  function Take<T>(s: seq<T>, n: nat): (r: seq<T>)
    ensures |r| <= n && r <= s
    ensures |s| <= n ==> r == s
    ensures n <= |s| ==> |r| == n
  {
    if |s| <= n then s else s[..n]
  }

  /** One bare record per ranking item, in order: each carries its item's
      title and the URL derived from it, and nothing else. */
  function BareRecords(q: seq<RankItem>): (r: seq<PageRecord>)
    ensures |r| == |q|
    ensures forall k :: 0 <= k < |q| ==>
      && r[k].IsBare()
      && r[k].title == q[k].title
      && r[k].url == ArticleUrl(q[k].title)
  {
    seq(|q|, k requires 0 <= k < |q| => BareRecord(q[k].title))
  }

  /** Filter, then take: the first min(Limit, #qualifying) qualifying items as bare records.
      This is the reference definition of the selection. */
  function TopArticles(items: seq<RankItem>): seq<PageRecord> {
    BareRecords(Take(Qualifying(items), Limit))
  }

  lemma {:induction false} QualifyingAppend(a: seq<RankItem>, b: seq<RankItem>)
    ensures Qualifying(a + b) == Qualifying(a) + Qualifying(b)
    decreases |b|
  {
    if |b| == 0 {
      assert a + b == a;
    } else {
      var n := |b| - 1;
      assert (a + b)[..|a + b| - 1] == a + b[..n];
      assert (a + b)[|a + b| - 1] == b[n];
      QualifyingAppend(a, b[..n]);
    }
  }

  /** Looking at one more item of the ranking adds it to the qualifying items iff it qualifies. */
  lemma QualifyingStep(items: seq<RankItem>, i: nat)
    requires i < |items|
    ensures Qualifying(items[..i + 1])
         == Qualifying(items[..i]) + (if Qualifies(items[i]) then [items[i]] else [])
  {
    assert items[..i + 1][..i] == items[..i];
  }

  /** Once a prefix of the ranking holds twenty qualifying items, the rest of
      the ranking no longer matters. */
  lemma {:induction false} FullPrefixDecides(items: seq<RankItem>, i: nat)
    requires i <= |items|
    requires |Qualifying(items[..i])| == Limit
    ensures Take(Qualifying(items), Limit) == Qualifying(items[..i])
  {
    QualifyingAppend(items[..i], items[i..]);
    assert items[..i] + items[i..] == items;
  }

  /** Appending one item appends its bare record. */
  lemma BareRecordsSnoc(q: seq<RankItem>, x: RankItem)
    ensures BareRecords(q + [x]) == BareRecords(q) + [BareRecord(x.title)]
  {
    assert forall k :: 0 <= k < |q| ==> (q + [x])[k] == q[k];
  }

  /** The selection loop: walk the ranking, skip non-qualifying items, append a
      bare record for each qualifying one and stop as soon as twenty are held. */
  method SelectTopArticles(items: seq<RankItem>) returns (pages: seq<PageRecord>)
    ensures pages == TopArticles(items)
  {
    pages := [];
    var i := 0;
    ghost var kept: seq<RankItem> := [];
    while i < |items|
      invariant 0 <= i <= |items|
      invariant kept == Qualifying(items[..i])
      invariant |kept| < Limit
      invariant pages == BareRecords(kept)
    {
      var item := items[i];
      QualifyingStep(items, i);
      if item.ns != ArticleNamespace || item.title == MainPageTitle {
        i := i + 1;
        continue;
      }
      BareRecordsSnoc(kept, item);
      kept := kept + [item];
      pages := pages + [BareRecord(item.title)];
      if |pages| == Limit {
        FullPrefixDecides(items, i + 1);
        return;
      }
      i := i + 1;
    }
    assert items[..i] == items;
  }

  /** The selection never exceeds twenty records nor the number of qualifying
      items, and is full whenever twenty or more items qualify. */
  lemma TopArticlesCount(items: seq<RankItem>)
    ensures |TopArticles(items)| <= Limit
    ensures |TopArticles(items)| <= |Qualifying(items)|
    ensures |Qualifying(items)| >= Limit ==> |TopArticles(items)| == Limit
    ensures |Qualifying(items)| < Limit ==> |TopArticles(items)| == |Qualifying(items)|
  {
  }

  /** Every selected record is bare, carries the title of a qualifying item of
      the ranking unchanged, and has the URL derived from that title; the
      selected items keep their rank order. */
  lemma TopArticlesComeFromRanking(items: seq<RankItem>)
    ensures var r, ps := TopArticles(items), Positions(items);
      && (forall k :: 0 <= k < |r| ==>
            && r[k].IsBare()
            && r[k].url == ArticleUrl(r[k].title)
            && ps[k] < |items|
            && Qualifies(items[ps[k]])
            && r[k].title == items[ps[k]].title)
      && (forall k, l :: 0 <= k < l < |r| ==> ps[k] < ps[l])
  {
    PositionsSpec(items);
    QualifyingSound(items);
    var q := Qualifying(items);
    assert forall k :: 0 <= k < |q| ==> q[k] in q;
  }

  /** In a strictly increasing sequence, a member below the `k`-th element lies before it. */
  lemma IncreasingPrefix(ps: seq<nat>, k: nat, j: nat)
    requires k < |ps|
    requires forall a, b :: 0 <= a < b < |ps| ==> ps[a] < ps[b]
    requires j < ps[k] && j in ps
    ensures j in ps[..k]
  {
    var m :| 0 <= m < |ps| && ps[m] == j;
    assert m < k;
    assert ps[..k][m] == j;
  }

  /** No qualifying item ranked above a selected one is passed over. */
  lemma TopArticlesSkipNothing(items: seq<RankItem>)
    ensures var r, ps := TopArticles(items), Positions(items);
      forall j, k :: 0 <= k < |r| && 0 <= j < ps[k] && Qualifies(items[j]) ==> j in ps[..k]
  {
    PositionsSpec(items);
    var r, ps := TopArticles(items), Positions(items);
    forall j, k | 0 <= k < |r| && 0 <= j < ps[k] && Qualifies(items[j])
      ensures j in ps[..k]
    {
      assert j in ps;
      IncreasingPrefix(ps, k, j);
    }
  }

  /** When fewer than twenty items qualify, every qualifying item is selected. */
  lemma ShortRankingSelectsAll(items: seq<RankItem>, j: nat)
    requires j < |items| && Qualifies(items[j])
    requires |TopArticles(items)| < Limit
    ensures exists k :: 0 <= k < |TopArticles(items)| && TopArticles(items)[k].title == items[j].title
  {
    PositionsSpec(items);
    var ps := Positions(items);
    assert j in ps;
    var m :| 0 <= m < |ps| && ps[m] == j;
    assert TopArticles(items)[m].title == items[j].title;
  }

  /** The part of the URL after the prefix is as long as the title, holds no
      space, and differs from the title only where the title has a space. */
  lemma {:induction false} ArticleUrlShape(title: string)
    ensures var url := ArticleUrl(title);
      && url[..|WikiPrefix|] == WikiPrefix
      && |url[|WikiPrefix|..]| == |title|
      && ' ' !in url[|WikiPrefix|..]
      && (forall i :: 0 <= i < |title| && title[i] != ' ' ==> url[|WikiPrefix| + i] == title[i])
      && (forall i :: 0 <= i < |title| && title[i] == ' ' ==> url[|WikiPrefix| + i] == '_')
  {
    var url := ArticleUrl(title);
    assert url[|WikiPrefix|..] == Underscored(title);
  }

  /** Replacing spaces is idempotent, and leaves a title unchanged exactly when it has no space. */
  lemma UnderscoredFixedPoints(title: string)
    ensures Underscored(Underscored(title)) == Underscored(title)
    ensures Underscored(title) == title <==> ' ' !in title
  {
    var u := Underscored(title);
    if ' ' in title {
      var i :| 0 <= i < |title| && title[i] == ' ';
      assert u[i] == '_';
    }
  }
}
