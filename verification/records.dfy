/** The record loop: every article of every chapter of a parsed law becomes
    one `{title, content, citation, law}` record, whose content is the
    article rendered without citation expansion and then cleaned by the two
    truncation rules. Also the subject filter applied to the input rows. */
module Records {
  import opened Wrappers
  import opened Text
  import opened Patterns
  import opened Tree
  import opened Parser
  import opened RunFacts
  import opened Render
  import opened PostProcess

  datatype Record = Record(title: string, content: string, citation: string, law: string)

  /** The record of one article of the law `law`; the citation names the
      article, then the law. */
  function ArticleRecord(law: string, a: Article): (r: Record)
    ensures r.law == law && r.citation == r.title + " " + law
  {
    var title := ArticleLabel(a);
    Record(title, Clean(GetText(a, false)), title + " " + law, law)
  }

  /** The records of one law, one per article in the loop's order: chapters
      in order, each chapter's articles in order, Preamble entries giving
      none (that order is `AllArticles`). */
  function LawRecords(law: string, roots: seq<Entry>): seq<Record> {
    var arts := AllArticles(roots);
    seq(|arts|, i requires 0 <= i < |arts| => ArticleRecord(law, arts[i]))
  }

  /** A record of a well-formed article: its title is `Điều <n>`, its
      content is the cleaned reference rendering, and no enactment sentence
      survives in it. */
  lemma ArticleRecordOk(law: string, a: Article)
    requires ArticleOk(a)
    ensures var r := ArticleRecord(law, a);
      && r.title == "Điều " + ArticleNumber(a)
      && r.citation == "Điều " + ArticleNumber(a) + " " + law
      && r.content == Clean(JoinLines(ExpectedLines(a, false)))
      && |r.content| <= |GetText(a, false)|
      && !HasLawMarker(r.content)
  {
    ArticleLabelOk(a);
    RenderAgrees(a, false);
    CleanRendered(GetText(a, false));
  }

  /** A record title as the loop writes it: `Điều ` and an article number. */
  predicate IsArticleTitle(t: string) {
    |t| > 5 && t[..5] == "Điều " && IsArticleNumber(t[5..])
  }

  /** End to end over one law text: one record per article header line,
      each titled by its article number, cited as title and law, and free
      of the enactment sentence. */
  lemma RecordsOfText(law: string, text: string)
    ensures |LawRecords(law, Parse(text))| == Expected(Split(text)).articles
    ensures forall r | r in LawRecords(law, Parse(text)) ::
      && IsArticleTitle(r.title)
      && r.citation == r.title + " " + law
      && !HasLawMarker(r.content)
  {
    var roots := Parse(text);
    ParseAgrees(text);
    var arts := AllArticles(roots);
    var recs := LawRecords(law, roots);
    forall r | r in recs
      ensures IsArticleTitle(r.title) && r.citation == r.title + " " + law && !HasLawMarker(r.content)
    {
      var i :| 0 <= i < |recs| && recs[i] == r;
      AllArticlesOk(roots, i);
      ArticleRecordOk(law, arts[i]);
      assert ("Điều " + ArticleNumber(arts[i]))[5..] == ArticleNumber(arts[i]);
    }
  }

  /** Every article collected from well-formed entries is well-formed. */
  lemma {:induction false} AllArticlesOk(roots: seq<Entry>, i: nat)
    requires RootsOk(roots) && i < |AllArticles(roots)|
    ensures ArticleOk(AllArticles(roots)[i])
  {
    var init := roots[..|roots| - 1];
    var e := roots[|roots| - 1];
    var before := AllArticles(init);
    assert RootsOk(init) by {
      forall k | 0 <= k < |init| ensures EntryOk(init[k]) { assert init[k] == roots[k]; }
    }
    assert EntryOk(e);
    if i < |before| {
      AllArticlesOk(init, i);
    } else {
      assert AllArticles(roots)[i] == e.articles[i - |before|];
    }
  }

  // ---------------------------------------------------------------------
  // The subject filter.

  datatype Row = Row(subject: string, text: string)

  const Newest: string := "mới nhất"
  const Amending: string := "sửa đổi"

  /** A law is indexed when its subject says it is the newest version and
      does not say it amends another law. */
  predicate KeepSubject(subject: string) {
    Contains(subject, Newest) && !Contains(subject, Amending)
  }

  /** The rows whose subject passes, in their original order. */
  function FilterRows(rows: seq<Row>): (r: seq<Row>)
    ensures |r| <= |rows|
    ensures forall i | 0 <= i < |r| :: KeepSubject(r[i].subject)
  {
    if |rows| == 0 then []
    else
      var x := rows[|rows| - 1];
      FilterRows(rows[..|rows| - 1]) + (if KeepSubject(x.subject) then [x] else [])
  }

  /** A row survives the filter exactly when it is one of the input rows and
      its subject passes. */
  lemma {:induction false} FilterRowsMembers(rows: seq<Row>)
    ensures forall x :: x in FilterRows(rows) <==> x in rows && KeepSubject(x.subject)
  {
    if |rows| > 0 {
      var init := rows[..|rows| - 1];
      var x := rows[|rows| - 1];
      FilterRowsMembers(init);
      assert forall y :: y in rows <==> y in init || y == x by {
        assert rows == init + [x];
      }
    }
  }

  /** Filtering is row by row: it distributes over concatenation. */
  lemma {:induction false} FilterRowsAppend(xs: seq<Row>, ys: seq<Row>)
    ensures FilterRows(xs + ys) == FilterRows(xs) + FilterRows(ys)
    decreases |ys|
  {
    if |ys| == 0 {
      assert xs + ys == xs;
    } else {
      var init := ys[..|ys| - 1];
      var y := ys[|ys| - 1];
      FilterRowsAppend(xs, init);
      assert (xs + ys)[..|xs + ys| - 1] == xs + init;
      assert (xs + ys)[|xs + ys| - 1] == y;
    }
  }

  /** Filtering twice is filtering once. */
  lemma {:induction false} FilterRowsIdempotent(rows: seq<Row>)
    ensures FilterRows(FilterRows(rows)) == FilterRows(rows)
  {
    if |rows| > 0 {
      var init := rows[..|rows| - 1];
      var x := rows[|rows| - 1];
      var kept := if KeepSubject(x.subject) then [x] else [];
      FilterRowsIdempotent(init);
      FilterRowsAppend(FilterRows(init), kept);
      if KeepSubject(x.subject) {
        assert [x][..0] == [];
      }
    }
  }
}
