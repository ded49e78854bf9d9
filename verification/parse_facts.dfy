/** What one step of `parse_text` does to the tree, and what the whole fold
    guarantees: where a line's text lands in document order, which lines
    create nodes, that nothing already built is reordered or removed, and
    the shape of every key the parser writes. */
module ParseFacts {
  import opened Wrappers
  import opened Text
  import opened Patterns
  import opened Tree
  import opened Parser

  // ---------------------------------------------------------------------
  // Document order. The open chapter, article, clause and point are the
  // last nodes of the document, so replacing one only changes the tail of
  // `Texts`.

  lemma SetChapterTexts(b: Builder, ch: Entry)
    requires Valid(b) && b.chapter.Some?
    ensures Texts(b.roots) == Texts(b.roots[..|b.roots| - 1]) + EntryText(OpenChapter(b))
    ensures Texts(SetChapter(b, ch)) == Texts(b.roots[..|b.roots| - 1]) + EntryText(ch)
  {
    var n := |b.roots|;
    assert SetChapter(b, ch)[..n - 1] == b.roots[..n - 1];
  }

  /** The texts of a chapter (article, clause) end with those of its last
      child, and replacing that child only changes that tail. */
  lemma EntryTextLast(ch: Entry, i: nat, a: Article)
    requires ch.Chapter? && i == |ch.articles| - 1
    ensures var arts := ch.articles; var pre := [ch.title, ch.content.GetOr("")] + ArticleTexts(arts[..i]);
      && EntryText(ch) == pre + ArticleText(arts[i])
      && EntryText(ch.(articles := arts[i := a])) == pre + ArticleText(a)
  {
    var arts := ch.articles;
    assert arts[i := a][..i] == arts[..i];
  }

  lemma ArticleTextLast(a: Article, i: nat, c: Clause)
    requires i == |a.clauses| - 1
    ensures var cs := a.clauses; var pre := [a.key, a.content] + ClauseTexts(cs[..i]);
      && ArticleText(a) == pre + ClauseText(cs[i])
      && ArticleText(a.(clauses := cs[i := c])) == pre + ClauseText(c)
  {
    var cs := a.clauses;
    assert cs[i := c][..i] == cs[..i];
  }

  lemma ClauseTextLast(c: Clause, i: nat, p: Point)
    requires i == |c.points| - 1
    ensures var ps := c.points; var pre := [c.key, c.content] + PointTexts(ps[..i]);
      && ClauseText(c) == pre + [ps[i].key, ps[i].content]
      && ClauseText(c.(points := ps[i := p])) == pre + [p.key, p.content]
  {
    var ps := c.points;
    assert ps[i := p][..i] == ps[..i];
  }

  /** The texts before the open article (chapter, clause, point). */
  function ChapterPrefix(b: Builder): seq<string>
    requires Valid(b) && b.chapter.Some?
  {
    Texts(b.roots[..|b.roots| - 1])
  }

  function ArticlePrefix(b: Builder): seq<string>
    requires Valid(b) && b.article.Some?
  {
    var ch := OpenChapter(b);
    ChapterPrefix(b) + [ch.title, ch.content.GetOr("")] + ArticleTexts(ch.articles[..|ch.articles| - 1])
  }

  function ClausePrefix(b: Builder): seq<string>
    requires Valid(b) && b.clause.Some?
  {
    var a := OpenArticle(b);
    ArticlePrefix(b) + [a.key, a.content] + ClauseTexts(a.clauses[..|a.clauses| - 1])
  }

  function PointPrefix(b: Builder): seq<string>
    requires Valid(b) && b.point.Some?
  {
    var c := OpenClause(b);
    ClausePrefix(b) + [c.key, c.content] + PointTexts(c.points[..|c.points| - 1])
  }

  /** Regrouping a four-part concatenation; proved on its own, outside the
      builder facts that make the same step expensive in context. */
  lemma Assoc3<T>(a: seq<T>, b: seq<T>, c: seq<T>, d: seq<T>)
    ensures a + ((b + c) + d) == ((a + b) + c) + d
  {
  }

  lemma OpenArticleTexts(b: Builder)
    requires Valid(b) && b.article.Some?
    ensures Texts(b.roots) == ArticlePrefix(b) + ArticleText(OpenArticle(b))
  {
    var ch := OpenChapter(b);
    var i := b.article.value;
    SetChapterTexts(b, ch);
    EntryTextLast(ch, i, OpenArticle(b));
    Assoc3(ChapterPrefix(b), [ch.title, ch.content.GetOr("")], ArticleTexts(ch.articles[..i]), ArticleText(OpenArticle(b)));
  }

  lemma SetArticleTexts(b: Builder, a: Article)
    requires Valid(b) && b.article.Some?
    ensures Texts(SetArticle(b, a)) == ArticlePrefix(b) + ArticleText(a)
  {
    var ch := OpenChapter(b);
    var i := b.article.value;
    SetChapterTexts(b, ch.(articles := ch.articles[i := a]));
    EntryTextLast(ch, i, a);
    Assoc3(ChapterPrefix(b), [ch.title, ch.content.GetOr("")], ArticleTexts(ch.articles[..i]), ArticleText(a));
  }

  lemma OpenClauseTexts(b: Builder)
    requires Valid(b) && b.clause.Some?
    ensures Texts(b.roots) == ClausePrefix(b) + ClauseText(OpenClause(b))
  {
    var a := OpenArticle(b);
    var i := b.clause.value;
    OpenArticleTexts(b);
    ArticleTextLast(a, i, OpenClause(b));
    Assoc3(ArticlePrefix(b), [a.key, a.content], ClauseTexts(a.clauses[..i]), ClauseText(OpenClause(b)));
  }

  lemma SetClauseTexts(b: Builder, c: Clause)
    requires Valid(b) && b.clause.Some?
    ensures Texts(SetClause(b, c)) == ClausePrefix(b) + ClauseText(c)
  {
    var a := OpenArticle(b);
    var i := b.clause.value;
    SetArticleTexts(b, a.(clauses := a.clauses[i := c]));
    ArticleTextLast(a, i, c);
    Assoc3(ArticlePrefix(b), [a.key, a.content], ClauseTexts(a.clauses[..i]), ClauseText(c));
  }

  lemma OpenPointTexts(b: Builder)
    requires Valid(b) && b.point.Some?
    ensures Texts(b.roots) == PointPrefix(b) + [OpenPoint(b).key, OpenPoint(b).content]
  {
    var c := OpenClause(b);
    var i := b.point.value;
    OpenClauseTexts(b);
    ClauseTextLast(c, i, OpenPoint(b));
    Assoc3(ClausePrefix(b), [c.key, c.content], PointTexts(c.points[..i]), [OpenPoint(b).key, OpenPoint(b).content]);
  }

  lemma SetPointTexts(b: Builder, p: Point)
    requires Valid(b) && b.point.Some?
    ensures Texts(SetPoint(b, p)) == PointPrefix(b) + [p.key, p.content]
  {
    var c := OpenClause(b);
    var i := b.point.value;
    SetClauseTexts(b, c.(points := c.points[i := p]));
    ClauseTextLast(c, i, p);
    Assoc3(ClausePrefix(b), [c.key, c.content], PointTexts(c.points[..i]), [p.key, p.content]);
  }

  lemma AppendLastAfter(pre: seq<string>, x: string, y: string, t: string)
    ensures AppendLast(pre + [x, y], t) == pre + [x, y + t]
  {
  }

  lemma ContinuePointTexts(b: Builder, t: string)
    requires Valid(b) && b.point.Some?
    ensures var p := OpenPoint(b);
      Texts(SetPoint(b, p.(content := p.content + t))) == AppendLast(Texts(b.roots), t)
  {
    var p := OpenPoint(b);
    OpenPointTexts(b);
    SetPointTexts(b, p.(content := p.content + t));
    AppendLastAfter(PointPrefix(b), p.key, p.content, t);
  }

  lemma ClauseTextAppend(pre: seq<string>, c: Clause, t: string)
    requires |c.points| == 0
    ensures AppendLast(pre + ClauseText(c), t) == pre + ClauseText(c.(content := c.content + t))
  {
    assert ClauseText(c) == [c.key, c.content];
    AppendLastAfter(pre, c.key, c.content, t);
  }

  lemma ArticleTextAppend(pre: seq<string>, a: Article, t: string)
    requires |a.clauses| == 0
    ensures AppendLast(pre + ArticleText(a), t) == pre + ArticleText(a.(content := a.content + t))
  {
    assert ArticleText(a) == [a.key, a.content];
    AppendLastAfter(pre, a.key, a.content, t);
  }

  lemma EntryTextAppend(pre: seq<string>, ch: Entry, t: string)
    requires ch.Chapter? && |ch.articles| == 0
    ensures AppendLast(pre + EntryText(ch), t) == pre + EntryText(ch.(content := Some(ch.content.GetOr("") + t)))
  {
    assert EntryText(ch) == [ch.title, ch.content.GetOr("")];
    AppendLastAfter(pre, ch.title, ch.content.GetOr(""), t);
  }

  lemma ContinueClauseTexts(b: Builder, t: string)
    requires Valid(b) && b.clause.Some? && b.point.None?
    ensures var c := OpenClause(b);
      Texts(SetClause(b, c.(content := c.content + t))) == AppendLast(Texts(b.roots), t)
  {
    var c := OpenClause(b);
    assert |c.points| == 0;
    OpenClauseTexts(b);
    SetClauseTexts(b, c.(content := c.content + t));
    ClauseTextAppend(ClausePrefix(b), c, t);
  }

  lemma ContinueArticleTexts(b: Builder, t: string)
    requires Valid(b) && b.article.Some? && b.clause.None?
    ensures var a := OpenArticle(b);
      Texts(SetArticle(b, a.(content := a.content + t))) == AppendLast(Texts(b.roots), t)
  {
    var a := OpenArticle(b);
    assert |a.clauses| == 0;
    OpenArticleTexts(b);
    SetArticleTexts(b, a.(content := a.content + t));
    ArticleTextAppend(ArticlePrefix(b), a, t);
  }

  lemma ContinueChapterTexts(b: Builder, t: string)
    requires Valid(b) && b.chapter.Some? && b.article.None?
    ensures var ch := OpenChapter(b);
      Texts(SetChapter(b, ch.(content := Some(ch.content.GetOr("") + t)))) == AppendLast(Texts(b.roots), t)
  {
    var ch := OpenChapter(b);
    assert |ch.articles| == 0;
    SetChapterTexts(b, ch.(content := Some(ch.content.GetOr("") + t)));
    EntryTextAppend(ChapterPrefix(b), ch, t);
  }

  /** With a chapter open the document ends with that chapter's texts. */
  lemma OpenChapterNonEmpty(b: Builder)
    requires Valid(b) && b.chapter.Some?
    ensures |Texts(b.roots)| >= 2
  {
    SetChapterTexts(b, OpenChapter(b));
  }

  /** A plain line lands at the very end of the document: it extends the last
      text when a chapter is open (the innermost open node is always the last
      node), and otherwise becomes a new text of its own. */
  lemma AppendPlainTexts(b: Builder, line: string)
    requires Valid(b)
    ensures b.chapter.Some? ==> |Texts(b.roots)| >= 2
    ensures Texts(AppendPlain(b, line)) ==
      if b.chapter.Some? then AppendLast(Texts(b.roots), " " + line) else Texts(b.roots) + [line]
  {
    var t := " " + line;
    if b.point.Some? {
      OpenChapterNonEmpty(b);
      ContinuePointTexts(b, t);
    } else if b.clause.Some? {
      OpenChapterNonEmpty(b);
      ContinueClauseTexts(b, t);
    } else if b.article.Some? {
      OpenChapterNonEmpty(b);
      ContinueArticleTexts(b, t);
    } else if b.chapter.Some? {
      OpenChapterNonEmpty(b);
      ContinueChapterTexts(b, t);
    } else {
      assert (b.roots + [Preamble(line)])[..|b.roots|] == b.roots;
    }
  }

  lemma TextsSnoc(roots: seq<Entry>, e: Entry)
    ensures Texts(roots + [e]) == Texts(roots) + EntryText(e)
  {
    assert (roots + [e])[..|roots|] == roots;
  }

  lemma ArticleTextsSnoc(arts: seq<Article>, a: Article)
    ensures ArticleTexts(arts + [a]) == ArticleTexts(arts) + ArticleText(a)
  {
    assert (arts + [a])[..|arts|] == arts;
  }

  lemma ClauseTextsSnoc(cs: seq<Clause>, c: Clause)
    ensures ClauseTexts(cs + [c]) == ClauseTexts(cs) + ClauseText(c)
  {
    assert (cs + [c])[..|cs|] == cs;
  }

  lemma PointTextsSnoc(ps: seq<Point>, p: Point)
    ensures PointTexts(ps + [p]) == PointTexts(ps) + [p.key, p.content]
  {
    assert (ps + [p])[..|ps|] == ps;
  }

  lemma NewChapterTexts(b: Builder, title: string)
    requires Valid(b)
    ensures Texts(Apply(b, NewChapter(title)).roots) == Texts(b.roots) + [title, ""]
  {
    TextsSnoc(b.roots, Chapter(title, [], None));
  }

  /** The texts of a chapter with one more article. */
  lemma EntryTextAddArticle(pre: seq<string>, ch: Entry, n: string, c: string)
    requires ch.Chapter?
    ensures pre + EntryText(ch.(articles := ch.articles + [Article(ArticleKey(n), c, [])]))
         == pre + EntryText(ch) + [ArticleKey(n), c]
  {
    var a := Article(ArticleKey(n), c, []);
    ArticleTextsSnoc(ch.articles, a);
    assert ArticleText(a) == [ArticleKey(n), c];
  }

  lemma NewArticleTexts(b: Builder, n: string, c: string)
    requires Valid(b)
    ensures Texts(Apply(b, NewArticle(n, c)).roots) ==
      Texts(b.roots) + (if b.chapter.None? then [DefaultChapterTitle, ""] else []) + [ArticleKey(n), c]
  {
    if b.chapter.None? {
      FirstArticleTexts(b, n, c);
    } else {
      AddArticleTexts(b, n, c);
      assert Texts(b.roots) + [] == Texts(b.roots);
    }
  }

  /** An article before any chapter opens "Chuong 0" first. */
  lemma FirstArticleTexts(b: Builder, n: string, c: string)
    requires Valid(b) && b.chapter.None?
    ensures Texts(Apply(b, NewArticle(n, c)).roots) == Texts(b.roots) + [DefaultChapterTitle, ""] + [ArticleKey(n), c]
  {
    var a := Article(ArticleKey(n), c, []);
    var ch := Chapter(DefaultChapterTitle, [], None);
    assert Apply(b, NewArticle(n, c)).roots == b.roots + [ch.(articles := [a])];
    TextsSnoc(b.roots, ch.(articles := [a]));
    EntryTextAddArticle([], ch, n, c);
    assert EntryText(ch) == [DefaultChapterTitle, ""];
  }

  /** Adding an article to the open chapter appends its key and content. */
  lemma AddArticleTexts(b: Builder, n: string, c: string)
    requires Valid(b) && b.chapter.Some?
    ensures Texts(Apply(b, NewArticle(n, c)).roots) == Texts(b.roots) + [ArticleKey(n), c]
  {
    var ch := OpenChapter(b);
    var a := Article(ArticleKey(n), c, []);
    assert Apply(b, NewArticle(n, c)).roots == SetChapter(b, ch.(articles := ch.articles + [a]));
    SetChapterTexts(b, ch);
    SetChapterTexts(b, ch.(articles := ch.articles + [a]));
    EntryTextAddArticle(ChapterPrefix(b), ch, n, c);
  }

  lemma ArticleTextAddClause(pre: seq<string>, a: Article, n: string, c: string)
    ensures pre + ArticleText(a.(clauses := a.clauses + [Clause(ClauseKey(n), c, [])]))
         == pre + ArticleText(a) + [ClauseKey(n), c]
  {
    var cl := Clause(ClauseKey(n), c, []);
    ClauseTextsSnoc(a.clauses, cl);
    assert ClauseText(cl) == [ClauseKey(n), c];
  }

  lemma NewClauseTexts(b: Builder, n: string, c: string)
    requires Valid(b) && b.article.Some?
    ensures Texts(Apply(b, NewClause(n, c)).roots) == Texts(b.roots) + [ClauseKey(n), c]
  {
    var a := OpenArticle(b);
    assert Apply(b, NewClause(n, c)).roots == SetArticle(b, a.(clauses := a.clauses + [Clause(ClauseKey(n), c, [])]));
    OpenArticleTexts(b);
    SetArticleTexts(b, a.(clauses := a.clauses + [Clause(ClauseKey(n), c, [])]));
    ArticleTextAddClause(ArticlePrefix(b), a, n, c);
  }

  lemma ClauseTextAddPoint(pre: seq<string>, cl: Clause, g: string, c: string)
    ensures pre + ClauseText(cl.(points := cl.points + [Point(PointKey(g), c)]))
         == pre + ClauseText(cl) + [PointKey(g), c]
  {
    PointTextsSnoc(cl.points, Point(PointKey(g), c));
  }

  lemma NewPointTexts(b: Builder, g: string, c: string)
    requires Valid(b) && b.clause.Some?
    ensures Texts(Apply(b, NewPoint(g, c)).roots) == Texts(b.roots) + [PointKey(g), c]
  {
    var cl := OpenClause(b);
    assert Apply(b, NewPoint(g, c)).roots == SetClause(b, cl.(points := cl.points + [Point(PointKey(g), c)]));
    OpenClauseTexts(b);
    SetClauseTexts(b, cl.(points := cl.points + [Point(PointKey(g), c)]));
    ClauseTextAddPoint(ClausePrefix(b), cl, g, c);
  }

  /** The effect of each action on the document order: a new node adds its
      key and inline content at the end (a synthesized "Chuong 0" chapter
      comes first when an article has no chapter), and a plain line extends
      the last text or, before any chapter, adds one. */
  lemma ApplyTexts(b: Builder, act: Action)
    requires Valid(b) && Allowed(b, act)
    ensures b.chapter.Some? ==> |Texts(b.roots)| >= 2
    ensures Texts(Apply(b, act).roots) ==
      match act
      case Skip => Texts(b.roots)
      case NewChapter(title) => Texts(b.roots) + [title, ""]
      case NewArticle(n, c) =>
        Texts(b.roots) + (if b.chapter.None? then [DefaultChapterTitle, ""] else []) + [ArticleKey(n), c]
      case NewClause(n, c) => Texts(b.roots) + [ClauseKey(n), c]
      case NewPoint(g, c) => Texts(b.roots) + [PointKey(g), c]
      case Continue(line) =>
        if b.chapter.Some? then AppendLast(Texts(b.roots), " " + line) else Texts(b.roots) + [line]
  {
    if b.chapter.Some? {
      OpenChapterNonEmpty(b);
    }
    match act
    case Skip =>
    case NewChapter(title) => NewChapterTexts(b, title);
    case NewArticle(n, c) => NewArticleTexts(b, n, c);
    case NewClause(n, c) => NewClauseTexts(b, n, c);
    case NewPoint(g, c) => NewPointTexts(b, g, c);
    case Continue(line) => AppendPlainTexts(b, line);
  }

  // ---------------------------------------------------------------------
  // Node counts.

  lemma NumClausesSnoc(pre: seq<Article>, a: Article)
    ensures NumClauses(pre + [a]) == NumClauses(pre) + |a.clauses|
    ensures NumPoints(pre + [a]) == NumPoints(pre) + PointsIn(a.clauses)
  {
    assert (pre + [a])[..|pre|] == pre;
  }

  lemma PointsInSnoc(pre: seq<Clause>, c: Clause)
    ensures PointsIn(pre + [c]) == PointsIn(pre) + |c.points|
  {
    assert (pre + [c])[..|pre|] == pre;
  }

  /** Replacing the last clause changes the point count by the difference. */
  lemma PointsInSetLast(cs: seq<Clause>, i: nat, c: Clause)
    requires i == |cs| - 1
    ensures PointsIn(cs[i := c]) + |cs[i].points| == PointsIn(cs) + |c.points|
  {
    assert cs[i := c] == cs[..i] + [c];
    assert cs == cs[..i] + [cs[i]];
    PointsInSnoc(cs[..i], c);
    PointsInSnoc(cs[..i], cs[i]);
  }

  /** A new root entry adds its own chapter and its articles to the tally. */
  lemma TallySnoc(roots: seq<Entry>, e: Entry)
    requires e.Chapter? ==> |e.articles| <= 1 && forall i | 0 <= i < |e.articles| :: e.articles[i].clauses == []
    ensures var t := TallyOf(roots);
      TallyOf(roots + [e]) ==
        if e.Chapter? then Tally(t.chapters + 1, t.articles + |e.articles|, t.clauses, t.points) else t
  {
    assert (roots + [e])[..|roots|] == roots;
    var arts := AllArticles(roots);
    if e.Chapter? {
      assert AllArticles(roots + [e]) == arts + e.articles;
      if |e.articles| == 1 {
        var a := e.articles[0];
        assert e.articles == [a];
        assert |a.clauses| == 0 && PointsIn(a.clauses) == 0;
        NumClausesSnoc(arts, a);
      } else {
        assert arts + e.articles == arts;
      }
    } else {
      assert AllArticles(roots + [e]) == arts;
    }
  }

  /** The articles before the open one, in order. */
  function ArticlesBefore(b: Builder): seq<Article>
    requires Valid(b) && b.article.Some?
  {
    AllArticles(b.roots[..|b.roots| - 1]) + OpenChapter(b).articles[..b.article.value]
  }

  lemma SetChapterTally(b: Builder, ch: Entry)
    requires Valid(b) && b.chapter.Some? && ch.Chapter?
    ensures AllArticles(b.roots) == AllArticles(b.roots[..|b.roots| - 1]) + OpenChapter(b).articles
    ensures AllArticles(SetChapter(b, ch)) == AllArticles(b.roots[..|b.roots| - 1]) + ch.articles
    ensures NumChapters(SetChapter(b, ch)) == NumChapters(b.roots)
  {
    var n := |b.roots|;
    assert SetChapter(b, ch)[..n - 1] == b.roots[..n - 1];
  }

  lemma OpenArticleAll(b: Builder)
    requires Valid(b) && b.article.Some?
    ensures AllArticles(b.roots) == ArticlesBefore(b) + [OpenArticle(b)]
  {
    var ch := OpenChapter(b);
    var i := b.article.value;
    SetChapterTally(b, ch);
    assert ch.articles == ch.articles[..i] + [ch.articles[i]];
  }

  lemma SetArticleAll(b: Builder, a: Article)
    requires Valid(b) && b.article.Some?
    ensures AllArticles(SetArticle(b, a)) == ArticlesBefore(b) + [a]
    ensures NumChapters(SetArticle(b, a)) == NumChapters(b.roots)
  {
    var ch := OpenChapter(b);
    var i := b.article.value;
    SetChapterTally(b, ch.(articles := ch.articles[i := a]));
    assert ch.articles[i := a] == ch.articles[..i] + [a];
  }

  /** Replacing the open article by one with `dc` more clauses and `dp` more
      points moves the tally by exactly that. */
  lemma SetArticleTally(b: Builder, a: Article, dc: nat, dp: nat)
    requires Valid(b) && b.article.Some?
    requires |a.clauses| == |OpenArticle(b).clauses| + dc
    requires PointsIn(a.clauses) == PointsIn(OpenArticle(b).clauses) + dp
    ensures var t := TallyOf(b.roots);
      TallyOf(SetArticle(b, a)) == Tally(t.chapters, t.articles, t.clauses + dc, t.points + dp)
  {
    OpenArticleAll(b);
    SetArticleAll(b, a);
    NumClausesSnoc(ArticlesBefore(b), a);
    NumClausesSnoc(ArticlesBefore(b), OpenArticle(b));
  }

  lemma NewArticleCounts(b: Builder, n: string, c: string)
    requires Valid(b)
    ensures var t := TallyOf(b.roots);
      TallyOf(Apply(b, NewArticle(n, c)).roots) ==
        Tally(t.chapters + (if b.chapter.None? then 1 else 0), t.articles + 1, t.clauses, t.points)
  {
    var a := Article(ArticleKey(n), c, []);
    if b.chapter.None? {
      var e := Chapter(DefaultChapterTitle, [a], None);
      assert Apply(b, NewArticle(n, c)).roots == b.roots + [e];
      TallySnoc(b.roots, e);
    } else {
      var ch := OpenChapter(b);
      assert Apply(b, NewArticle(n, c)).roots == SetChapter(b, ch.(articles := ch.articles + [a]));
      AddArticleTally(b, a);
    }
  }

  /** Adding an article without clauses to the open chapter adds one
      article and nothing else. */
  lemma AddArticleTally(b: Builder, a: Article)
    requires Valid(b) && b.chapter.Some? && a.clauses == []
    ensures var t := TallyOf(b.roots); var ch := OpenChapter(b);
      TallyOf(SetChapter(b, ch.(articles := ch.articles + [a]))) ==
        Tally(t.chapters, t.articles + 1, t.clauses, t.points)
  {
    var ch := OpenChapter(b);
    var ch' := ch.(articles := ch.articles + [a]);
    var pre := AllArticles(b.roots[..|b.roots| - 1]);
    SetChapterTally(b, ch);
    SetChapterTally(b, ch');
    var all := pre + ch.articles;
    assert pre + ch'.articles == all + [a];
    NumClausesSnoc(all, a);
    assert PointsIn(a.clauses) == 0;
  }

  lemma NewClauseCounts(b: Builder, n: string, c: string)
    requires Valid(b) && b.article.Some?
    ensures var t := TallyOf(b.roots);
      TallyOf(Apply(b, NewClause(n, c)).roots) == Tally(t.chapters, t.articles, t.clauses + 1, t.points)
  {
    var a := OpenArticle(b);
    var cl := Clause(ClauseKey(n), c, []);
    PointsInSnoc(a.clauses, cl);
    SetArticleTally(b, a.(clauses := a.clauses + [cl]), 1, 0);
  }

  /** Replacing the open clause by one with `dp` more points. */
  lemma SetClauseTally(b: Builder, c: Clause, dp: nat)
    requires Valid(b) && b.clause.Some?
    requires |c.points| == |OpenClause(b).points| + dp
    ensures var t := TallyOf(b.roots);
      TallyOf(SetClause(b, c)) == Tally(t.chapters, t.articles, t.clauses, t.points + dp)
  {
    var a := OpenArticle(b);
    PointsInSetLast(a.clauses, b.clause.value, c);
    SetArticleTally(b, a.(clauses := a.clauses[b.clause.value := c]), 0, dp);
  }

  lemma NewPointCounts(b: Builder, g: string, c: string)
    requires Valid(b) && b.clause.Some?
    ensures var t := TallyOf(b.roots);
      TallyOf(Apply(b, NewPoint(g, c)).roots) == Tally(t.chapters, t.articles, t.clauses, t.points + 1)
  {
    var cl := OpenClause(b);
    SetClauseTally(b, cl.(points := cl.points + [Point(PointKey(g), c)]), 1);
  }

  lemma ContinueCounts(b: Builder, line: string)
    requires Valid(b)
    ensures TallyOf(AppendPlain(b, line)) == TallyOf(b.roots)
  {
    var t := " " + line;
    if b.point.Some? {
      var c := OpenClause(b);
      var p := OpenPoint(b);
      SetClauseTally(b, c.(points := c.points[b.point.value := p.(content := p.content + t)]), 0);
    } else if b.clause.Some? {
      var c := OpenClause(b);
      SetClauseTally(b, c.(content := c.content + t), 0);
    } else if b.article.Some? {
      var a := OpenArticle(b);
      SetArticleTally(b, a.(content := a.content + t), 0, 0);
    } else if b.chapter.Some? {
      var ch := OpenChapter(b);
      SetChapterTally(b, ch);
      SetChapterTally(b, ch.(content := Some(ch.content.GetOr("") + t)));
    } else {
      TallySnoc(b.roots, Preamble(line));
    }
  }

  /** Only the matching action creates a node, and each creates exactly one
      (plus the synthesized chapter of an article with no open chapter). */
  lemma ApplyCounts(b: Builder, act: Action)
    requires Valid(b) && Allowed(b, act)
    ensures var t := TallyOf(b.roots); var t' := TallyOf(Apply(b, act).roots);
      && t'.articles == t.articles + (if act.NewArticle? then 1 else 0)
      && t'.clauses == t.clauses + (if act.NewClause? then 1 else 0)
      && t'.points == t.points + (if act.NewPoint? then 1 else 0)
      && t'.chapters == t.chapters + (if act.NewChapter? || (act.NewArticle? && b.chapter.None?) then 1 else 0)
  {
    match act
    case Skip =>
    case NewChapter(title) => TallySnoc(b.roots, Chapter(title, [], None));
    case NewArticle(n, c) => NewArticleCounts(b, n, c);
    case NewClause(n, c) => NewClauseCounts(b, n, c);
    case NewPoint(g, c) => NewPointCounts(b, g, c);
    case Continue(line) => ContinueCounts(b, line);
  }

  // ---------------------------------------------------------------------
  // Growth only.

  lemma GrowsArticleRefl(a: Article)
    ensures GrowsArticle(a, a)
  {
    forall k | 0 <= k < |a.clauses| ensures GrowsClause(a.clauses[k], a.clauses[k]) { }
  }

  lemma SetChapterGrows(b: Builder, ch: Entry)
    requires Valid(b) && b.chapter.Some?
    requires GrowsEntry(OpenChapter(b), ch)
    ensures Grows(b.roots, SetChapter(b, ch))
  {
    GrowsRefl(b.roots);
  }

  lemma SetArticleGrows(b: Builder, a: Article)
    requires Valid(b) && b.article.Some?
    requires GrowsArticle(OpenArticle(b), a)
    ensures Grows(b.roots, SetArticle(b, a))
  {
    var ch := OpenChapter(b);
    forall i | 0 <= i < |ch.articles| - 1 ensures GrowsArticle(ch.articles[i], ch.articles[i]) {
      GrowsArticleRefl(ch.articles[i]);
    }
    SetChapterGrows(b, ch.(articles := ch.articles[b.article.value := a]));
  }

  lemma SetClauseGrows(b: Builder, c: Clause)
    requires Valid(b) && b.clause.Some?
    requires GrowsClause(OpenClause(b), c)
    ensures Grows(b.roots, SetClause(b, c))
  {
    var a := OpenArticle(b);
    SetArticleGrows(b, a.(clauses := a.clauses[b.clause.value := c]));
  }

  lemma SetPointGrows(b: Builder, p: Point)
    requires Valid(b) && b.point.Some?
    requires GrowsPoint(OpenPoint(b), p)
    ensures Grows(b.roots, SetPoint(b, p))
  {
    var c := OpenClause(b);
    SetClauseGrows(b, c.(points := c.points[b.point.value := p]));
  }

  lemma AppendEntryGrows(roots: seq<Entry>, e: Entry)
    ensures Grows(roots, roots + [e])
  {
    GrowsRefl(roots);
  }

  /** No action reorders or removes anything already built: lists only grow
      at their end, keys never change and contents only grow. */
  lemma {:induction false} ApplyGrows(b: Builder, act: Action)
    requires Valid(b) && Allowed(b, act)
    ensures Grows(b.roots, Apply(b, act).roots)
  {
    match act
    case Skip =>
      GrowsRefl(b.roots);
    case NewChapter(title) =>
      AppendEntryGrows(b.roots, Chapter(title, [], None));
    case NewArticle(n, c) =>
      var a := Article(ArticleKey(n), c, []);
      if b.chapter.None? {
        AppendEntryGrows(b.roots, Chapter(DefaultChapterTitle, [a], None));
      } else {
        var ch := OpenChapter(b);
        forall i | 0 <= i < |ch.articles| ensures GrowsArticle(ch.articles[i], (ch.articles + [a])[i]) {
          GrowsArticleRefl(ch.articles[i]);
        }
        SetChapterGrows(b, ch.(articles := ch.articles + [a]));
      }
    case NewClause(n, c) =>
      var a := OpenArticle(b);
      var a' := a.(clauses := a.clauses + [Clause(ClauseKey(n), c, [])]);
      GrowsArticleRefl(a);
      SetArticleGrows(b, a');
    case NewPoint(g, c) =>
      var cl := OpenClause(b);
      SetClauseGrows(b, cl.(points := cl.points + [Point(PointKey(g), c)]));
    case Continue(line) =>
      var t := " " + line;
      if b.point.Some? {
        var p := OpenPoint(b);
        SetPointGrows(b, p.(content := p.content + t));
      } else if b.clause.Some? {
        var c := OpenClause(b);
        SetClauseGrows(b, c.(content := c.content + t));
      } else if b.article.Some? {
        var a := OpenArticle(b);
        GrowsArticleRefl(a);
        SetArticleGrows(b, a.(content := a.content + t));
      } else if b.chapter.Some? {
        var ch := OpenChapter(b);
        SetChapterGrows(b, ch.(content := Some(ch.content.GetOr("") + t)));
      } else {
        AppendEntryGrows(b.roots, Preamble(line));
      }
  }

  // ---------------------------------------------------------------------
  // Shape of what the parser stores.

  /** What a line without line breaks can produce: keys in the shape the
      patterns capture and texts without line breaks. */
  predicate ActionOk(act: Action) {
    match act
    case Skip => true
    case NewChapter(title) => NoNewline(title)
    case NewArticle(n, c) => IsArticleNumber(n) && NoNewline(c)
    case NewClause(n, c) => |n| > 0 && AllDigits(n) && NoNewline(c)
    case NewPoint(g, c) => |g| == 1 && IsPointLetter(g[0]) && NoNewline(c)
    case Continue(line) => |line| > 0 && NoNewline(line)
  }

  lemma StripByNoNewline(s: string, p: char -> bool)
    requires NoNewline(s)
    ensures NoNewline(StripBy(s, p))
  {
    var i, j :| 0 <= i <= j <= |s| && StripBy(s, p) == s[i..j];
    assert forall k | 0 <= k < j - i :: s[i..j][k] == s[i + k];
  }

  lemma TailGroupNoNewline(after: string)
    ensures NoNewline(TailGroup(after))
  {
  }

  lemma ArticleHitOk(line: string)
    requires NoNewline(line) && MatchDieu(line).Some?
    ensures NoNewline(ArticleContent(MatchDieu(line).value.rest))
  {
    var h := MatchDieu(line).value;
    var j := |line| - |h.rest| - |h.group|;
    assert h.rest == line[j + |h.group|..];
    StripByNoNewline(h.rest, IsDotOrBlank);
    StripByNoNewline(StripBy(h.rest, IsDotOrBlank), IsSpace);
  }

  lemma ClauseHitOk(line: string)
    requires MatchKhoan(line).Some?
    ensures var h := MatchKhoan(line).value; |h.group| > 0 && AllDigits(h.group) && NoNewline(h.rest)
  {
    var h := MatchKhoan(line).value;
    assert AllDigits(line[..|h.group|]);
    TailGroupNoNewline(line[|h.group| + 1..]);
  }

  lemma PointHitOk(line: string)
    requires MatchMuc(line).Some?
    ensures var h := MatchMuc(line).value; |h.group| == 1 && IsPointLetter(h.group[0]) && NoNewline(h.rest)
  {
    TailGroupNoNewline(line[2..]);
  }

  /** Every action taken on a line without line breaks is well-formed. */
  lemma DispatchOk(b: Builder, line: string)
    requires NoNewline(line)
    ensures ActionOk(Dispatch(b, line))
  {
    match Dispatch(b, line)
    case NewArticle(n, c) => ArticleHitOk(line);
    case NewClause(n, c) => ClauseHitOk(line);
    case NewPoint(g, c) => PointHitOk(line);
    case _ =>
  }

  lemma SetChapterOk(b: Builder, ch: Entry)
    requires Valid(b) && b.chapter.Some? && RootsOk(b.roots) && EntryOk(ch)
    ensures RootsOk(SetChapter(b, ch))
  {
  }

  lemma SetArticleOk(b: Builder, a: Article)
    requires Valid(b) && b.article.Some? && RootsOk(b.roots) && ArticleOk(a)
    ensures RootsOk(SetArticle(b, a))
  {
    var ch := OpenChapter(b);
    assert EntryOk(ch);
    SetChapterOk(b, ch.(articles := ch.articles[b.article.value := a]));
  }

  lemma SetClauseOk(b: Builder, c: Clause)
    requires Valid(b) && b.clause.Some? && RootsOk(b.roots) && ClauseOk(c)
    ensures RootsOk(SetClause(b, c))
  {
    var a := OpenArticle(b);
    assert EntryOk(OpenChapter(b));
    assert ArticleOk(a);
    SetArticleOk(b, a.(clauses := a.clauses[b.clause.value := c]));
  }

  lemma SetPointOk(b: Builder, p: Point)
    requires Valid(b) && b.point.Some? && RootsOk(b.roots) && PointOk(p)
    ensures RootsOk(SetPoint(b, p))
  {
    var c := OpenClause(b);
    assert EntryOk(OpenChapter(b));
    assert ArticleOk(OpenArticle(b));
    assert ClauseOk(c);
    SetClauseOk(b, c.(points := c.points[b.point.value := p]));
  }

  lemma KeysOk(n: string, g: string)
    ensures ArticleKey(n)[5..] == n && ArticleKey(n)[..5] == "Dieu "
    ensures ClauseKey(n)[6..] == n && ClauseKey(n)[..6] == "Khoan "
    ensures PointKey(g)[4..] == g && PointKey(g)[..4] == "Muc "
  {
  }

  lemma ContinueOk(b: Builder, line: string)
    requires Valid(b) && RootsOk(b.roots) && |line| > 0 && NoNewline(line)
    ensures RootsOk(AppendPlain(b, line))
  {
    var t := " " + line;
    assert NoNewline(t);
    if b.point.Some? {
      var p := OpenPoint(b);
      assert EntryOk(OpenChapter(b)) && ArticleOk(OpenArticle(b)) && ClauseOk(OpenClause(b));
      assert PointOk(p);
      SetPointOk(b, p.(content := p.content + t));
    } else if b.clause.Some? {
      var c := OpenClause(b);
      assert EntryOk(OpenChapter(b)) && ArticleOk(OpenArticle(b));
      assert ClauseOk(c);
      SetClauseOk(b, c.(content := c.content + t));
    } else if b.article.Some? {
      var a := OpenArticle(b);
      assert EntryOk(OpenChapter(b));
      assert ArticleOk(a);
      SetArticleOk(b, a.(content := a.content + t));
    } else if b.chapter.Some? {
      var ch := OpenChapter(b);
      assert EntryOk(ch);
      SetChapterOk(b, ch.(content := Some(ch.content.GetOr("") + t)));
    }
  }

  lemma NewArticleOk(b: Builder, n: string, c: string)
    requires Valid(b) && RootsOk(b.roots) && IsArticleNumber(n) && NoNewline(c)
    ensures RootsOk(Apply(b, NewArticle(n, c)).roots)
  {
    KeysOk(n, n);
    var a := Article(ArticleKey(n), c, []);
    assert ArticleOk(a);
    if b.chapter.Some? {
      var ch := OpenChapter(b);
      assert EntryOk(ch);
      SetChapterOk(b, ch.(articles := ch.articles + [a]));
    }
  }

  lemma NewClauseOk(b: Builder, n: string, c: string)
    requires Valid(b) && b.article.Some? && RootsOk(b.roots) && |n| > 0 && AllDigits(n) && NoNewline(c)
    ensures RootsOk(Apply(b, NewClause(n, c)).roots)
  {
    KeysOk(n, n);
    var a := OpenArticle(b);
    assert EntryOk(OpenChapter(b));
    assert ArticleOk(a);
    var cl := Clause(ClauseKey(n), c, []);
    assert ClauseOk(cl);
    SetArticleOk(b, a.(clauses := a.clauses + [cl]));
  }

  lemma NewPointOk(b: Builder, g: string, c: string)
    requires Valid(b) && b.clause.Some? && RootsOk(b.roots) && |g| == 1 && IsPointLetter(g[0]) && NoNewline(c)
    ensures RootsOk(Apply(b, NewPoint(g, c)).roots)
  {
    KeysOk(g, g);
    var cl := OpenClause(b);
    assert EntryOk(OpenChapter(b)) && ArticleOk(OpenArticle(b));
    assert ClauseOk(cl);
    var p := Point(PointKey(g), c);
    assert PointOk(p);
    SetClauseOk(b, cl.(points := cl.points + [p]));
  }

  /** A well-formed action keeps every stored key and text well-formed. */
  lemma ApplyOk(b: Builder, act: Action)
    requires Valid(b) && Allowed(b, act) && RootsOk(b.roots) && ActionOk(act)
    ensures RootsOk(Apply(b, act).roots)
  {
    match act
    case Skip =>
    case NewChapter(title) =>
    case NewArticle(n, c) => NewArticleOk(b, n, c);
    case NewClause(n, c) => NewClauseOk(b, n, c);
    case NewPoint(g, c) => NewPointOk(b, g, c);
    case Continue(line) => ContinueOk(b, line);
  }
}
