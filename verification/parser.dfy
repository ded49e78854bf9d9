/** `parse_text`: one forward fold over the stripped lines of a statute. The
    source threads four "currently open" references (chapter, article,
    clause, point) through the loop; here they are indices into the tree
    held by a `Builder`, and `Valid` proves they always designate the last
    node at their level, each inside the previous one. */
module Parser {
  import opened Wrappers
  import opened Text
  import opened Patterns
  import opened Tree

  datatype Builder = Builder(
    roots: seq<Entry>,
    chapter: Option<nat>,
    article: Option<nat>,
    clause: Option<nat>,
    point: Option<nat>)

  const Start: Builder := Builder([], None, None, None, None)

  /** No Preamble entry comes after a chapter. */
  predicate PreamblesFirst(roots: seq<Entry>) {
    forall i, j | 0 <= i < j < |roots| :: roots[j].Preamble? ==> roots[i].Preamble?
  }

  /** Below an open article: an open clause is the article's last one, an open
      point the clause's last one, and a level with nothing open is empty. */
  predicate ArticlePathOk(a: Article, b: Builder) {
    && (b.clause.None? ==> |a.clauses| == 0)
    && (b.clause.Some? ==>
          && b.clause.value == |a.clauses| - 1
          && var c := a.clauses[|a.clauses| - 1];
          && (b.point.None? ==> |c.points| == 0)
          && (b.point.Some? ==> b.point.value == |c.points| - 1))
  }

  predicate ChapterPathOk(ch: Entry, b: Builder)
    requires ch.Chapter?
  {
    && (b.article.None? ==> |ch.articles| == 0)
    && (b.article.Some? ==>
          b.article.value == |ch.articles| - 1 && ArticlePathOk(ch.articles[|ch.articles| - 1], b))
  }

  /** The open references form the rightmost path of the tree. */
  predicate Valid(b: Builder) {
    && PreamblesFirst(b.roots)
    && (b.chapter.None? ==> b.article.None? && forall i | 0 <= i < |b.roots| :: b.roots[i].Preamble?)
    && (b.article.None? ==> b.clause.None?)
    && (b.clause.None? ==> b.point.None?)
    && (b.chapter.Some? ==>
          && b.chapter.value == |b.roots| - 1
          && b.roots[b.chapter.value].Chapter?
          && ChapterPathOk(b.roots[b.chapter.value], b))
  }

  function OpenChapter(b: Builder): Entry
    requires Valid(b) && b.chapter.Some?
  {
    b.roots[b.chapter.value]
  }

  function OpenArticle(b: Builder): Article
    requires Valid(b) && b.article.Some?
  {
    OpenChapter(b).articles[b.article.value]
  }

  function OpenClause(b: Builder): Clause
    requires Valid(b) && b.clause.Some?
  {
    OpenArticle(b).clauses[b.clause.value]
  }

  function OpenPoint(b: Builder): Point
    requires Valid(b) && b.point.Some?
  {
    OpenClause(b).points[b.point.value]
  }

  /** The roots with the open chapter (article, clause, point) replaced. */
  function SetChapter(b: Builder, ch: Entry): seq<Entry>
    requires Valid(b) && b.chapter.Some?
  {
    b.roots[b.chapter.value := ch]
  }

  function SetArticle(b: Builder, a: Article): seq<Entry>
    requires Valid(b) && b.article.Some?
  {
    var ch := OpenChapter(b);
    SetChapter(b, ch.(articles := ch.articles[b.article.value := a]))
  }

  function SetClause(b: Builder, c: Clause): seq<Entry>
    requires Valid(b) && b.clause.Some?
  {
    var a := OpenArticle(b);
    SetArticle(b, a.(clauses := a.clauses[b.clause.value := c]))
  }

  function SetPoint(b: Builder, p: Point): seq<Entry>
    requires Valid(b) && b.point.Some?
  {
    var c := OpenClause(b);
    SetClause(b, c.(points := c.points[b.point.value := p]))
  }

  /** What one input line does to the tree. */
  datatype Action =
    | Skip
    | NewChapter(title: string)
    | NewArticle(number: string, content: string)
    | NewClause(number: string, content: string)
    | NewPoint(letter: string, content: string)
    | Continue(line: string)

  /** A clause needs an open article and a point an open clause. */
  predicate Allowed(b: Builder, act: Action) {
    && (act.NewClause? ==> b.article.Some?)
    && (act.NewPoint? ==> b.clause.Some?)
  }

  /** The body of the loop before any mutation, on the stripped line: skip
      it when empty, otherwise try CHUONG, DIEU, KHOAN (only under an open
      article), MUC (only under an open clause), in that order; a line
      nothing claims is plain text. */
  function Dispatch(b: Builder, line: string): (act: Action)
    ensures Allowed(b, act)
    ensures act.Skip? <==> line == []
    ensures act.NewChapter? <==> line != [] && MatchChuong(line)
    ensures act.NewChapter? ==> act.title == line
    ensures act.NewArticle? <==> line != [] && !MatchChuong(line) && MatchDieu(line).Some?
    ensures act.NewArticle? ==>
      act == NewArticle(MatchDieu(line).value.group, ArticleContent(MatchDieu(line).value.rest))
    ensures act.NewClause? ==>
      MatchKhoan(line).Some? && act == NewClause(MatchKhoan(line).value.group, MatchKhoan(line).value.rest)
    ensures act.NewPoint? ==>
      MatchMuc(line).Some? && act == NewPoint(MatchMuc(line).value.group, MatchMuc(line).value.rest)
    ensures act.Continue? ==>
      && act.line == line
      && line != []
      && !MatchChuong(line)
      && MatchDieu(line).None?
      && (MatchKhoan(line).Some? ==> b.article.None?)
      && (MatchMuc(line).Some? ==> b.clause.None?)
    ensures MatchKhoan(line).Some? && b.article.Some? ==> act.NewClause?
    ensures MatchMuc(line).Some? && b.clause.Some? ==> act.NewPoint?
  {
    ClauseLineIsNoHeader(line);
    PointLineIsNoHeader(line);
    if line == [] then Skip
    else if MatchChuong(line) then NewChapter(line)
    else match MatchDieu(line)
      case Some(h) => NewArticle(h.group, ArticleContent(h.rest))
      case None =>
        var k := MatchKhoan(line);
        if k.Some? && b.article.Some? then NewClause(k.value.group, k.value.rest)
        else
          var m := MatchMuc(line);
          if m.Some? && b.clause.Some? then NewPoint(m.value.group, m.value.rest)
          else Continue(line)
  }

  /** A plain line goes, as `" " + line`, to the innermost open node: the
      point, else the clause, else the article, else the chapter's content
      (created on first use); with nothing open it becomes a new Preamble
      entry of its own (the source's `"Preamble" not in hierarchy` compares a
      string with dicts and is always true). */
  function AppendPlain(b: Builder, line: string): (r: seq<Entry>)
    requires Valid(b)
    ensures |r| == |b.roots| + (if b.chapter.Some? then 0 else 1)
  {
    var t := " " + line;
    if b.point.Some? then
      var p := OpenPoint(b);
      SetPoint(b, p.(content := p.content + t))
    else if b.clause.Some? then
      var c := OpenClause(b);
      SetClause(b, c.(content := c.content + t))
    else if b.article.Some? then
      var a := OpenArticle(b);
      SetArticle(b, a.(content := a.content + t))
    else if b.chapter.Some? then
      var ch := OpenChapter(b);
      SetChapter(b, ch.(content := Some(ch.content.GetOr("") + t)))
    else
      b.roots + [Preamble(line)]
  }

  /** Replacing the open chapter keeps the builder valid as long as the new
      chapter agrees with the open references below it. */
  lemma SetChapterValid(b: Builder, ch: Entry, r: Builder)
    requires Valid(b) && b.chapter.Some? && ch.Chapter?
    requires r.roots == SetChapter(b, ch) && r.chapter == b.chapter
    requires r.article.None? ==> r.clause.None?
    requires r.clause.None? ==> r.point.None?
    requires ChapterPathOk(ch, r)
    ensures Valid(r)
  {
    var n := |b.roots|;
    assert r.roots[..n - 1] == b.roots[..n - 1];
    forall i, j | 0 <= i < j < n && r.roots[j].Preamble? ensures r.roots[i].Preamble? {
      assert b.roots[j].Preamble?;
    }
  }

  lemma AppendPlainValid(b: Builder, line: string)
    requires Valid(b)
    ensures Valid(b.(roots := AppendPlain(b, line)))
  {
    var t := " " + line;
    var r := b.(roots := AppendPlain(b, line));
    if b.point.Some? {
      var ch := OpenChapter(b);
      var a := OpenArticle(b);
      var c := OpenClause(b);
      var p := OpenPoint(b);
      var c' := c.(points := c.points[b.point.value := p.(content := p.content + t)]);
      var a' := a.(clauses := a.clauses[b.clause.value := c']);
      SetChapterValid(b, ch.(articles := ch.articles[b.article.value := a']), r);
    } else if b.clause.Some? {
      var ch := OpenChapter(b);
      var a := OpenArticle(b);
      var c := OpenClause(b);
      var a' := a.(clauses := a.clauses[b.clause.value := c.(content := c.content + t)]);
      SetChapterValid(b, ch.(articles := ch.articles[b.article.value := a']), r);
    } else if b.article.Some? {
      var ch := OpenChapter(b);
      var a := OpenArticle(b);
      SetChapterValid(b, ch.(articles := ch.articles[b.article.value := a.(content := a.content + t)]), r);
    } else if b.chapter.Some? {
      var ch := OpenChapter(b);
      SetChapterValid(b, ch.(content := Some(ch.content.GetOr("") + t)), r);
    }
  }

  /** The mutation half of the loop body. */
  function Apply(b: Builder, act: Action): (r: Builder)
    requires Valid(b) && Allowed(b, act)
    ensures Valid(r)
  {
    match act
    case Skip => b
    case NewChapter(title) =>
      Builder(b.roots + [Chapter(title, [], None)], Some(|b.roots|), None, None, None)
    case NewArticle(n, c) =>
      var a := Article(ArticleKey(n), c, []);
      if b.chapter.None? then
        Builder(b.roots + [Chapter(DefaultChapterTitle, [a], None)], Some(|b.roots|), Some(0), None, None)
      else
        var ch := OpenChapter(b);
        var ch' := ch.(articles := ch.articles + [a]);
        var r := Builder(SetChapter(b, ch'), b.chapter, Some(|ch.articles|), None, None);
        SetChapterValid(b, ch', r);
        r
    case NewClause(n, c) =>
      var ch := OpenChapter(b);
      var a := OpenArticle(b);
      var a' := a.(clauses := a.clauses + [Clause(ClauseKey(n), c, [])]);
      var r := b.(roots := SetArticle(b, a'), clause := Some(|a.clauses|), point := None);
      SetChapterValid(b, ch.(articles := ch.articles[b.article.value := a']), r);
      r
    case NewPoint(g, c) =>
      var ch := OpenChapter(b);
      var a := OpenArticle(b);
      var cl := OpenClause(b);
      var cl' := cl.(points := cl.points + [Point(PointKey(g), c)]);
      var a' := a.(clauses := a.clauses[b.clause.value := cl']);
      var r := b.(roots := SetClause(b, cl'), point := Some(|cl.points|));
      SetChapterValid(b, ch.(articles := ch.articles[b.article.value := a']), r);
      r
    case Continue(line) =>
      var r := b.(roots := AppendPlain(b, line));
      AppendPlainValid(b, line);
      r
  }

  /** A header opens its level and closes every level below it (the source
      sets the deeper references to `None`); a skipped or plain line leaves
      the open references where they were. */
  lemma ApplyOpens(b: Builder, act: Action)
    requires Valid(b) && Allowed(b, act)
    ensures var r := Apply(b, act);
      && (act.NewChapter? ==> r.chapter.Some? && r.article.None? && r.clause.None? && r.point.None?)
      && (act.NewArticle? ==> r.chapter.Some? && r.article.Some? && r.clause.None? && r.point.None?)
      && (act.NewArticle? && b.chapter.Some? ==> r.chapter == b.chapter)
      && (act.NewClause? ==> r.chapter == b.chapter && r.article == b.article && r.clause.Some? && r.point.None?)
      && (act.NewPoint? ==> r.chapter == b.chapter && r.article == b.article && r.clause == b.clause && r.point.Some?)
      && (act.Skip? || act.Continue? ==>
            r.chapter == b.chapter && r.article == b.article && r.clause == b.clause && r.point == b.point)
  {
  }

  /** One iteration of the loop. */
  function Step(b: Builder, raw: string): (r: Builder)
    requires Valid(b)
    ensures Valid(r)
  {
    Apply(b, Dispatch(b, Strip(raw)))
  }

  /** The loop over the first `|lines|` lines. */
  function Run(lines: seq<string>): (b: Builder)
    ensures Valid(b)
  {
    if |lines| == 0 then Start else Step(Run(lines[..|lines| - 1]), lines[|lines| - 1])
  }

  /** `parse_text(text)`: the list of root entries. */
  function Parse(text: string): (r: seq<Entry>)
    ensures PreamblesFirst(r)
  {
    Run(Split(text)).roots
  }
}
