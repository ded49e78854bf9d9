/** The statute tree `parse_text` builds: a list of Preamble and Chương
    entries; a chapter holds Điều (articles), an article Khoản (clauses), a
    clause Mục/Điểm (points). Keys are kept as the source stores them:
    `"Dieu <n>"`, `"Khoan <k>"`, `"Muc <x>"`, and a chapter's title is its
    whole header line (or `"Chuong 0"` for a synthesized chapter). */
module Tree {
  import opened Wrappers
  import opened Text
  import opened Patterns

  datatype Point = Point(key: string, content: string)
  datatype Clause = Clause(key: string, content: string, points: seq<Point>)
  datatype Article = Article(key: string, content: string, clauses: seq<Clause>)

  /** A root entry. A chapter's `content` is absent until the first plain
      line reaches it (the source dict has no "Content" key until then). */
  datatype Entry =
    | Preamble(text: string)
    | Chapter(title: string, articles: seq<Article>, content: Option<string>)

  const DefaultChapterTitle: string := "Chuong 0"

  function ArticleKey(number: string): string { "Dieu " + number }
  function ClauseKey(number: string): string { "Khoan " + number }
  function PointKey(letter: string): string { "Muc " + letter }

  // ---------------------------------------------------------------------
  // Document order: every text the tree holds, in the order a reader meets
  // it (an entry's own texts before its children).

  function PointTexts(ps: seq<Point>): seq<string> {
    if |ps| == 0 then []
    else PointTexts(ps[..|ps| - 1]) + [ps[|ps| - 1].key, ps[|ps| - 1].content]
  }

  function ClauseText(c: Clause): seq<string> {
    [c.key, c.content] + PointTexts(c.points)
  }

  function ClauseTexts(cs: seq<Clause>): seq<string> {
    if |cs| == 0 then [] else ClauseTexts(cs[..|cs| - 1]) + ClauseText(cs[|cs| - 1])
  }

  function ArticleText(a: Article): seq<string> {
    [a.key, a.content] + ClauseTexts(a.clauses)
  }

  function ArticleTexts(arts: seq<Article>): seq<string> {
    if |arts| == 0 then [] else ArticleTexts(arts[..|arts| - 1]) + ArticleText(arts[|arts| - 1])
  }

  function EntryText(e: Entry): seq<string> {
    match e
    case Preamble(t) => [t]
    case Chapter(title, arts, content) => [title, content.GetOr("")] + ArticleTexts(arts)
  }

  function Texts(roots: seq<Entry>): seq<string> {
    if |roots| == 0 then [] else Texts(roots[..|roots| - 1]) + EntryText(roots[|roots| - 1])
  }

  /** `fs` with `t` appended to its last text. */
  function AppendLast(fs: seq<string>, t: string): seq<string>
    requires |fs| > 0
  {
    fs[..|fs| - 1] + [fs[|fs| - 1] + t]
  }

  // ---------------------------------------------------------------------
  // Counting nodes.

  /** Every article of every chapter, chapter by chapter, in order. */
  function AllArticles(roots: seq<Entry>): seq<Article> {
    if |roots| == 0 then []
    else
      AllArticles(roots[..|roots| - 1])
        + (if roots[|roots| - 1].Chapter? then roots[|roots| - 1].articles else [])
  }

  function NumClauses(arts: seq<Article>): nat {
    if |arts| == 0 then 0 else NumClauses(arts[..|arts| - 1]) + |arts[|arts| - 1].clauses|
  }

  function PointsIn(cs: seq<Clause>): nat {
    if |cs| == 0 then 0 else PointsIn(cs[..|cs| - 1]) + |cs[|cs| - 1].points|
  }

  function NumPoints(arts: seq<Article>): nat {
    if |arts| == 0 then 0 else NumPoints(arts[..|arts| - 1]) + PointsIn(arts[|arts| - 1].clauses)
  }

  function NumChapters(roots: seq<Entry>): nat {
    if |roots| == 0 then 0
    else NumChapters(roots[..|roots| - 1]) + (if roots[|roots| - 1].Chapter? then 1 else 0)
  }

  /** How many nodes of each kind the tree holds. */
  datatype Tally = Tally(chapters: nat, articles: nat, clauses: nat, points: nat)

  function TallyOf(roots: seq<Entry>): Tally {
    var arts := AllArticles(roots);
    Tally(NumChapters(roots), |arts|, NumClauses(arts), NumPoints(arts))
  }

  // ---------------------------------------------------------------------
  // "Only grows": children lists grow only at their end, keys and titles
  // never change, and contents only grow by appending.

  predicate GrowsPoint(p: Point, q: Point) {
    q.key == p.key && p.content <= q.content
  }

  predicate GrowsClause(c: Clause, d: Clause) {
    && d.key == c.key
    && c.content <= d.content
    && |c.points| <= |d.points|
    && forall i | 0 <= i < |c.points| :: GrowsPoint(c.points[i], d.points[i])
  }

  predicate GrowsArticle(a: Article, b: Article) {
    && b.key == a.key
    && a.content <= b.content
    && |a.clauses| <= |b.clauses|
    && forall i | 0 <= i < |a.clauses| :: GrowsClause(a.clauses[i], b.clauses[i])
  }

  predicate GrowsEntry(e: Entry, f: Entry) {
    match e
    case Preamble(t) => f == e
    case Chapter(title, arts, content) =>
      && f.Chapter?
      && f.title == title
      && (content.Some? ==> f.content.Some? && content.value <= f.content.value)
      && |arts| <= |f.articles|
      && forall i | 0 <= i < |arts| :: GrowsArticle(arts[i], f.articles[i])
  }

  predicate Grows(roots: seq<Entry>, roots': seq<Entry>) {
    && |roots| <= |roots'|
    && forall i | 0 <= i < |roots| :: GrowsEntry(roots[i], roots'[i])
  }

  lemma GrowsClauseTrans(a: Clause, b: Clause, c: Clause)
    requires GrowsClause(a, b) && GrowsClause(b, c)
    ensures GrowsClause(a, c)
  {
    forall i | 0 <= i < |a.points| ensures GrowsPoint(a.points[i], c.points[i]) {
      assert GrowsPoint(b.points[i], c.points[i]);
    }
  }

  lemma GrowsArticleTrans(a: Article, b: Article, c: Article)
    requires GrowsArticle(a, b) && GrowsArticle(b, c)
    ensures GrowsArticle(a, c)
  {
    forall i | 0 <= i < |a.clauses| ensures GrowsClause(a.clauses[i], c.clauses[i]) {
      GrowsClauseTrans(a.clauses[i], b.clauses[i], c.clauses[i]);
    }
  }

  lemma GrowsEntryTrans(a: Entry, b: Entry, c: Entry)
    requires GrowsEntry(a, b) && GrowsEntry(b, c)
    ensures GrowsEntry(a, c)
  {
    if a.Chapter? {
      forall i | 0 <= i < |a.articles| ensures GrowsArticle(a.articles[i], c.articles[i]) {
        GrowsArticleTrans(a.articles[i], b.articles[i], c.articles[i]);
      }
    }
  }

  /** Growth composes: what one document grew into can grow further without
      undoing anything of the first. */
  lemma GrowsTrans(a: seq<Entry>, b: seq<Entry>, c: seq<Entry>)
    requires Grows(a, b) && Grows(b, c)
    ensures Grows(a, c)
  {
    forall i | 0 <= i < |a| ensures GrowsEntry(a[i], c[i]) {
      GrowsEntryTrans(a[i], b[i], c[i]);
    }
  }

  lemma GrowsRefl(a: seq<Entry>)
    ensures Grows(a, a)
  {
    forall i | 0 <= i < |a| ensures GrowsEntry(a[i], a[i]) {
      if a[i].Chapter? {
        forall j | 0 <= j < |a[i].articles|
          ensures GrowsArticle(a[i].articles[j], a[i].articles[j])
        {
          var art := a[i].articles[j];
          forall k | 0 <= k < |art.clauses| ensures GrowsClause(art.clauses[k], art.clauses[k]) { }
        }
      }
    }
  }

  // ---------------------------------------------------------------------
  // Shape of the keys and texts the parser produces.

  predicate PointOk(p: Point) {
    && |p.key| == 5 && p.key[..4] == "Muc " && IsPointLetter(p.key[4])
    && NoNewline(p.content)
  }

  predicate ClauseOk(c: Clause) {
    && |c.key| > 6 && c.key[..6] == "Khoan " && AllDigits(c.key[6..])
    && NoNewline(c.content)
    && forall i | 0 <= i < |c.points| :: PointOk(c.points[i])
  }

  predicate ArticleOk(a: Article) {
    && |a.key| > 5 && a.key[..5] == "Dieu " && IsArticleNumber(a.key[5..])
    && NoNewline(a.content)
    && forall i | 0 <= i < |a.clauses| :: ClauseOk(a.clauses[i])
  }

  predicate EntryOk(e: Entry) {
    match e
    case Preamble(t) => |t| > 0 && NoNewline(t)
    case Chapter(title, arts, content) =>
      && NoNewline(title)
      && (content.Some? ==> NoNewline(content.value))
      && forall i | 0 <= i < |arts| :: ArticleOk(arts[i])
  }

  predicate RootsOk(roots: seq<Entry>) {
    forall i | 0 <= i < |roots| :: EntryOk(roots[i])
  }

  /** The article number of a well-formed key `"Dieu <n>"`. */
  function ArticleNumber(a: Article): string
    requires |a.key| >= 5
  {
    a.key[5..]
  }

  function ClauseNumber(c: Clause): string
    requires |c.key| >= 6
  {
    c.key[6..]
  }

  function PointLetter(p: Point): string
    requires |p.key| >= 4
  {
    p.key[4..]
  }
}
