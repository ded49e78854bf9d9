/** `get_text_from_structure(dieu, kdm)`: an article rendered as text, one
    line per node, each line ending in a line break. The renderer works on
    the stored keys with `str.replace`, exactly like the source; the
    reference `ExpectedLines` builds the same lines from the article, clause
    and point numbers, and the lemmas show the two agree on every tree the
    parser can build. With `kdm` ("Khoản/Điều/Mục" citation expansion) each
    clause line carries its article and each point line its clause and
    article. */
module Render {
  import opened Wrappers
  import opened Text
  import opened Patterns
  import opened Tree

  const ClauseWord: string := "Khoản "
  const PointWord: string := "Điểm "

  /** The article label: the stored key with `Dieu` replaced by `Điều`. */
  function ArticleLabel(a: Article): string {
    ReplaceAll(a.key, "Dieu", "Điều")
  }

  /** The point lines of one clause, each `<label>) <itemPrefix><content>`. */
  function RenderPoints(ps: seq<Point>, itemAnn: string, itemPrefix: string): (r: string)
    ensures |r| == 0 || r[|r| - 1] == '\n'
  {
    if |ps| == 0 then ""
    else
      var p := ps[|ps| - 1];
      RenderPoints(ps[..|ps| - 1], itemAnn, itemPrefix)
        + ReplaceAll(p.key, "Muc ", itemAnn) + ") " + itemPrefix + p.content + "\n"
  }

  /** One clause line followed by its point lines; under `kdm` the point
      prefix is recomputed from this clause's label. */
  function RenderClause(c: Clause, clauseAnn: string, itemAnn: string, clausePrefix: string, kdm: bool): (r: string)
    ensures |r| > 0 && r[|r| - 1] == '\n'
  {
    var clauseLabel := ReplaceAll(c.key, "Khoan ", clauseAnn);
    var itemPrefix := if kdm then clauseLabel + " " + clausePrefix + " " else "";
    var points := RenderPoints(c.points, itemAnn, itemPrefix);
    var text := clauseLabel + ". " + clausePrefix + c.content + "\n" + points;
    assert |points| > 0 ==> text[|text| - 1] == points[|points| - 1];
    text
  }

  function RenderClauses(cs: seq<Clause>, clauseAnn: string, itemAnn: string, clausePrefix: string, kdm: bool): (r: string)
    ensures |r| == 0 || r[|r| - 1] == '\n'
  {
    if |cs| == 0 then ""
    else
      RenderClauses(cs[..|cs| - 1], clauseAnn, itemAnn, clausePrefix, kdm)
        + RenderClause(cs[|cs| - 1], clauseAnn, itemAnn, clausePrefix, kdm)
  }

  /** The rendered article: a head line `Điều <n>. <content>`, then the
      clauses in order, each followed by its points. The text always ends
      with a line break. */
  function GetText(a: Article, kdm: bool): (r: string)
    ensures |r| > 0 && r[|r| - 1] == '\n'
  {
    var clauseAnn := if kdm then ClauseWord else "";
    var itemAnn := if kdm then PointWord else "";
    var clausePrefix := if kdm then ArticleLabel(a) + " " else "";
    var body := RenderClauses(a.clauses, clauseAnn, itemAnn, clausePrefix, kdm);
    var text := ArticleLabel(a) + ". " + a.content + "\n" + body;
    assert |body| > 0 ==> text[|text| - 1] == body[|body| - 1];
    text
  }

  // ---------------------------------------------------------------------
  // The reference: the same lines built from the numbers.

  predicate ClausesOk(cs: seq<Clause>) {
    forall i | 0 <= i < |cs| :: ClauseOk(cs[i])
  }

  predicate PointsOk(ps: seq<Point>) {
    forall i | 0 <= i < |ps| :: PointOk(ps[i])
  }

  function PointLines(ps: seq<Point>, ann: string, prefix: string): (r: seq<string>)
    requires PointsOk(ps)
    ensures |r| == |ps|
  {
    if |ps| == 0 then []
    else
      var p := ps[|ps| - 1];
      PointLines(ps[..|ps| - 1], ann, prefix) + [ann + PointLetter(p) + ") " + prefix + p.content]
  }

  /** A clause's lines: `[Khoản ]<k>. [Điều <n> ]<content>`, then its points as
      `[Điểm ]<x>) [Khoản <k> Điều <n>  ]<content>`. */
  function ClauseLines(c: Clause, title: string, kdm: bool): (r: seq<string>)
    requires ClauseOk(c)
    ensures |r| == 1 + |c.points|
  {
    var clauseLabel := (if kdm then ClauseWord else "") + ClauseNumber(c);
    var cpre := if kdm then title + " " else "";
    [clauseLabel + ". " + cpre + c.content]
      + PointLines(c.points, if kdm then PointWord else "", if kdm then clauseLabel + " " + cpre + " " else "")
  }

  function ClausesLines(cs: seq<Clause>, title: string, kdm: bool): (r: seq<string>)
    requires ClausesOk(cs)
    ensures |r| == |cs| + PointsIn(cs)
  {
    if |cs| == 0 then []
    else ClausesLines(cs[..|cs| - 1], title, kdm) + ClauseLines(cs[|cs| - 1], title, kdm)
  }

  /** The lines of a rendered article: one for the article, one per clause
      and one per point. */
  function ExpectedLines(a: Article, kdm: bool): (r: seq<string>)
    requires ArticleOk(a)
    ensures |r| == 1 + |a.clauses| + PointsIn(a.clauses)
  {
    var title := "Điều " + ArticleNumber(a);
    [title + ". " + a.content] + ClausesLines(a.clauses, title, kdm)
  }

  // ---------------------------------------------------------------------
  // The stored keys, rewritten by `str.replace`.

  /** An article number holds at most one non-digit, at its end, so no word
      of two or more letters occurs in it after a blank. */
  lemma NoWordInNumber(n: string, word: string)
    requires IsArticleNumber(n) && |word| >= 2 && !IsDigit(word[0]) && word[0] != ' '
    ensures forall i :: !OccursAt(" " + n, word, i)
  {
    forall i | 0 <= i && i + |word| <= |n| + 1 ensures (" " + n)[i] != word[0] {
      if i > 0 {
        assert n[..|n| - 1][i - 1] == n[i - 1];
      }
    }
  }

  lemma ArticleLabelOk(a: Article)
    requires |a.key| > 5 && a.key[..5] == "Dieu " && IsArticleNumber(a.key[5..])
    ensures ArticleLabel(a) == "Điều " + ArticleNumber(a)
  {
    var n := a.key[5..];
    assert a.key == "Dieu" + (" " + n);
    NoWordInNumber(n, "Dieu");
    ReplaceLeading("Dieu", " " + n, "Điều");
    ReplaceAbsent(" " + n, "Dieu", "Điều");
  }

  lemma ClauseLabelOk(c: Clause, ann: string)
    requires |c.key| > 6 && c.key[..6] == "Khoan " && AllDigits(c.key[6..])
    ensures ReplaceAll(c.key, "Khoan ", ann) == ann + ClauseNumber(c)
  {
    var k := c.key[6..];
    assert c.key == "Khoan " + k;
    ReplaceLeading("Khoan ", k, ann);
    ReplaceAbsent(k, "Khoan ", ann);
  }

  lemma PointLabelOk(p: Point, ann: string)
    requires |p.key| == 5 && p.key[..4] == "Muc "
    ensures ReplaceAll(p.key, "Muc ", ann) == ann + PointLetter(p)
  {
    var g := p.key[4..];
    assert p.key == "Muc " + g;
    ReplaceLeading("Muc ", g, ann);
  }

  // ---------------------------------------------------------------------
  // The renderer produces the reference lines.

  lemma {:induction false} PointsAgree(ps: seq<Point>, ann: string, prefix: string)
    requires PointsOk(ps)
    ensures RenderPoints(ps, ann, prefix) == JoinLines(PointLines(ps, ann, prefix))
  {
    if |ps| > 0 {
      var init := ps[..|ps| - 1];
      var p := ps[|ps| - 1];
      var line := ann + PointLetter(p) + ") " + prefix + p.content;
      PointsAgree(init, ann, prefix);
      assert PointOk(p);
      PointLabelOk(p, ann);
      assert RenderPoints(ps, ann, prefix) == RenderPoints(init, ann, prefix) + line + "\n";
      assert PointLines(ps, ann, prefix) == PointLines(init, ann, prefix) + [line];
      JoinLinesSnoc(PointLines(init, ann, prefix), line);
    }
  }

  lemma ClauseAgrees(c: Clause, title: string, kdm: bool)
    requires ClauseOk(c)
    ensures RenderClause(c, if kdm then ClauseWord else "", if kdm then PointWord else "",
                         if kdm then title + " " else "", kdm)
         == JoinLines(ClauseLines(c, title, kdm))
  {
    var clauseAnn := if kdm then ClauseWord else "";
    var itemAnn := if kdm then PointWord else "";
    var cpre := if kdm then title + " " else "";
    ClauseLabelOk(c, clauseAnn);
    var clauseLabel := clauseAnn + ClauseNumber(c);
    var ipre := if kdm then clauseLabel + " " + cpre + " " else "";
    assert PointsOk(c.points);
    PointsAgree(c.points, itemAnn, ipre);
    JoinLinesCons(clauseLabel + ". " + cpre + c.content, PointLines(c.points, itemAnn, ipre));
  }

  lemma {:induction false} ClausesAgree(cs: seq<Clause>, title: string, kdm: bool)
    requires ClausesOk(cs)
    ensures RenderClauses(cs, if kdm then ClauseWord else "", if kdm then PointWord else "",
                          if kdm then title + " " else "", kdm)
         == JoinLines(ClausesLines(cs, title, kdm))
  {
    if |cs| > 0 {
      var init := cs[..|cs| - 1];
      assert ClausesOk(init) by {
        forall i | 0 <= i < |init| ensures ClauseOk(init[i]) { assert init[i] == cs[i]; }
      }
      ClausesAgree(init, title, kdm);
      ClauseAgrees(cs[|cs| - 1], title, kdm);
      JoinLinesAppend(ClausesLines(init, title, kdm), ClauseLines(cs[|cs| - 1], title, kdm));
    }
  }

  /** On every well-formed article the renderer writes exactly the reference
      lines, each followed by one line break. */
  lemma RenderAgrees(a: Article, kdm: bool)
    requires ArticleOk(a)
    ensures GetText(a, kdm) == JoinLines(ExpectedLines(a, kdm))
  {
    var title := "Điều " + ArticleNumber(a);
    ArticleLabelOk(a);
    assert ClausesOk(a.clauses);
    ClausesAgree(a.clauses, title, kdm);
    JoinLinesCons(title + ". " + a.content, ClausesLines(a.clauses, title, kdm));
  }

  // ---------------------------------------------------------------------
  // Reading the rendered text back.

  lemma ArticleNumberNoNewline(n: string)
    requires IsArticleNumber(n)
    ensures NoNewline(n)
  {
    forall k | 0 <= k < |n| ensures n[k] != '\n' {
      if k < |n| - 1 {
        assert n[..|n| - 1][k] == n[k];
      }
    }
  }

  lemma {:induction false} PointLinesNoNewline(ps: seq<Point>, ann: string, prefix: string)
    requires PointsOk(ps) && NoNewline(ann) && NoNewline(prefix)
    ensures forall i | 0 <= i < |PointLines(ps, ann, prefix)| :: NoNewline(PointLines(ps, ann, prefix)[i])
  {
    if |ps| > 0 {
      var p := ps[|ps| - 1];
      PointLinesNoNewline(ps[..|ps| - 1], ann, prefix);
      assert PointOk(p);
      NoNewlineConcat(ann, PointLetter(p));
      NoNewlineConcat(ann + PointLetter(p), ") ");
      NoNewlineConcat(ann + PointLetter(p) + ") ", prefix);
      NoNewlineConcat(ann + PointLetter(p) + ") " + prefix, p.content);
    }
  }

  lemma ClauseLinesNoNewline(c: Clause, title: string, kdm: bool)
    requires ClauseOk(c) && NoNewline(title)
    ensures forall i | 0 <= i < |ClauseLines(c, title, kdm)| :: NoNewline(ClauseLines(c, title, kdm)[i])
  {
    var clauseLabel := (if kdm then ClauseWord else "") + ClauseNumber(c);
    var cpre := if kdm then title + " " else "";
    NoNewlineConcat(if kdm then ClauseWord else "", ClauseNumber(c));
    NoNewlineConcat(title, " ");
    NoNewlineConcat(clauseLabel, ". ");
    NoNewlineConcat(clauseLabel + ". ", cpre);
    NoNewlineConcat(clauseLabel + ". " + cpre, c.content);
    NoNewlineConcat(clauseLabel, " ");
    NoNewlineConcat(clauseLabel + " ", cpre);
    NoNewlineConcat(clauseLabel + " " + cpre, " ");
    assert PointsOk(c.points);
    PointLinesNoNewline(c.points, if kdm then PointWord else "", if kdm then clauseLabel + " " + cpre + " " else "");
  }

  lemma {:induction false} ClausesLinesNoNewline(cs: seq<Clause>, title: string, kdm: bool)
    requires ClausesOk(cs) && NoNewline(title)
    ensures forall i | 0 <= i < |ClausesLines(cs, title, kdm)| :: NoNewline(ClausesLines(cs, title, kdm)[i])
  {
    if |cs| > 0 {
      var init := cs[..|cs| - 1];
      assert ClausesOk(init) by {
        forall i | 0 <= i < |init| ensures ClauseOk(init[i]) { assert init[i] == cs[i]; }
      }
      ClausesLinesNoNewline(init, title, kdm);
      ClauseLinesNoNewline(cs[|cs| - 1], title, kdm);
    }
  }

  /** No reference line holds a line break. */
  lemma ExpectedLinesNoNewline(a: Article, kdm: bool)
    requires ArticleOk(a)
    ensures forall i | 0 <= i < |ExpectedLines(a, kdm)| :: NoNewline(ExpectedLines(a, kdm)[i])
  {
    var title := "Điều " + ArticleNumber(a);
    ArticleNumberNoNewline(ArticleNumber(a));
    NoNewlineConcat("Điều ", ArticleNumber(a));
    NoNewlineConcat(title, ". ");
    NoNewlineConcat(title + ". ", a.content);
    assert ClausesOk(a.clauses);
    ClausesLinesNoNewline(a.clauses, title, kdm);
  }

  /** Splitting the rendered text at line breaks gives back one line per
      node, in document order, and the empty piece after the final break. */
  lemma RenderSplit(a: Article, kdm: bool)
    requires ArticleOk(a)
    ensures Split(GetText(a, kdm)) == ExpectedLines(a, kdm) + [""]
    ensures |Split(GetText(a, kdm))| == 2 + |a.clauses| + PointsIn(a.clauses)
  {
    RenderAgrees(a, kdm);
    ExpectedLinesNoNewline(a, kdm);
    SplitJoinLines(ExpectedLines(a, kdm));
  }

  // ---------------------------------------------------------------------
  // The two renderings of the article "Điều 1. Phạm vi" with clause 1 and
  // point a.

  const SampleArticle: Article :=
    Article("Dieu 1", "Phạm vi", [Clause("Khoan 1", "Nội dung A", [Point("Muc a", "Chi tiết")])])

  lemma SampleOk()
    ensures ArticleOk(SampleArticle)
  {
    var c := SampleArticle.clauses[0];
    assert PointOk(c.points[0]);
    assert ClauseOk(c) by {
      assert c.key[6..] == "1";
    }
    assert SampleArticle.key[5..] == "1";
  }

  lemma SampleParts(kdm: bool)
    ensures ArticleOk(SampleArticle)
    ensures var c := SampleArticle.clauses[0];
      && ArticleNumber(SampleArticle) == "1"
      && ClauseNumber(c) == "1"
      && PointLetter(c.points[0]) == "a"
      && PointsOk(c.points)
      && ClausesOk(SampleArticle.clauses)
  {
    SampleOk();
  }

  /** The reference lines of the sample, as a sequence of three parts each. */
  lemma SampleLines(kdm: bool, title: string, clauseLabel: string, cpre: string, ipre: string, ann: string)
    requires title == "Điều 1"
    requires clauseLabel == (if kdm then ClauseWord else "") + "1"
    requires cpre == (if kdm then title + " " else "")
    requires ipre == (if kdm then clauseLabel + " " + cpre + " " else "")
    requires ann == (if kdm then PointWord else "")
    ensures ArticleOk(SampleArticle)
    ensures ExpectedLines(SampleArticle, kdm) ==
      [title + ". " + "Phạm vi", clauseLabel + ". " + cpre + "Nội dung A", ann + "a" + ") " + ipre + "Chi tiết"]
  {
    SampleParts(kdm);
    var c := SampleArticle.clauses[0];
    assert title == "Điều " + "1";
    assert PointLines(c.points, ann, ipre) == [ann + "a" + ") " + ipre + "Chi tiết"] by {
      assert c.points[..0] == [];
    }
    assert ClausesLines(SampleArticle.clauses, title, kdm) == ClauseLines(c, title, kdm) by {
      assert SampleArticle.clauses[..0] == [];
    }
  }

  /** Three lines joined with a line break after each. */
  lemma JoinThree(l1: string, l2: string, l3: string)
    ensures JoinLines([l1, l2, l3]) == l1 + "\n" + l2 + "\n" + l3 + "\n"
  {
    JoinLinesCons(l1, [l2, l3]);
    JoinLinesCons(l2, [l3]);
    JoinLinesCons(l3, []);
    assert [l1, l2, l3] == [l1] + [l2, l3];
    assert [l2, l3] == [l2] + [l3];
    assert [l3] == [l3] + [];
  }

  /** The literal concatenations the plain sample needs, proved outside the
      rendering facts that make them expensive in context. */
  lemma PlainLines()
    ensures "Điều 1" + ". " + "Phạm vi" == "Điều 1. Phạm vi"
    ensures "1" + ". " + "" + "Nội dung A" == "1. Nội dung A"
    ensures "" + "a" + ") " + "" + "Chi tiết" == "a) Chi tiết"
  {
  }

  /** Without expansion: `Điều 1. Phạm vi\n1. Nội dung A\na) Chi tiết\n`. */
  lemma SamplePlain()
    ensures GetText(SampleArticle, false) == "Điều 1. Phạm vi" + "\n" + "1. Nội dung A" + "\n" + "a) Chi tiết" + "\n"
  {
    SampleLines(false, "Điều 1", "1", "", "", "");
    RenderAgrees(SampleArticle, false);
    PlainLines();
    assert ExpectedLines(SampleArticle, false) == ["Điều 1. Phạm vi", "1. Nội dung A", "a) Chi tiết"];
    JoinThree("Điều 1. Phạm vi", "1. Nội dung A", "a) Chi tiết");
  }

  /** The literal concatenations the expanded sample needs, proved outside
      the rendering facts that make them expensive in context. */
  lemma ExpandedPrefixes()
    ensures ClauseWord + "1" == "Khoản 1"
    ensures "Điều 1" + " " == "Điều 1 "
    ensures "Khoản 1" + " " + "Điều 1 " + " " == "Khoản 1 Điều 1  "
  {
  }

  lemma ExpandedLines()
    ensures "Điều 1" + ". " + "Phạm vi" == "Điều 1. Phạm vi"
    ensures "Khoản 1" + ". " + "Điều 1 " + "Nội dung A" == "Khoản 1. Điều 1 Nội dung A"
    ensures "Điểm " + "a" + ") " + "Khoản 1 Điều 1  " + "Chi tiết" == "Điểm a) Khoản 1 Điều 1  Chi tiết"
  {
  }

  /** With expansion the point line repeats the clause label without its
      period and the article label, followed by two blanks. */
  lemma SampleExpanded()
    ensures GetText(SampleArticle, true) ==
      "Điều 1. Phạm vi" + "\n" + "Khoản 1. Điều 1 Nội dung A" + "\n" + "Điểm a) Khoản 1 Điều 1  Chi tiết" + "\n"
  {
    ExpandedPrefixes();
    SampleLines(true, "Điều 1", "Khoản 1", "Điều 1 ", "Khoản 1 Điều 1  ", "Điểm ");
    RenderAgrees(SampleArticle, true);
    ExpandedLines();
    assert ExpectedLines(SampleArticle, true) ==
      ["Điều 1. Phạm vi", "Khoản 1. Điều 1 Nội dung A", "Điểm a) Khoản 1 Điều 1  Chi tiết"];
    JoinThree("Điều 1. Phạm vi", "Khoản 1. Điều 1 Nội dung A", "Điểm a) Khoản 1 Điều 1  Chi tiết");
  }
}
