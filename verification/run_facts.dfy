/** `parse_text` over a whole text, against a reference that needs no tree:
    each line is classified on its own, an open depth (0 nothing, 1 chapter,
    2 article, 3 clause, 4 point) is tracked, and the node counts and the
    document-order texts are computed from the classification and the depth
    alone. The lemmas show the parser agrees with it. */
module RunFacts {
  import opened Wrappers
  import opened Text
  import opened Patterns
  import opened Tree
  import opened Parser
  import opened ParseFacts

  /** A line's class, from its stripped text alone, in the order the loop
      tries the patterns. */
  datatype Kind = Blank | ChapterLine | ArticleLine | ClauseLine | PointLine | TextLine

  function KindOf(raw: string): Kind {
    var s := Strip(raw);
    if s == [] then Blank
    else if MatchChuong(s) then ChapterLine
    else if MatchDieu(s).Some? then ArticleLine
    else if MatchKhoan(s).Some? then ClauseLine
    else if MatchMuc(s).Some? then PointLine
    else TextLine
  }

  /** How deep the open path is after `lines`: a header opens its level and
      closes those below; a clause (point) line opens a clause (point) only
      below an open article (clause), and is plain text otherwise. */
  function Depth(lines: seq<string>): (d: nat)
    ensures d <= 4
  {
    if |lines| == 0 then 0
    else
      var d := Depth(lines[..|lines| - 1]);
      match KindOf(lines[|lines| - 1])
      case ChapterLine => 1
      case ArticleLine => 2
      case ClauseLine => if d >= 2 then 3 else d
      case PointLine => if d >= 3 then 4 else d
      case _ => d
  }

  /** The node counts the classification predicts. */
  function Expected(lines: seq<string>): Tally {
    if |lines| == 0 then Tally(0, 0, 0, 0)
    else
      var init := lines[..|lines| - 1];
      var t := Expected(init);
      var d := Depth(init);
      match KindOf(lines[|lines| - 1])
      case ChapterLine => t.(chapters := t.chapters + 1)
      case ArticleLine => t.(chapters := t.chapters + (if d == 0 then 1 else 0), articles := t.articles + 1)
      case ClauseLine => if d >= 2 then t.(clauses := t.clauses + 1) else t
      case PointLine => if d >= 3 then t.(points := t.points + 1) else t
      case _ => t
  }

  /** The document-order texts the classification predicts: a header adds
      its key and inline content, a line that opens nothing is appended to
      the last text once a chapter is open and stands alone before that. */
  function ExpectedTexts(lines: seq<string>): (r: seq<string>)
    ensures Depth(lines) >= 1 ==> |r| >= 2
  {
    if |lines| == 0 then []
    else
      var init := lines[..|lines| - 1];
      var t := ExpectedTexts(init);
      var d := Depth(init);
      var s := Strip(lines[|lines| - 1]);
      match KindOf(lines[|lines| - 1])
      case Blank => t
      case ChapterLine => t + [s, ""]
      case ArticleLine =>
        var h := MatchDieu(s).value;
        t + (if d == 0 then [DefaultChapterTitle, ""] else []) + [ArticleKey(h.group), ArticleContent(h.rest)]
      case ClauseLine =>
        if d >= 2 then t + [ClauseKey(MatchKhoan(s).value.group), MatchKhoan(s).value.rest]
        else if d >= 1 then AppendLast(t, " " + s) else t + [s]
      case PointLine =>
        if d >= 3 then t + [PointKey(MatchMuc(s).value.group), MatchMuc(s).value.rest]
        else if d >= 1 then AppendLast(t, " " + s) else t + [s]
      case TextLine =>
        if d >= 1 then AppendLast(t, " " + s) else t + [s]
  }

  /** The builder's open references, read as a depth. */
  function DepthOf(b: Builder): nat {
    if b.point.Some? then 4
    else if b.clause.Some? then 3
    else if b.article.Some? then 2
    else if b.chapter.Some? then 1
    else 0
  }

  /** The action the loop takes on a line, from its class and the depth. */
  lemma StepKind(b: Builder, raw: string)
    requires Valid(b)
    ensures var act := Dispatch(b, Strip(raw)); var d := DepthOf(b);
      match KindOf(raw)
      case Blank => act.Skip?
      case ChapterLine => act.NewChapter?
      case ArticleLine => act.NewArticle?
      case ClauseLine => if d >= 2 then act.NewClause? else act.Continue?
      case PointLine => if d >= 3 then act.NewPoint? else act.Continue?
      case TextLine => act.Continue?
  {
    var s := Strip(raw);
    if KindOf(raw) == ClauseLine {
      ClauseLineIsNoHeader(s);
    } else if KindOf(raw) == PointLine {
      PointLineIsNoHeader(s);
    }
  }

  /** One step moves the open depth as `Depth` predicts. */
  lemma StepDepth(b: Builder, raw: string)
    requires Valid(b)
    ensures var d := DepthOf(b);
      DepthOf(Step(b, raw)) ==
        match KindOf(raw)
        case ChapterLine => 1
        case ArticleLine => 2
        case ClauseLine => if d >= 2 then 3 else d
        case PointLine => if d >= 3 then 4 else d
        case _ => d
  {
    StepKind(b, raw);
  }

  lemma {:induction false} RunDepth(lines: seq<string>)
    ensures DepthOf(Run(lines)) == Depth(lines)
  {
    if |lines| > 0 {
      RunDepth(lines[..|lines| - 1]);
      StepDepth(Run(lines[..|lines| - 1]), lines[|lines| - 1]);
    }
  }

  /** One step moves the tally as `Expected` predicts. */
  lemma StepTally(b: Builder, raw: string)
    requires Valid(b)
    ensures var t := TallyOf(b.roots); var d := DepthOf(b);
      TallyOf(Step(b, raw).roots) ==
        match KindOf(raw)
        case ChapterLine => t.(chapters := t.chapters + 1)
        case ArticleLine => t.(chapters := t.chapters + (if d == 0 then 1 else 0), articles := t.articles + 1)
        case ClauseLine => if d >= 2 then t.(clauses := t.clauses + 1) else t
        case PointLine => if d >= 3 then t.(points := t.points + 1) else t
        case _ => t
  {
    StepKind(b, raw);
    ApplyCounts(b, Dispatch(b, Strip(raw)));
  }

  /** The parser creates exactly the nodes the classification predicts: one
      article per article header, one chapter per chapter header plus a
      "Chuong 0" for an article before any chapter, and a clause (point)
      only for a clause (point) line under an open article (clause). */
  lemma {:induction false} RunTally(lines: seq<string>)
    ensures TallyOf(Run(lines).roots) == Expected(lines)
  {
    if |lines| > 0 {
      var init := lines[..|lines| - 1];
      RunTally(init);
      RunDepth(init);
      StepTally(Run(init), lines[|lines| - 1]);
    }
  }

  /** One step moves the document-order texts as `ExpectedTexts` predicts. */
  lemma StepTexts(b: Builder, raw: string)
    requires Valid(b)
    ensures DepthOf(b) >= 1 ==> |Texts(b.roots)| >= 2
    ensures var t := Texts(b.roots); var d := DepthOf(b); var s := Strip(raw);
      Texts(Step(b, raw).roots) ==
        match KindOf(raw)
        case Blank => t
        case ChapterLine => t + [s, ""]
        case ArticleLine =>
          var h := MatchDieu(s).value;
          t + (if d == 0 then [DefaultChapterTitle, ""] else []) + [ArticleKey(h.group), ArticleContent(h.rest)]
        case ClauseLine =>
          if d >= 2 then t + [ClauseKey(MatchKhoan(s).value.group), MatchKhoan(s).value.rest]
          else if d >= 1 then AppendLast(t, " " + s) else t + [s]
        case PointLine =>
          if d >= 3 then t + [PointKey(MatchMuc(s).value.group), MatchMuc(s).value.rest]
          else if d >= 1 then AppendLast(t, " " + s) else t + [s]
        case TextLine =>
          if d >= 1 then AppendLast(t, " " + s) else t + [s]
  {
    StepKind(b, raw);
    ApplyTexts(b, Dispatch(b, Strip(raw)));
  }

  /** The texts the parser stores, in document order, are exactly those the
      classification predicts. */
  lemma {:induction false} RunTexts(lines: seq<string>)
    ensures Texts(Run(lines).roots) == ExpectedTexts(lines)
  {
    if |lines| > 0 {
      var init := lines[..|lines| - 1];
      RunTexts(init);
      RunDepth(init);
      StepTexts(Run(init), lines[|lines| - 1]);
    }
  }

  /** Later lines never undo earlier ones: the tree after a prefix of the
      lines grows into the final tree. */
  lemma {:induction false} RunGrows(lines: seq<string>, i: nat)
    requires i <= |lines|
    ensures Grows(Run(lines[..i]).roots, Run(lines).roots)
  {
    if i == |lines| {
      assert lines[..i] == lines;
      GrowsRefl(Run(lines).roots);
    } else {
      var init := lines[..|lines| - 1];
      assert init[..i] == lines[..i];
      RunGrows(init, i);
      var b := Run(init);
      ApplyGrows(b, Dispatch(b, Strip(lines[|lines| - 1])));
      GrowsTrans(Run(lines[..i]).roots, b.roots, Run(lines).roots);
    }
  }

  lemma StripNoNewline(raw: string)
    requires NoNewline(raw)
    ensures NoNewline(Strip(raw))
  {
    StripByNoNewline(raw, IsSpace);
  }

  /** Lines without line breaks give keys in the captured shapes and texts
      without line breaks. */
  lemma {:induction false} RunOk(lines: seq<string>)
    requires forall i | 0 <= i < |lines| :: NoNewline(lines[i])
    ensures RootsOk(Run(lines).roots)
  {
    if |lines| > 0 {
      var init := lines[..|lines| - 1];
      var raw := lines[|lines| - 1];
      RunOk(init);
      var b := Run(init);
      StripNoNewline(raw);
      DispatchOk(b, Strip(raw));
      ApplyOk(b, Dispatch(b, Strip(raw)));
    }
  }

  /** `parse_text` on a whole text: Preambles come first, every key and text
      is well-formed, and the counts and document order are the predicted
      ones for the text's lines. */
  lemma ParseAgrees(text: string)
    ensures PreamblesFirst(Parse(text))
    ensures RootsOk(Parse(text))
    ensures TallyOf(Parse(text)) == Expected(Split(text))
    ensures Texts(Parse(text)) == ExpectedTexts(Split(text))
  {
    RunOk(Split(text));
    RunTally(Split(text));
    RunTexts(Split(text));
  }
}
