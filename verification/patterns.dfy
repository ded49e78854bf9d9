/** The four line patterns of the statute parser, as explicit character-level
    matchers with Python `re.match` semantics (anchored at the start, greedy):

      CHUONG  ^Chương\s+([IVXLCDM]+|\d+)      case-insensitive
      DIEU    ^Điều\s+(\d+[a-zđ]?)            case-insensitive
      KHOAN   ^(\d+)\.\s*(.*)
      MUC     ^([a-zđA-ZĐ])\)\s*(.*)

    Each matcher's contract gives the regular-expression reading of the
    pattern (a split of the line into the pieces the pattern describes),
    independently of how the matcher scans. */
module Patterns {
  import opened Wrappers
  import opened Text

  /** What a match yields: the first capture group and the text after it
      (for CHUONG nothing is captured, for DIEU `rest` is `line[m.end():]`,
      for KHOAN and MUC it is the second group). */
  datatype Hit = Hit(group: string, rest: string)

  const ChapterKeyword: string := "Chương"
  const ArticleKeyword: string := "Điều"

  /** Lower-casing as `re.IGNORECASE` applies it to the characters that can
      meet the case-insensitive patterns: ASCII capitals, the capitals of the
      Vietnamese letters in the keywords, and the four characters Python
      folds onto ASCII letters (U+0130, U+0131, U+017F, U+212A). */
  function Fold(c: char): char {
    if 'A' <= c <= 'Z' then (c as int + 32) as char
    else if c == 'Đ' then 'đ'
    else if c == 'Ư' then 'ư'
    else if c == 'Ơ' then 'ơ'
    else if c == 'Ề' then 'ề'
    else if c == '\U{0130}' || c == '\U{0131}' then 'i'
    else if c == '\U{017F}' then 's'
    else if c == '\U{212A}' then 'k'
    else c
  }

  /** `s` begins with `keyword`, compared case-insensitively. */
  predicate KeywordAt(s: string, keyword: string) {
    |keyword| <= |s| && forall k | 0 <= k < |keyword| :: Fold(s[k]) == Fold(keyword[k])
  }

  /** One character of `[IVXLCDM]` (case-insensitive) or `\d`. */
  predicate IsNumeral(c: char) {
    var f := Fold(c);
    f == 'i' || f == 'v' || f == 'x' || f == 'l' || f == 'c' || f == 'd' || f == 'm' || IsDigit(c)
  }

  /** One character of `[a-zđ]` under `re.IGNORECASE`. */
  predicate IsArticleLetter(c: char) {
    var f := Fold(c);
    'a' <= f <= 'z' || f == 'đ'
  }

  /** One character of `[a-zđA-ZĐ]` (case-sensitive). */
  predicate IsPointLetter(c: char) {
    'a' <= c <= 'z' || 'A' <= c <= 'Z' || c == 'đ' || c == 'Đ'
  }

  /** The chapter pattern matches with its `\s+` covering `line[|keyword|..j]`
      and the numeral starting at `j`; one numeral character is enough for
      `[IVXLCDM]+` or `\d+` to succeed. */
  predicate ChapterShape(line: string, j: int) {
    && |ChapterKeyword| < j < |line|
    && KeywordAt(line, ChapterKeyword)
    && (forall k | |ChapterKeyword| <= k < j :: IsSpace(line[k]))
    && IsNumeral(line[j])
  }

  /** `CHUONG_PATTERN.match(line)` succeeds. */
  function MatchChuong(line: string): (r: bool)
    ensures r <==> exists j :: ChapterShape(line, j)
    ensures r ==> KeywordAt(line, ChapterKeyword)
  {
    var n := |ChapterKeyword|;
    if !KeywordAt(line, ChapterKeyword) then false
    else
      var w := Span(line[n..], IsSpace);
      var r := 0 < w && n + w < |line| && IsNumeral(line[n + w]);
      assert r ==> ChapterShape(line, n + w) by {
        if r { assert forall k | n <= k < n + w :: line[k] == line[n..][k - n]; }
      }
      assert forall j | ChapterShape(line, j) :: j == n + w by {
        forall j | ChapterShape(line, j) ensures j == n + w {
          ChapterShapeAtSpan(line, j);
        }
      }
      r
  }

  /** The chapter pattern's numeral can only start right after the greedy
      run of blanks that follows the keyword. */
  lemma ChapterShapeAtSpan(line: string, j: int)
    requires |ChapterKeyword| <= |line|
    ensures var n := |ChapterKeyword|;
      ChapterShape(line, j) ==> j == n + Span(line[n..], IsSpace)
  {
    var n := |ChapterKeyword|;
    if ChapterShape(line, j) {
      var s := line[n..];
      assert forall k | 0 <= k < j - n :: IsSpace(s[k]) by {
        assert forall k | 0 <= k < j - n :: s[k] == line[n + k];
      }
      assert s[j - n] == line[j];
      SpanIsBoundary(s, IsSpace, j - n);
    }
  }

  /** The article pattern's `\s+` covers `line[|keyword|..j]` and its digits
      start at `j`. */
  predicate ArticleShape(line: string, j: int) {
    && |ArticleKeyword| < j < |line|
    && KeywordAt(line, ArticleKeyword)
    && (forall k | |ArticleKeyword| <= k < j :: IsSpace(line[k]))
    && IsDigit(line[j])
  }

  /** Digits followed by at most one `[a-zđ]` letter: the text of DIEU's group. */
  predicate IsArticleNumber(s: string) {
    && |s| >= 1
    && IsDigit(s[0])
    && (AllDigits(s) || (AllDigits(s[..|s| - 1]) && IsArticleLetter(s[|s| - 1])))
  }

  /** Length of the greedy `\d+[a-zđ]?` at the start of `s`. */
  function NumberLength(s: string): (e: nat)
    requires |s| > 0 && IsDigit(s[0])
    ensures 1 <= e <= |s|
    ensures IsArticleNumber(s[..e])
    ensures AllDigits(s[..e]) && e < |s| ==> !IsDigit(s[e]) && !IsArticleLetter(s[e])
  {
    var d := Span(s, IsDigit);
    if d < |s| && IsArticleLetter(s[d]) then
      assert s[..d + 1][..d] == s[..d];
      d + 1
    else
      d
  }

  /** `DIEU_PATTERN.match(line)`: the group is the whole digit run after the
      keyword and blanks, plus the letter right after it when there is one
      (greedy `\d+[a-zđ]?`), and `rest` is everything after the group. */
  function MatchDieu(line: string): (r: Option<Hit>)
    ensures r.Some? <==> exists j :: ArticleShape(line, j)
    ensures r.Some? ==> KeywordAt(line, ArticleKeyword) && ArticleHit(line, r.value)
  {
    var n := |ArticleKeyword|;
    if !KeywordAt(line, ArticleKeyword) then None
    else
      var w := Span(line[n..], IsSpace);
      var j := n + w;
      if w == 0 || j >= |line| || !IsDigit(line[j]) then
        NoArticleShape(line);
        None
      else
        ArticleShapeFound(line, j);
        var s := line[j..];
        var e := NumberLength(s);
        var h := Hit(s[..e], s[e..]);
        ArticleGroup(line, j, h);
        Some(h)
  }

  /** The blanks after the keyword end at a digit: the article pattern
      matches there. */
  lemma ArticleShapeFound(line: string, j: int)
    requires KeywordAt(line, ArticleKeyword)
    requires j == |ArticleKeyword| + Span(line[|ArticleKeyword|..], IsSpace)
    requires |ArticleKeyword| < j < |line| && IsDigit(line[j])
    ensures ArticleShape(line, j)
  {
    var n := |ArticleKeyword|;
    var w := Span(line[n..], IsSpace);
    assert forall k | n <= k < n + w :: line[k] == line[n..][k - n];
  }

  /** How a DIEU match splits the line: `line[j..]` is the group, an
      article number, followed by `rest`, where the article pattern matches
      with its digits at `j`; a group of digits only is not followed by a
      digit or a letter (the greedy reading). */
  predicate ArticleHit(line: string, h: Hit) {
    && IsArticleNumber(h.group)
    && |h.group| + |h.rest| <= |line|
    && var j := |line| - |h.rest| - |h.group|;
    && ArticleShape(line, j)
    && line[j..] == h.group + h.rest
    && (AllDigits(h.group) && |h.rest| > 0 ==> !IsDigit(h.rest[0]) && !IsArticleLetter(h.rest[0]))
  }

  /** The group and rest the matcher cuts at `j` form an article hit. */
  lemma ArticleGroup(line: string, j: nat, h: Hit)
    requires ArticleShape(line, j)
    requires NumberLength(line[j..]) <= |line| - j
    requires h == Hit(line[j..][..NumberLength(line[j..])], line[j..][NumberLength(line[j..])..])
    ensures ArticleHit(line, h)
  {
    var s := line[j..];
    var e := NumberLength(s);
    assert s == s[..e] + s[e..];
  }

  /** The article pattern's digits can only start right after the greedy
      run of blanks that follows the keyword. */
  lemma ArticleShapeAtSpan(line: string, j: int)
    requires |ArticleKeyword| <= |line|
    ensures var n := |ArticleKeyword|;
      ArticleShape(line, j) ==> j == n + Span(line[n..], IsSpace)
  {
    var n := |ArticleKeyword|;
    if ArticleShape(line, j) {
      var s := line[n..];
      assert forall k | 0 <= k < j - n :: IsSpace(s[k]) by {
        assert forall k | 0 <= k < j - n :: s[k] == line[n + k];
      }
      assert s[j - n] == line[j];
      SpanIsBoundary(s, IsSpace, j - n);
    }
  }

  lemma NoArticleShape(line: string)
    requires KeywordAt(line, ArticleKeyword)
    requires var n := |ArticleKeyword|; var j := n + Span(line[n..], IsSpace);
      j == n || j >= |line| || !IsDigit(line[j])
    ensures !exists j :: ArticleShape(line, j)
  {
    forall j ensures !ArticleShape(line, j) {
      ArticleShapeAtSpan(line, j);
    }
  }

  /** The article's inline content: the text after DIEU's match with `.` and
      blanks stripped from both ends, then whitespace stripped
      (`line[m.end():].strip(". ").strip()`). */
  function ArticleContent(rest: string): (r: string)
    ensures |r| <= |rest|
    ensures |r| > 0 ==> !IsSpace(r[0]) && !IsSpace(r[|r| - 1])
  {
    Strip(StripBy(rest, IsDotOrBlank))
  }

  /** The `\s*(.*)` tail shared by KHOAN and MUC: the group is what follows the
      greedy run of whitespace, up to (not including) the next line break. */
  function TailGroup(after: string): (g: string)
    ensures |g| <= |after|
    ensures NoNewline(g)
    ensures |g| > 0 ==> !IsSpace(g[0])
  {
    var w := Span(after, IsSpace);
    var body := after[w..];
    body[..Span(body, NotNewline)]
  }

  /** The regular-expression reading of `\s*(.*)`: the group sits after a
      run of whitespace and is followed by the end of the text or by a line
      break. */
  lemma TailGroupShape(after: string)
    ensures var g := TailGroup(after);
      exists i ::
        && 0 <= i <= |after| - |g|
        && AllSpace(after[..i])
        && after[i..i + |g|] == g
        && (i + |g| < |after| ==> after[i + |g|] == '\n' && |g| > 0)
  {
    var g := TailGroup(after);
    var i := Span(after, IsSpace);
    var body := after[i..];
    var m := Span(body, NotNewline);
    assert g == body[..m];
    assert after[i..i + m] == body[..m];
    assert AllSpace(after[..i]);
    assert i + m < |after| ==> after[i + m] == '\n' && m > 0 by {
      if i + m < |after| {
        assert after[i + m] == body[m];
      }
    }
  }

  /** The clause pattern's digits cover `line[..j]` and its `.` sits at `j`. */
  predicate ClauseShape(line: string, j: int) {
    && 0 < j < |line|
    && (forall k | 0 <= k < j :: IsDigit(line[k]))
    && line[j] == '.'
  }

  /** The clause pattern's `.` can only follow the whole leading digit run. */
  lemma ClauseShapeAtSpan(line: string, j: int)
    ensures ClauseShape(line, j) ==> j == Span(line, IsDigit)
  {
    if ClauseShape(line, j) {
      SpanIsBoundary(line, IsDigit, j);
    }
  }

  /** The clause pattern matches exactly when the leading digit run is
      non-empty and followed by `.`. */
  lemma ClauseShapeAtDigits(line: string)
    ensures var d := Span(line, IsDigit);
      (exists j :: ClauseShape(line, j)) <==> 0 < d < |line| && line[d] == '.'
    ensures var d := Span(line, IsDigit);
      0 < d < |line| && line[d] == '.' ==> ClauseShape(line, d)
  {
    var d := Span(line, IsDigit);
    forall j | ClauseShape(line, j) ensures j == d {
      ClauseShapeAtSpan(line, j);
    }
    if 0 < d < |line| && line[d] == '.' {
      assert forall k | 0 <= k < d :: IsDigit(line[k]);
      assert ClauseShape(line, d);
    }
  }

  /** `KHOAN_PATTERN.match(line)`: group 1 is the leading digits and group 2
      the tail after the `.`. */
  function MatchKhoan(line: string): (r: Option<Hit>)
    ensures r.Some? <==> exists j :: ClauseShape(line, j)
    ensures r.Some? ==>
      && ClauseShape(line, |r.value.group|)
      && line[..|r.value.group|] == r.value.group
      && r.value.rest == TailGroup(line[|r.value.group| + 1..])
  {
    var d := Span(line, IsDigit);
    ClauseShapeAtDigits(line);
    if 0 < d < |line| && line[d] == '.' then
      var g := line[..d];
      Some(Hit(g, TailGroup(line[|g| + 1..])))
    else None
  }

  /** `MUC_PATTERN.match(line)`: group 1 is the single letter before `)` and
      group 2 the tail after it. */
  function MatchMuc(line: string): (r: Option<Hit>)
    ensures r.Some? <==> |line| >= 2 && IsPointLetter(line[0]) && line[1] == ')'
    ensures r.Some? ==>
      && r.value.group == [line[0]]
      && r.value.rest == TailGroup(line[2..])
  {
    if |line| >= 2 && IsPointLetter(line[0]) && line[1] == ')' then
      Some(Hit([line[0]], TailGroup(line[2..])))
    else
      None
  }

  /** A line starting with a digit, or with `)` in second place, begins with
      neither keyword. */
  lemma NoKeywordAt(line: string)
    requires (|line| > 0 && IsDigit(line[0])) || (|line| > 1 && line[1] == ')')
    ensures !KeywordAt(line, ChapterKeyword) && !KeywordAt(line, ArticleKeyword)
  {
    assert Fold(ChapterKeyword[0]) == 'c' && Fold(ChapterKeyword[1]) == 'h';
    assert Fold(ArticleKeyword[0]) == 'đ' && Fold(ArticleKeyword[1]) == 'i';
    if |line| > 0 && IsDigit(line[0]) {
      assert Fold(line[0]) == line[0];
    } else {
      assert Fold(line[1]) == ')';
    }
  }

  /** A clause line starts with a digit and a point line with `x)`, so
      neither can be a chapter or article header: the order in which the
      source tries the patterns only matters for the open-parent guards. */
  lemma ClauseLineIsNoHeader(line: string)
    ensures MatchKhoan(line).Some? ==> !MatchChuong(line) && MatchDieu(line).None? && MatchMuc(line).None?
  {
    if MatchKhoan(line).Some? {
      assert IsDigit(line[..|MatchKhoan(line).value.group|][0]);
      NoKeywordAt(line);
    }
  }

  lemma PointLineIsNoHeader(line: string)
    ensures MatchMuc(line).Some? ==> !MatchChuong(line) && MatchDieu(line).None? && MatchKhoan(line).None?
  {
    if MatchMuc(line).Some? {
      NoKeywordAt(line);
      assert !IsDigit(line[0]);
    }
  }
}
