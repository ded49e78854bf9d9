/** The Python string primitives the indexing scripts rely on, written out at
    the character level: `str.isspace`, `str.strip`, `str.split("\n")`,
    `"\n".join`, the substring test `in` and `str.replace`. */
module Text {

  /** Python's `str.isspace()`: the characters `str.strip()` removes and the
      regular-expression class `\s` matches in a `str` pattern. */
  predicate IsSpace(c: char) {
    || c == ' '
    || '\t' <= c <= '\r'
    || '\U{001C}' <= c <= '\U{001F}'
    || c == '\U{0085}' || c == '\U{00A0}' || c == '\U{1680}'
    || '\U{2000}' <= c <= '\U{200A}'
    || c == '\U{2028}' || c == '\U{2029}' || c == '\U{202F}'
    || c == '\U{205F}' || c == '\U{3000}'
  }

  /** The digit class: ASCII `0`-`9` (Python's `\d` also admits other
      Unicode decimal digits; see README). */
  predicate IsDigit(c: char) {
    '0' <= c <= '9'
  }

  /** The character set of `str.strip(". ")`. */
  predicate IsDotOrBlank(c: char) {
    c == '.' || c == ' '
  }

  predicate NotNewline(c: char) {
    c != '\n'
  }

  /** Every character of `s` satisfies `p`. */
  predicate All(s: string, p: char -> bool) {
    forall k | 0 <= k < |s| :: p(s[k])
  }

  predicate AllDigits(s: string) {
    forall k | 0 <= k < |s| :: IsDigit(s[k])
  }

  predicate AllSpace(s: string) {
    forall k | 0 <= k < |s| :: IsSpace(s[k])
  }

  predicate NoNewline(s: string) {
    forall k | 0 <= k < |s| :: s[k] != '\n'
  }

  predicate StartsWith(s: string, prefix: string) {
    |prefix| <= |s| && s[..|prefix|] == prefix
  }

  /** `pat` occurs in `s` starting at index `i`. */
  predicate OccursAt(s: string, pat: string, i: int) {
    0 <= i && i + |pat| <= |s| && s[i..i + |pat|] == pat
  }

  /** Length of the longest prefix of `s` whose characters all satisfy `p`
      (what a greedy `p*` consumes). */
  function Span(s: string, p: char -> bool): (n: nat)
    ensures n <= |s|
    ensures forall k | 0 <= k < n :: p(s[k])
    ensures n < |s| ==> !p(s[n])
  {
    if |s| == 0 || !p(s[0]) then 0 else 1 + Span(s[1..], p)
  }

  /** Length of the longest suffix of `s` whose characters all satisfy `p`. */
  function SpanBack(s: string, p: char -> bool): (n: nat)
    ensures n <= |s|
    ensures forall k | |s| - n <= k < |s| :: p(s[k])
    ensures n < |s| ==> !p(s[|s| - 1 - n])
  {
    if |s| == 0 || !p(s[|s| - 1]) then 0
    else
      var t := s[..|s| - 1];
      var n := SpanBack(t, p);
      assert forall k | |t| - n <= k < |t| :: s[k] == t[k];
      1 + n
  }

  /** Python's `s.strip(chars)` where `p` is the membership test of `chars`:
      the result is the piece of `s` left after removing every leading and
      every trailing character in the set, and it neither starts nor ends
      with one. */
  function StripBy(s: string, p: char -> bool): (r: string)
    ensures exists i, j :: 0 <= i <= j <= |s| && r == s[i..j] && All(s[..i], p) && All(s[j..], p)
    ensures |r| > 0 ==> !p(r[0]) && !p(r[|r| - 1])
    ensures |r| <= |s|
  {
    var i := Span(s, p);
    var t := s[i..];
    var j := |t| - SpanBack(t, p);
    assert s[i..][..j] == s[i..i + j];
    assert All(s[..i], p);
    assert s[i + j..] == t[j..];
    t[..j]
  }

  /** Python's `s.strip()`. */
  function Strip(s: string): string {
    StripBy(s, IsSpace)
  }

  /** Python's `"\n".join(ls)`. */
  function JoinNl(ls: seq<string>): string
    requires |ls| >= 1
  {
    if |ls| == 1 then ls[0] else ls[0] + "\n" + JoinNl(ls[1..])
  }

  lemma JoinNlHead(x: string, y: string, t: seq<string>)
    ensures JoinNl([x + y] + t) == x + JoinNl([y] + t)
  {
    if |t| > 0 {
      assert ([x + y] + t)[1..] == t;
      assert ([y] + t)[1..] == t;
    }
  }

  /** Python's `s.split("\n")`: the pieces contain no line break and joining
      them with line breaks gives `s` back. */
  function Split(s: string): (r: seq<string>)
    ensures |r| >= 1
    ensures forall i | 0 <= i < |r| :: NoNewline(r[i])
    ensures JoinNl(r) == s
  {
    if |s| == 0 then [""]
    else
      var rest := Split(s[1..]);
      if s[0] == '\n' then
        assert ([""] + rest)[1..] == rest;
        assert s == "" + "\n" + s[1..];
        [""] + rest
      else
        JoinNlHead([s[0]], rest[0], rest[1..]);
        assert [rest[0]] + rest[1..] == rest;
        assert s == [s[0]] + s[1..];
        [[s[0]] + rest[0]] + rest[1..]
  }

  /** The first piece of a join is exactly the text before its first line
      break, and a line break follows it when more pieces come. */
  lemma JoinNlFirst(ls: seq<string>)
    requires |ls| >= 1
    requires NoNewline(ls[0])
    ensures |JoinNl(ls)| >= |ls[0]|
    ensures JoinNl(ls)[..|ls[0]|] == ls[0]
    ensures Span(JoinNl(ls), NotNewline) == |ls[0]|
    ensures |ls| > 1 <==> |JoinNl(ls)| > |ls[0]|
    ensures |ls| > 1 ==> JoinNl(ls)[|ls[0]| + 1..] == JoinNl(ls[1..])
  {
    var s := JoinNl(ls);
    if |ls| > 1 {
      assert s == ls[0] + ("\n" + JoinNl(ls[1..]));
      assert s[|ls[0]|] == '\n';
    }
    SpanIsBoundary(s, NotNewline, |ls[0]|);
  }

  /** A greedy span stops exactly at the first character failing `p`. */
  lemma SpanIsBoundary(s: string, p: char -> bool, n: nat)
    requires n <= |s|
    requires forall k | 0 <= k < n :: p(s[k])
    requires n < |s| ==> !p(s[n])
    ensures Span(s, p) == n
  {
  }

  /** Joining with line breaks is injective on line-break-free pieces. */
  lemma {:induction false} JoinNlInjective(a: seq<string>, b: seq<string>)
    requires |a| >= 1 && |b| >= 1
    requires forall i | 0 <= i < |a| :: NoNewline(a[i])
    requires forall i | 0 <= i < |b| :: NoNewline(b[i])
    requires JoinNl(a) == JoinNl(b)
    ensures a == b
    decreases |a|
  {
    JoinNlFirst(a);
    JoinNlFirst(b);
    assert a[0] == b[0];
    if |a| > 1 {
      JoinNlInjective(a[1..], b[1..]);
      assert a == [a[0]] + a[1..] && b == [b[0]] + b[1..];
    } else {
      assert a == [a[0]] && b == [b[0]];
    }
  }

  /** Splitting undoes joining: `"\n".join(ls).split("\n") == ls` whenever no
      piece holds a line break. */
  lemma SplitJoin(ls: seq<string>)
    requires |ls| >= 1
    requires forall i | 0 <= i < |ls| :: NoNewline(ls[i])
    ensures Split(JoinNl(ls)) == ls
  {
    JoinNlInjective(Split(JoinNl(ls)), ls);
  }

  /** Text made of lines each terminated by one line break. */
  function JoinLines(ls: seq<string>): string
  {
    if |ls| == 0 then "" else JoinLines(ls[..|ls| - 1]) + ls[|ls| - 1] + "\n"
  }

  lemma {:induction false} JoinLinesAsJoinNl(ls: seq<string>)
    ensures JoinLines(ls) == JoinNl(ls + [""])
  {
    if |ls| > 0 {
      var init := ls[..|ls| - 1];
      var last := ls[|ls| - 1];
      JoinLinesAsJoinNl(init);
      JoinNlSnoc(init, last);
      assert init + [last] == ls;
      assert init + [last] + [""] == ls + [""];
    }
  }

  lemma {:induction false} JoinNlSnoc(init: seq<string>, last: string)
    ensures JoinNl(init + [last] + [""]) == JoinNl(init + [""]) + last + "\n"
  {
    if |init| == 0 {
      assert [last] + [""] == [last, ""];
      assert JoinNl([last, ""]) == last + "\n" + JoinNl([""]);
    } else {
      assert (init + [last] + [""])[1..] == init[1..] + [last] + [""];
      assert (init + [""])[1..] == init[1..] + [""];
      JoinNlSnoc(init[1..], last);
    }
  }

  /** Splitting rendered lines gives the lines back plus the empty piece after
      the final line break. */
  lemma SplitJoinLines(ls: seq<string>)
    requires forall i | 0 <= i < |ls| :: NoNewline(ls[i])
    ensures Split(JoinLines(ls)) == ls + [""]
  {
    JoinLinesAsJoinNl(ls);
    SplitJoin(ls + [""]);
  }

  lemma {:induction false} JoinLinesAppend(xs: seq<string>, ys: seq<string>)
    ensures JoinLines(xs + ys) == JoinLines(xs) + JoinLines(ys)
    decreases |ys|
  {
    if |ys| == 0 {
      assert xs + ys == xs;
    } else {
      var init := ys[..|ys| - 1];
      var y := ys[|ys| - 1];
      JoinLinesAppend(xs, init);
      assert (xs + ys)[..|xs + ys| - 1] == xs + init;
      assert (xs + ys)[|xs + ys| - 1] == y;
      assert JoinLines(xs + ys) == JoinLines(xs + init) + y + "\n";
      assert JoinLines(ys) == JoinLines(init) + y + "\n";
    }
  }

  lemma JoinLinesSnoc(init: seq<string>, x: string)
    ensures JoinLines(init + [x]) == JoinLines(init) + x + "\n"
    ensures |JoinLines(init)| > 0 ==> JoinLines(init)[|JoinLines(init)| - 1] == '\n'
  {
    assert (init + [x])[..|init|] == init;
  }

  lemma JoinLinesCons(x: string, ys: seq<string>)
    ensures JoinLines([x] + ys) == x + "\n" + JoinLines(ys)
  {
    JoinLinesAppend([x], ys);
    assert [x][..0] == [];
  }

  lemma NoNewlineConcat(a: string, b: string)
    requires NoNewline(a) && NoNewline(b)
    ensures NoNewline(a + b)
  {
    assert forall k | |a| <= k < |a + b| :: (a + b)[k] == b[k - |a|];
  }

  /** Python's substring test `pat in s`. */
  function Contains(s: string, pat: string): (r: bool)
    ensures r <==> exists i :: OccursAt(s, pat, i)
    decreases |s|
  {
    if StartsWith(s, pat) then
      assert OccursAt(s, pat, 0);
      true
    else if |s| == 0 then
      false
    else
      var r := Contains(s[1..], pat);
      assert r ==> exists i :: OccursAt(s, pat, i) by {
        if r {
          var i :| OccursAt(s[1..], pat, i);
          assert s[1..][i..i + |pat|] == s[i + 1..i + 1 + |pat|];
          assert OccursAt(s, pat, i + 1);
        }
      }
      assert (exists i :: OccursAt(s, pat, i)) ==> r by {
        if exists i :: OccursAt(s, pat, i) {
          var i :| OccursAt(s, pat, i);
          assert i != 0;
          assert s[1..][i - 1..i - 1 + |pat|] == s[i..i + |pat|];
          assert OccursAt(s[1..], pat, i - 1);
        }
      }
      r
  }

  /** Python's `s.replace(pat, by)` for a non-empty `pat`: occurrences are
      replaced left to right without overlapping. */
  function ReplaceAll(s: string, pat: string, repl: string): (r: string)
    requires |pat| > 0
    ensures |repl| == |pat| ==> |r| == |s|
    ensures |repl| <= |pat| ==> |r| <= |s|
    decreases |s|
  {
    if |s| < |pat| then s
    else if s[..|pat|] == pat then repl + ReplaceAll(s[|pat|..], pat, repl)
    else [s[0]] + ReplaceAll(s[1..], pat, repl)
  }

  /** Replacing a pattern that does not occur changes nothing. */
  lemma {:induction false} ReplaceAbsent(s: string, pat: string, repl: string)
    requires |pat| > 0
    requires forall i :: !OccursAt(s, pat, i)
    ensures ReplaceAll(s, pat, repl) == s
    decreases |s|
  {
    if |s| >= |pat| {
      assert !OccursAt(s, pat, 0);
      forall i ensures !OccursAt(s[1..], pat, i) {
        if OccursAt(s[1..], pat, i) {
          assert s[1..][i..i + |pat|] == s[i + 1..i + 1 + |pat|];
          assert OccursAt(s, pat, i + 1);
        }
      }
      ReplaceAbsent(s[1..], pat, repl);
      assert s == [s[0]] + s[1..];
    }
  }

  /** Replacing a pattern by itself changes nothing. */
  lemma {:induction false} ReplaceIdentity(s: string, pat: string)
    requires |pat| > 0
    ensures ReplaceAll(s, pat, pat) == s
    decreases |s|
  {
    if |s| >= |pat| {
      if s[..|pat|] == pat {
        ReplaceIdentity(s[|pat|..], pat);
        assert s == s[..|pat|] + s[|pat|..];
      } else {
        ReplaceIdentity(s[1..], pat);
        assert s == [s[0]] + s[1..];
      }
    }
  }

  /** A leading occurrence is replaced and the rest is processed as usual. */
  lemma ReplaceLeading(pat: string, s: string, repl: string)
    requires |pat| > 0
    ensures ReplaceAll(pat + s, pat, repl) == repl + ReplaceAll(s, pat, repl)
  {
    assert (pat + s)[..|pat|] == pat;
    assert (pat + s)[|pat|..] == s;
  }
}
