/** The two truncations the record loop applies to a rendered article, as
    explicit matchers with Python `re` semantics (leftmost match, lazy `+?`,
    `$` without MULTILINE):

      section rule  Mục [0-9]+[a-zđ]?. .+?$          no flags
      law rule      Luật này (đã )?được Quốc hội.+?$  DOTALL

    Each substitution runs only when `re.search` finds its marker first; the
    lemmas show that guard never changes the outcome. */
module PostProcess {
  import opened Wrappers
  import opened Text

  /** The first position in `from..n` satisfying `P`: where a left-to-right
      scan for a match stops. */
  function Leftmost(n: nat, from: nat, P: nat -> bool): (r: Option<nat>)
    ensures r.Some? ==> from <= r.value <= n && P(r.value)
    ensures r.Some? ==> forall q | from <= q < r.value :: !P(q)
    ensures r.None? ==> forall q | from <= q <= n :: !P(q)
    decreases n + 1 - from
  {
    if from > n then None
    else if P(from) then Some(from)
    else Leftmost(n, from + 1, P)
  }

  /** `$` (no MULTILINE) holds at the end and just before a final line
      break. */
  predicate DollarAt(u: string, k: int) {
    k == |u| || (0 <= k == |u| - 1 && u[k] == '\n')
  }

  /** The first position where `$` holds: before the final line break when
      there is one. */
  function DollarEnd(u: string): (t: nat)
    ensures t <= |u| && DollarAt(u, t)
    ensures forall k | 0 <= k < t :: !DollarAt(u, k)
    ensures u[t..] == "" || u[t..] == "\n"
  {
    if |u| > 0 && u[|u| - 1] == '\n' then
      assert u[|u| - 1..] == "\n";
      |u| - 1
    else |u|
  }

  // ---------------------------------------------------------------------
  // The section rule.

  const SectionWord: string := "Mục "

  /** `[a-zđ]`, case-sensitive. */
  predicate IsSectionLetter(c: char) {
    'a' <= c <= 'z' || c == 'đ'
  }

  /** The text `[0-9]+[a-zđ]?` matches. */
  predicate IsSectionNumber(t: string) {
    && |t| >= 1
    && IsDigit(t[0])
    && AllDigits(t[..|t| - 1])
    && (IsDigit(t[|t| - 1]) || IsSectionLetter(t[|t| - 1]))
  }

  /** `Mục [0-9]+[a-zđ]?. ` covers `s[..e]`; its unescaped `.` takes any
      character except a line break. */
  predicate SectionMarker(s: string, e: int) {
    && 7 <= e <= |s|
    && s[..4] == SectionWord
    && IsSectionNumber(s[4..e - 2])
    && s[e - 2] != '\n'
    && s[e - 1] == ' '
  }

  /** `re.search("Mục [0-9]+[a-zđ]?. ", u)` succeeds. */
  predicate HasSectionMarker(u: string) {
    exists p, e | 0 <= p <= |u| && 0 <= e <= |u| - p :: SectionMarker(u[p..], e)
  }

  /** The section pattern matches at `p`: a marker, then at least one more
      character, with no line break anywhere before the first `$`. */
  predicate SectionMatchAt(u: string, p: nat) {
    && p <= DollarEnd(u)
    && NoNewline(u[p..DollarEnd(u)])
    && exists e | 0 <= e < DollarEnd(u) - p :: SectionMarker(u[p..], e)
  }

  function SectionStart(u: string): (r: Option<nat>)
    ensures r.Some? ==> SectionMatchAt(u, r.value)
    ensures r.Some? ==> forall q: nat | q < r.value :: !SectionMatchAt(u, q)
    ensures r.None? ==> forall q: nat :: !SectionMatchAt(u, q)
  {
    var P := (q: nat) => SectionMatchAt(u, q);
    var r := Leftmost(|u|, 0, P);
    assert forall q: nat :: P(q) == SectionMatchAt(u, q);
    assert forall q: nat | q > |u| :: !SectionMatchAt(u, q);
    r
  }

  /** `re.sub("Mục [0-9]+[a-zđ]?. .+?$", "", u)`: the leftmost match is
      removed and whatever follows the first `$` (the final line break) is
      kept; that leaves no room for a second match. */
  function SectionCut(u: string): (r: string)
    ensures SectionStart(u).None? ==> r == u
    ensures SectionStart(u).Some? ==> |r| < |u|
  {
    match SectionStart(u)
    case None => u
    case Some(p) =>
      var r := u[..p] + u[DollarEnd(u)..];
      assert |r| < |u| by {
        var e :| 0 <= e < DollarEnd(u) - p && SectionMarker(u[p..], e);
      }
      r
  }

  /** The section rule leaves the text unchanged exactly when the pattern
      matches nowhere. */
  lemma SectionCutUnchanged(u: string)
    ensures SectionCut(u) == u <==> forall q: nat :: !SectionMatchAt(u, q)
  {
  }

  /** What follows the first `$` (nothing, or the final line break) is
      kept. */
  lemma SectionCutKeepsEnd(u: string)
    ensures var r := SectionCut(u); var t := DollarEnd(u);
      |u| - t <= |r| && r[|r| - (|u| - t)..] == u[t..]
  {
  }

  /** The guarded substitution of the record loop. */
  function SectionRule(u: string): (r: string)
    ensures |r| <= |u|
  {
    if HasSectionMarker(u) then SectionCut(u) else u
  }

  /** Every match of the section pattern contains a marker, so the
      `re.search` guard never changes the result. */
  lemma SectionGuardRedundant(u: string)
    ensures SectionRule(u) == SectionCut(u)
  {
    if SectionStart(u).Some? {
      var p := SectionStart(u).value;
      var e :| 0 <= e < DollarEnd(u) - p && SectionMarker(u[p..], e);
      assert HasSectionMarker(u);
    }
  }

  /** A marker is decided by the first `e` characters. */
  lemma SectionMarkerPrefix(s: string, t: string, e: int)
    requires 0 <= e <= |s| && e <= |t| && s[..e] == t[..e]
    ensures SectionMarker(s, e) <==> SectionMarker(t, e)
  {
    if e >= 7 {
      forall k | 0 <= k < e ensures s[k] == t[k] {
        assert s[..e][k] == t[..e][k];
      }
      assert s[..4] == t[..4];
      assert s[4..e - 2] == t[4..e - 2];
    }
  }

  /** Text that ends in a line break loses at most the tail of its last line
      to the section rule, and a second application changes nothing. */
  lemma SectionCutIdempotent(u: string)
    requires |u| > 0 && u[|u| - 1] == '\n'
    ensures SectionCut(SectionCut(u)) == SectionCut(u)
  {
    var r := SectionCut(u);
    if r != u {
      var p := SectionStart(u).value;
      var t := DollarEnd(u);
      assert t == |u| - 1;
      assert r == u[..p] + "\n";
      assert DollarEnd(r) == p;
      forall q: nat ensures !SectionMatchAt(r, q) {
        if SectionMatchAt(r, q) {
          var e :| 0 <= e < p - q && SectionMarker(r[q..], e);
          assert r[q..][..e] == u[q..][..e];
          SectionMarkerPrefix(r[q..], u[q..], e);
          assert u[q..t] == r[q..p] + u[p..t];
          assert SectionMatchAt(u, q);
          assert false;
        }
      }
    }
  }

  /** A match that sees no line break up to the end of the last line starts
      on the last line. */
  lemma StartsOnLastLine(j: string, last: string, p: nat)
    requires |j| > 0 ==> j[|j| - 1] == '\n'
    requires p <= |j| + |last|
    ensures NoNewline((j + last + "\n")[p..|j| + |last|]) ==> p >= |j|
  {
    if p < |j| {
      assert (j + last + "\n")[p..|j| + |last|][|j| - 1 - p] == j[|j| - 1];
    }
  }

  lemma PrefixThroughLine(j: string, last: string, k: nat)
    requires k <= |last|
    ensures (j + last + "\n")[..|j| + k] == j + last[..k]
  {
  }

  /** The cut of a text whose last line `last` follows `j` and ends in a
      line break. */
  lemma SectionCutLastLine(u: string, j: string, last: string)
    requires u == j + last + "\n"
    requires |j| > 0 ==> j[|j| - 1] == '\n'
    ensures var s := SectionStart(u);
      s.Some? ==> |j| <= s.value <= |j| + |last| && SectionCut(u) == j + last[..s.value - |j|] + "\n"
  {
    var s := SectionStart(u);
    if s.Some? {
      var p := s.value;
      assert DollarEnd(u) == |j| + |last|;
      assert NoNewline(u[p..|j| + |last|]);
      StartsOnLastLine(j, last, p);
      PrefixThroughLine(j, last, p - |j|);
      assert u[DollarEnd(u)..] == "\n";
    }
  }

  /** On text made of lines each followed by a line break, the section rule
      can only shorten the last line; every earlier line and the final line
      break stay. */
  lemma {:induction false} SectionCutLines(init: seq<string>, last: string)
    requires NoNewline(last)
    ensures var u := JoinLines(init + [last]); var s := SectionStart(u);
      && (s.None? ==> SectionCut(u) == u)
      && (s.Some? ==>
            && |JoinLines(init)| <= s.value <= |JoinLines(init)| + |last|
            && SectionCut(u) == JoinLines(init + [last[..s.value - |JoinLines(init)|]]))
  {
    var j := JoinLines(init);
    var u := JoinLines(init + [last]);
    JoinLinesSnoc(init, last);
    SectionCutLastLine(u, j, last);
    var s := SectionStart(u);
    if s.Some? {
      JoinLinesSnoc(init, last[..s.value - |j|]);
    }
  }

  /** A last line that opens with a section heading followed by more text
      is emptied, leaving its line break: the text then ends in a blank
      line. */
  lemma SectionHeadingLine(init: seq<string>, last: string, e: nat)
    requires NoNewline(last) && SectionMarker(last, e) && e < |last|
    ensures SectionCut(JoinLines(init + [last])) == JoinLines(init) + "\n"
  {
    SectionHeadingStart(init, last, e);
    SectionCutLines(init, last);
    assert last[..0] == "";
    JoinLinesSnoc(init, "");
  }

  /** A heading at the start of the last line is where the match starts. */
  lemma SectionHeadingStart(init: seq<string>, last: string, e: nat)
    requires NoNewline(last) && SectionMarker(last, e) && e < |last|
    ensures SectionStart(JoinLines(init + [last])) == Some(|JoinLines(init)|)
  {
    JoinLinesSnoc(init, last);
    SectionMatchLastLine(JoinLines(init + [last]), JoinLines(init), last, e);
    SectionCutLines(init, last);
  }

  lemma SectionMatchLastLine(u: string, j: string, last: string, e: nat)
    requires u == j + last + "\n"
    requires NoNewline(last) && SectionMarker(last, e) && e < |last|
    ensures SectionMatchAt(u, |j|)
  {
    assert DollarEnd(u) == |j| + |last|;
    assert u[|j|..|j| + |last|] == last;
    assert u[|j|..][..e] == last[..e];
    SectionMarkerPrefix(last, u[|j|..], e);
  }

  // ---------------------------------------------------------------------
  // The law rule.

  const LawMarkerLong: string := "Luật này đã được Quốc hội"
  const LawMarkerShort: string := "Luật này được Quốc hội"

  /** The two spellings of the marker part ways at their eleventh
      character, so at most one starts at a given position. */
  lemma MarkersExclusive(u: string, p: int)
    ensures !(OccursAt(u, LawMarkerLong, p) && OccursAt(u, LawMarkerShort, p))
  {
    if OccursAt(u, LawMarkerLong, p) {
      assert u[p..p + |LawMarkerLong|][10] == LawMarkerLong[10];
    }
    if OccursAt(u, LawMarkerShort, p) {
      assert u[p..p + |LawMarkerShort|][10] == LawMarkerShort[10];
    }
  }

  /** Where `Luật này (đã )?được Quốc hội` ends when it matches at `p`. */
  function LawMarkerEnd(u: string, p: nat): (m: Option<nat>)
    ensures m.Some? <==> OccursAt(u, LawMarkerLong, p) || OccursAt(u, LawMarkerShort, p)
    ensures OccursAt(u, LawMarkerLong, p) ==> m == Some(p + |LawMarkerLong|)
    ensures OccursAt(u, LawMarkerShort, p) ==> m == Some(p + |LawMarkerShort|)
  {
    MarkersExclusive(u, p);
    if OccursAt(u, LawMarkerLong, p) then Some(p + |LawMarkerLong|)
    else if OccursAt(u, LawMarkerShort, p) then Some(p + |LawMarkerShort|)
    else None
  }

  /** Where `.+?$` under DOTALL stops after a marker ending at `m`: the
      first position past at least one character at which `$` holds. */
  function LawEnd(u: string, m: nat): (a: Option<nat>)
    ensures a.Some? <==> m < |u|
    ensures a.Some? ==> m < a.value <= |u| && DollarAt(u, a.value)
    ensures a.Some? ==> forall k | m < k < a.value :: !DollarAt(u, k)
  {
    if |u| > 0 && u[|u| - 1] == '\n' && m + 1 <= |u| - 1 then Some(|u| - 1)
    else if m + 1 <= |u| then Some(|u|)
    else None
  }

  predicate LawMatchAt(u: string, p: nat) {
    LawMarkerEnd(u, p).Some? && LawEnd(u, LawMarkerEnd(u, p).value).Some?
  }

  function LawStart(u: string): (r: Option<nat>)
    ensures r.Some? ==> LawMatchAt(u, r.value)
    ensures r.Some? ==> forall q: nat | q < r.value :: !LawMatchAt(u, q)
    ensures r.None? ==> forall q: nat :: !LawMatchAt(u, q)
  {
    var P := (q: nat) => LawMatchAt(u, q);
    var r := Leftmost(|u|, 0, P);
    assert forall q: nat :: P(q) == LawMatchAt(u, q);
    assert forall q: nat | q > |u| :: !LawMatchAt(u, q);
    r
  }

  /** `re.sub("Luật này (đã )?được Quốc hội.+?$", "", u, flags=re.DOTALL)`. */
  function LawCut(u: string): (r: string)
    ensures LawStart(u).None? ==> r == u
    ensures LawStart(u).Some? ==> |r| < |u|
  {
    match LawStart(u)
    case None => u
    case Some(p) => u[..p] + u[LawEnd(u, LawMarkerEnd(u, p).value).value..]
  }

  /** The law rule leaves the text unchanged exactly when the pattern
      matches nowhere. */
  lemma LawCutUnchanged(u: string)
    ensures LawCut(u) == u <==> forall q: nat :: !LawMatchAt(u, q)
  {
  }

  /** `re.search("Luật này (đã )?được Quốc hội", u)` succeeds. */
  predicate HasLawMarker(u: string) {
    Contains(u, LawMarkerLong) || Contains(u, LawMarkerShort)
  }

  /** The guarded substitution of the record loop. */
  function LawRule(u: string): (r: string)
    ensures |r| <= |u|
  {
    if HasLawMarker(u) then LawCut(u) else u
  }

  /** Every match starts with a marker, so the guard never changes the
      result. */
  lemma LawGuardRedundant(u: string)
    ensures LawRule(u) == LawCut(u)
  {
    if LawStart(u).Some? {
      var p := LawStart(u).value;
      assert OccursAt(u, LawMarkerLong, p) || OccursAt(u, LawMarkerShort, p);
      assert HasLawMarker(u);
    }
  }

  /** A marker that ends before the last character opens a match. */
  lemma MarkerMatches(u: string, q: nat, marker: string)
    requires marker == LawMarkerLong || marker == LawMarkerShort
    requires OccursAt(u, marker, q) && q + |marker| < |u|
    ensures LawMatchAt(u, q)
  {
    MarkersExclusive(u, q);
  }

  /** A cut text is the text before the leftmost match followed by at most
      a line break. */
  lemma LawCutShape(u: string)
    requires LawStart(u).Some?
    ensures var p := LawStart(u).value; var r := LawCut(u);
      && r[..p] == u[..p]
      && (|r| == p || (|r| == p + 1 && r[p] == '\n'))
  {
    var p := LawStart(u).value;
    var a := LawEnd(u, LawMarkerEnd(u, p).value).value;
    assert u[a..] == "" || u[a..] == "\n";
  }

  /** No marker occurs in a text made of what precedes the leftmost match
      and at most a line break. */
  lemma NoMarkerAfterCut(u: string, r: string, p: nat, marker: string, q: int)
    requires marker == LawMarkerLong || marker == LawMarkerShort
    requires p < |u| && forall k: nat | k < p :: !LawMatchAt(u, k)
    requires |r| == p || (|r| == p + 1 && r[p] == '\n')
    requires r[..p] == u[..p]
    ensures !OccursAt(r, marker, q)
  {
    assert marker[|marker| - 1] != '\n';
    if OccursAt(r, marker, q) {
      assert r[q..q + |marker|][|marker| - 1] == r[q + |marker| - 1];
      if q + |marker| <= p {
        assert u[q..q + |marker|] == r[..p][q..q + |marker|];
        MarkerMatches(u, q, marker);
      }
    }
  }

  /** After a cut the text holds no marker at all: everything before the
      leftmost match is marker-free, and the kept tail is at most a line
      break. */
  lemma LawCutClean(u: string)
    requires LawCut(u) != u
    ensures !HasLawMarker(LawCut(u))
  {
    var r := LawCut(u);
    var p := LawStart(u).value;
    LawCutShape(u);
    forall q ensures !OccursAt(r, LawMarkerLong, q) && !OccursAt(r, LawMarkerShort, q) {
      NoMarkerAfterCut(u, r, p, LawMarkerLong, q);
      NoMarkerAfterCut(u, r, p, LawMarkerShort, q);
    }
  }

  /** Applying the law rule twice is applying it once. */
  lemma LawCutIdempotent(u: string)
    ensures LawCut(LawCut(u)) == LawCut(u)
  {
    var r := LawCut(u);
    if r != u {
      LawCutClean(u);
      LawGuardRedundant(r);
    }
  }

  /** On text ending in a line break every marker opens a match, so the cut
      starts at the first marker: the rule applies exactly when a marker is
      present, and then removes everything from the first marker up to the
      final line break, which stays unless the marker ends right before
      it. */
  lemma LawCutRendered(u: string)
    requires |u| > 0 && u[|u| - 1] == '\n'
    ensures LawStart(u).Some? <==> HasLawMarker(u)
    ensures LawStart(u).Some? ==>
      var p := LawStart(u).value;
      && (forall q | 0 <= q < p :: !OccursAt(u, LawMarkerLong, q) && !OccursAt(u, LawMarkerShort, q))
      && LawCut(u) == u[..p] + (if LawMarkerEnd(u, p).value < |u| - 1 then "\n" else "")
    ensures !HasLawMarker(LawCut(u))
  {
    forall q: nat, marker | (marker == LawMarkerLong || marker == LawMarkerShort) && OccursAt(u, marker, q)
      ensures LawMatchAt(u, q)
    {
      assert u[q..q + |marker|][|marker| - 1] == marker[|marker| - 1];
      MarkerMatches(u, q, marker);
    }
    if LawStart(u).Some? {
      var p := LawStart(u).value;
      assert u[|u| - 1..] == "\n";
      LawCutClean(u);
    } else {
      LawGuardRedundant(u);
    }
  }

  // ---------------------------------------------------------------------
  // Both rules, in the order of the record loop.

  function Clean(u: string): (r: string)
    ensures |r| <= |u|
  {
    LawRule(SectionRule(u))
  }

  /** Text with neither marker passes through unchanged. */
  lemma CleanAbsent(u: string)
    requires !HasSectionMarker(u) && !HasLawMarker(u)
    ensures Clean(u) == u
  {
  }

  /** Cleaning rendered text (which ends in a line break) leaves no law
      marker and never lengthens it. */
  lemma CleanRendered(u: string)
    requires |u| > 0 && u[|u| - 1] == '\n'
    ensures !HasLawMarker(Clean(u))
    ensures |Clean(u)| <= |u|
  {
    var s := SectionRule(u);
    SectionGuardRedundant(u);
    SectionCutKeepsEnd(u);
    assert |s| > 0 && s[|s| - 1] == '\n';
    LawGuardRedundant(s);
    LawCutRendered(s);
  }
}
