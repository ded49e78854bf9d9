# Vietnamese statute structurer — a Dafny model

The indexing scripts of this repository (`qwen3_indexing.py`,
`tei_indexing.py`, `open_ai_indexing.py`) each carry the same copy of one
piece of string processing. It turns the plain text of a Vietnamese law
into retrieval records:

- the **subject filter** keeps the CSV rows whose subject contains
  `mới nhất` ("newest") and not `sửa đổi` ("amending");
- **`parse_text`** folds over the stripped lines of a law and builds a
  list of Preamble and Chương (chapter) entries. A chapter holds Điều
  (articles), an article holds Khoản (clauses), and a clause holds Mục
  (points). Four "currently open" references say where the next line
  goes;
- **`get_text_from_structure`** renders one article back into
  newline-terminated text, optionally with citation labels (`kdm`);
- the **record loop** renders every article of every chapter, applies two
  regex truncations (a trailing `Mục <n>. …` heading and the `Luật này
  (đã )?được Quốc hội…` enactment sentence), and emits one `{title,
  content, citation, law}` record per article.

The model is one Dafny project, because the three copies are the same:

| file | module | what it holds |
|---|---|---|
| `wrappers.dfy` | `Wrappers` | `Option` |
| `text.dfy` | `Text` | Python `str.strip`, `str.split("\n")`, `in`, `str.replace`, and joining lines |
| `patterns.dfy` | `Patterns` | the four line regexes as character-level matchers |
| `tree.dfy` | `Tree` | the statute tree, its document-order texts, its node counts, and the growth order |
| `parser.dfy` | `Parser` | `parse_text` as a fold over a `Builder` holding the four open references as indices |
| `parse_facts.dfy` | `ParseFacts` | one-action lemmas: texts, counts, growth and well-formedness |
| `run_facts.dfy` | `RunFacts` | whole-text lemmas against a reference classification of lines |
| `render.dfy` | `Render` | `get_text_from_structure`, and a line-level reference rendering |
| `postprocess.dfy` | `PostProcess` | the two `re.sub` truncations with Python's leftmost-match, lazy `+?` and `$` semantics |
| `records.dfy` | `Records` | the record loop and the subject filter |

The parser is checked against a reference that needs no tree:

- `KindOf` classifies each line on its own.
- `Depth` tracks how deep the open path is.
- `Expected` and `ExpectedTexts` predict the node counts and the document-order texts.

The lemmas in `RunFacts` show that the parser agrees with this reference on every input text.

## Model

| member | source | states |
|---|---|---|
| Text.StripBy | qwen3_indexing.py:33 | the stripped line is a contiguous piece of the input; everything cut off on either side is in the stripped set, and the result neither starts nor ends with such a character |
| Text.Split | qwen3_indexing.py:32 | `text.split("\n")` yields at least one piece, no piece holds a line break, and joining the pieces with line breaks gives the text back |
| Text.SplitJoin | qwen3_indexing.py:32 | splitting a join of break-free pieces gives the pieces back (the inverse of `Split`) |
| Text.Contains | qwen3_indexing.py:17 | Python's `pat in s` holds exactly when the pattern occurs at some position |
| Text.ReplaceAll | qwen3_indexing.py:124-141 | `str.replace` keeps the length when pattern and replacement are equally long (as `Dieu` and `Điều` are) and never lengthens when the replacement is shorter (as `""` for `Khoan `) |
| Text.ReplaceIdentity | qwen3_indexing.py:136 | replacing a pattern by itself changes nothing |
| Text.ReplaceLeading | qwen3_indexing.py:124 | `str.replace` turns a leading occurrence into the replacement and carries on with the rest |
| Text.ReplaceAbsent | qwen3_indexing.py:136 | `str.replace` with a pattern that does not occur changes nothing |
| Patterns.ArticleContent | qwen3_indexing.py:52 | `.strip(". ").strip()` never lengthens the text and leaves neither leading nor trailing whitespace; ParseFacts.ArticleHitOk adds that it holds no line break |
| Patterns.MatchChuong | qwen3_indexing.py:19 | `CHUONG_PATTERN.match` succeeds exactly when the line starts with `Chương` in any case, then at least one whitespace, then a Roman-numeral letter or a digit; no word boundary is required |
| Patterns.MatchDieu | qwen3_indexing.py:20 | `DIEU_PATTERN.match` succeeds exactly when the line has the article shape; the group is the longest run of digits with at most one letter after it (either case), and the rest is what follows |
| Patterns.NumberLength | qwen3_indexing.py:20 | `\d+[a-zđ]?` with IGNORECASE is greedy: the group is an article number and the next character continues neither part |
| Patterns.MatchKhoan | qwen3_indexing.py:21 | `KHOAN_PATTERN.match` succeeds exactly when some digits are followed by a period; the group is those digits, and the content is the `(.*)` after optional whitespace |
| Patterns.TailGroupShape | qwen3_indexing.py:21-22 | `\s*(.*)` skips leading whitespace and then captures up to, not including, the first line break |
| Patterns.MatchMuc | qwen3_indexing.py:22 | `MUC_PATTERN.match` succeeds exactly when the line starts with an ASCII letter, `đ` or `Đ` followed by `)`; the group is that letter |
| Patterns.ClauseLineIsNoHeader | open_ai_indexing.py:5-8 | a clause-shaped line matches neither header pattern nor the point pattern |
| Patterns.PointLineIsNoHeader | open_ai_indexing.py:5-8 | a point-shaped line matches neither header pattern nor the clause pattern |
| Parser.Dispatch | qwen3_indexing.py:32-91 | patterns are tried in order Chương, Điều, Khoản, Mục; an empty line is skipped; a clause line opens a clause only under an open article and a point line a point only under an open clause; any other line is plain text |
| Parser.Apply | qwen3_indexing.py:38-109 | every action keeps the open references on the last node of their level, each inside the one above |
| Parser.ApplyOpens | qwen3_indexing.py:38-91 | a chapter header closes article, clause and point; an article header opens an article and closes clause and point, keeping an open chapter; a clause header keeps chapter and article and closes the point; a point header keeps the three above; a skipped or plain line moves no reference |
| Parser.AppendPlain | qwen3_indexing.py:94-109 | a plain line adds a root entry only when no chapter is open (a new Preamble); the text it appends and where is stated by ParseFacts.AppendPlainTexts, and that it creates no node by ParseFacts.ContinueCounts |
| Parser.Step | qwen3_indexing.py:33-109 | one iteration keeps the builder valid; its effect per line class is stated by RunFacts.StepKind, StepDepth, StepTally and StepTexts |
| Parser.Parse | qwen3_indexing.py:25-111 | no Preamble entry follows a chapter; the full result (counts, document-order texts, well-formed keys) is stated by RunFacts.ParseAgrees |
| Parser.Run | qwen3_indexing.py:25-111 | after any prefix of the lines, the four references designate the rightmost path of the tree |
| ParseFacts.ApplyCounts | qwen3_indexing.py:38-91 | one action adds exactly the node it names, plus a `Chuong 0` chapter for an article with no open chapter; skips and plain lines add none |
| ParseFacts.ContinueCounts | qwen3_indexing.py:94-109 | a plain line never creates a chapter, article, clause or point |
| ParseFacts.AppendPlainTexts | qwen3_indexing.py:94-109 | a plain line is appended, after a space, to the last text in document order (the innermost open node); with nothing open it becomes a new Preamble entry |
| ParseFacts.ApplyTexts | tei_indexing.py:40-111 | the document-order texts after one action are those before it, extended by exactly the new node's key and content or by the appended line |
| ParseFacts.ApplyGrows | qwen3_indexing.py:42-90 | an action only appends nodes or extends the last texts; nothing is reordered or removed |
| ParseFacts.DispatchOk | qwen3_indexing.py:49-90 | from a break-free line, article numbers are digits with at most one letter, clause numbers are digits, point letters are single letters, and contents hold no line break |
| ParseFacts.ArticleHitOk | qwen3_indexing.py:52 | the article content, trimmed of `.` and blanks and then of whitespace, holds no line break |
| ParseFacts.ApplyOk | tei_indexing.py:40-94 | an action keeps every key in its captured shape and every text free of line breaks |
| RunFacts.StepKind | open_ai_indexing.py:18-77 | the action the loop takes depends only on the line's class and the open depth, and the first matching pattern wins |
| RunFacts.StepDepth | open_ai_indexing.py:24-64 | a chapter header leaves depth 1 open, an article header depth 2, a clause header depth 3 (closing the point), and a point header depth 4 |
| RunFacts.RunDepth | open_ai_indexing.py:18-97 | the open depth after any lines is the one the classification predicts |
| RunFacts.RunTally | tei_indexing.py:51-111 | the parser creates exactly the predicted numbers of chapters, articles, clauses and points |
| RunFacts.RunTexts | qwen3_indexing.py:32-111 | the parser's document-order texts are exactly the predicted ones |
| RunFacts.RunGrows | qwen3_indexing.py:42-90 | the tree after any prefix of the lines grows into the final tree, so source order is kept at every level |
| RunFacts.RunOk | qwen3_indexing.py:32-109 | a parse keeps every key in its captured shape and every text free of line breaks |
| RunFacts.ParseAgrees | qwen3_indexing.py:25-111 | on any text, all Preamble entries come before every chapter, every node is well-formed, and the counts and texts are the predicted ones |
| Render.GetText | qwen3_indexing.py:123-142 | the rendered article always ends in a line break |
| Render.RenderAgrees | qwen3_indexing.py:123-142 | the rendering is the article line, then each clause line followed by its point lines, each followed by exactly one line break |
| Render.RenderSplit | tei_indexing.py:121-140 | the rendered text splits into exactly 1 + clauses + points lines and one empty piece |
| Render.ArticleLabelOk | qwen3_indexing.py:124 | replacing `Dieu` in a well-formed key gives `Điều <n>` |
| Render.SamplePlain | qwen3_indexing.py:123-142 | without `kdm` the sample article renders as `Điều 1. Phạm vi`, `1. Nội dung A`, `a) Chi tiết` |
| Render.SampleExpanded | tei_indexing.py:134-139 | with `kdm` the point line reads `Điểm a) Khoản 1 Điều 1  Chi tiết`: no period after the clause number, and two blanks before the content |
| PostProcess.SectionCut | qwen3_indexing.py:155 | `re.sub` of the section pattern: unchanged when the pattern matches nowhere, strictly shorter when it matches; SectionCutUnchanged, SectionCutKeepsEnd and SectionCutLines state the rest |
| PostProcess.SectionRule | qwen3_indexing.py:154-155 | the guarded section rule never lengthens the text; SectionGuardRedundant shows it equals the unguarded cut |
| PostProcess.SectionStart | qwen3_indexing.py:155 | the section match starts at the leftmost position where a marker is followed by more text with no line break before the first `$` |
| PostProcess.SectionCutUnchanged | qwen3_indexing.py:155 | the section rule changes the text exactly when its pattern matches somewhere |
| PostProcess.SectionCutKeepsEnd | qwen3_indexing.py:155 | whatever follows the first `$` (a final line break) survives the section rule |
| PostProcess.SectionGuardRedundant | qwen3_indexing.py:154-155 | the `re.search` guard never changes the section rule's outcome |
| PostProcess.SectionCutLines | open_ai_indexing.py:143-145 | on newline-terminated lines the section rule can only shorten the last line; earlier lines and the final break stay |
| PostProcess.SectionHeadingLine | qwen3_indexing.py:155 | a last line that opens with `Mục <n>. ` and more text is emptied, leaving a blank last line; rendered articles never end in such a line (see below) |
| PostProcess.SectionCutIdempotent | tei_indexing.py:153 | on text ending in a line break, the section rule applied twice equals once |
| PostProcess.LawCut | qwen3_indexing.py:157-159 | `re.sub` of the law pattern (DOTALL): unchanged when the pattern matches nowhere, strictly shorter when it matches; LawCutUnchanged, LawCutShape and LawCutRendered state the rest |
| PostProcess.LawRule | qwen3_indexing.py:156-159 | the guarded law rule never lengthens the text; LawGuardRedundant shows it equals the unguarded cut |
| PostProcess.LawStart | qwen3_indexing.py:157-159 | the law match starts at the leftmost marker that has at least one character after it |
| PostProcess.LawCutUnchanged | qwen3_indexing.py:157-159 | the law rule changes the text exactly when its pattern matches somewhere |
| PostProcess.LawGuardRedundant | qwen3_indexing.py:156-159 | the `re.search` guard never changes the law rule's outcome |
| PostProcess.LawCutShape | tei_indexing.py:154-157 | a cut text is the text before the match followed by at most a line break |
| PostProcess.LawCutClean | open_ai_indexing.py:146-152 | after a cut no marker is left anywhere in the text |
| PostProcess.LawCutIdempotent | qwen3_indexing.py:156-159 | the law rule applied twice equals once |
| PostProcess.LawCutRendered | qwen3_indexing.py:156-159 | on text ending in a line break, the rule applies exactly when a marker occurs; it cuts from the first marker and keeps the final break unless the marker ends right before it |
| PostProcess.Clean | qwen3_indexing.py:154-159 | the two rules in the loop's order never lengthen the content; CleanRendered and CleanAbsent state the rest |
| PostProcess.CleanAbsent | open_ai_indexing.py:143-152 | with neither marker present both rules leave the text unchanged |
| PostProcess.CleanRendered | qwen3_indexing.py:153-159 | the cleaned content of a rendered article holds no enactment marker and is never longer than the rendering |
| Records.ArticleRecord | qwen3_indexing.py:152-166 | a record's citation is its title, a blank and the law; its law field is the law |
| Records.ArticleRecordOk | tei_indexing.py:150-163 | a record of a well-formed article is titled `Điều <n>`, its content is the cleaned reference rendering, and it holds no enactment marker |
| Records.RecordsOfText | open_ai_indexing.py:134-161 | a law text gives one record per article header line; each is titled `Điều <n>`, cited as title plus law, and free of the enactment sentence |
| Records.FilterRows | qwen3_indexing.py:17 | every kept row's subject contains `mới nhất` and not `sửa đổi` |
| Records.FilterRowsMembers | tei_indexing.py:18 | a row survives exactly when it is an input row whose subject passes |
| Records.FilterRowsAppend | open_ai_indexing.py:104 | the filter works row by row, keeping order, so it distributes over concatenation |
| Records.FilterRowsIdempotent | qwen3_indexing.py:17 | filtering twice is filtering once |

## Behaviour kept as the code has it

- The test `"Preamble" not in hierarchy` compares a string with a list of
  dicts, so it is always true. Every plain line before the first chapter
  or article becomes its own Preamble entry. The `else` branch
  (qwen3_indexing.py:108-109) cannot run and is not modelled.
- With `kdm` the point prefix is `Khoản k Điều N  `: there is no period
  after the clause number, and two blanks precede the content.
- The `Mục` rule has no MULTILINE or DOTALL flag, so its match cannot
  cross a line break before the first `$`. It can only cut on the last
  line, and it keeps the final line break. A last line that is nothing but
  a heading would leave text ending in a blank line (`…\n\n`,
  PostProcess.SectionHeadingLine). A rendered article never has such a
  last line, because each rendered line starts with its label (`Điều <n>. `,
  `<k>. ` or `<x>) `). So in the record loop the cut keeps the label: a
  last clause `2. Mục 2. Quyền` becomes `2. ` followed by the line break.
- In the `Mục` rule the `.` after the number is unescaped and matches any
  character except a line break.
- The `Luật này` rule (DOTALL) cuts from the first marker to the first `$`.
  It keeps the final line break, except when the marker ends right before
  that break: then the lazy `.+?` must consume the break itself.
- `DIEU_PATTERN` is case-insensitive, so the article suffix letter may be
  upper case.
- Both `re.search` guards are redundant: every match of each `re.sub`
  pattern begins with the searched marker.
- The section rule is idempotent only on text ending in a line break,
  which every rendering is.

## Left out

- Reading `luat.csv` with pandas, and building `hierarchical_structures`
  (a dict keyed by subject, where a later duplicate subject overwrites an
  earlier one). These are I/O and container plumbing. Rows are modelled as
  a sequence, and a law's records are modelled per text.
- `TextNode` construction, ChromaDB, `VectorStoreIndex` and all embedding
  backends. These are foreign libraries and network calls.
- The command-line scripts and the `troly_dontu` client package.
- Unicode semantics: `\d` and the digit test are ASCII only. Case-insensitive
  matching uses a fixed folding table: ASCII, the Vietnamese capitals the
  keywords need, and Python's special folds. No normalisation is modelled.
  Whitespace is Python's `str.isspace` set.
- A subject that is not a string (a pandas NaN): `in` would raise there,
  and subjects are modelled as strings.
- A law text that is not a string (a pandas NaN in the `text` column):
  `parse_text` calls `text.split("\n")` first (qwen3_indexing.py:32,
  reached from qwen3_indexing.py:120), which raises and ends the script.
  Texts are modelled as strings, so this exception path is not modelled.
- Records.LawRecords: has no contract of its own. Its properties are
  stated by Records.RecordsOfText (count, titles, citations, content) and
  Records.ArticleRecordOk.
