# EcoAdvisor response sectioner in Dafny

EcoAdvisor sends a photo of a product's packaging to a language model and
shows the reply in a Streamlit view. This project models the part of
`display_analysis_results` in `app.py` that has logic: the response
sectioner. The sectioner works in four steps:

1. It rejects a blank reply with a "no content" warning.
2. It turns escaped newlines into real ones, doubled escapes
   (`\\n`) first and then single ones (`\n`).
3. It splits the text into lines.
4. It walks the lines and groups them under the display labels of a fixed
   five-entry table of numbered headings (`1.` to `5.`):
   - a heading line flushes the buffered lines as a section and opens a new one;
   - a blank line is skipped;
   - any other line is buffered;
   - what comes before the first heading goes under the default label
     "ℹ️ **Informações Adicionais**";
   - if no heading ever matched and nothing was buffered, the normalised
     text is shown raw.

The output is a sequence of drawn blocks. Each flush draws two markdown
calls, a `### title` line and the section's body, and becomes one `Section`
that holds the label and the list of lines. The body drawn is
`Rendered.Body()`, which is those lines joined with newlines and stripped.
The fallback call `st.markdown(s)` becomes `Raw`. The horizontal rule and
the subheader drawn before any of this are not part of the output. Neither
is the "no content" warning, which is the `NoContent` result.

Modules:

- `PyText` (`pytext.dfy`) models the Python `str` operations the code uses,
  with CPython's semantics:
  - `isspace` (the 29 whitespace code points), `strip()`;
  - `split('\n')`, `'\n'.join`;
  - `replace`, `in`, `startswith`.
- `Escapes` (`escapes.dfy`) models the two chained `replace` calls.
- `Sectioner` (`sectioner.dfy`) holds the sectioner itself:
  - the table, the loop state `Scan`, and one loop turn as `Step`;
  - `Run`, the fold of `Step` over the lines, and `Sectioned`, the whole view
    as a function;
  - the imperative code as methods: `FindHeading` (the loop over the table),
    `ProcessLine` (one turn of the loop over the lines) and
    `DisplayAnalysisResults`. Each method is proved equal to its function.
- `SectionerFacts` (`sectioner_facts.dfy`) proves what the sectioner
  guarantees for every reply:
  - content lines are kept in order;
  - no section is empty;
  - labels come from the table;
  - there is at most one more shown block than there are heading lines;
  - the raw fallback fires exactly when the reply has content but every line is blank.
- `ReplyShapes` (`reply_shapes.dfy`) covers replies made of heading blocks.
  Each block is shown as its own section, so a repeated heading is not
  merged. Text without a heading before the first block is shown first,
  under the default label. The five-item reply the prompt asks for becomes the five table
  sections in order. It also has the title-only and decimal-number edge
  cases.

Two consequences of the code are worth stating:

- A reply with content but no numbered heading is shown as one
  default-label section of its stripped non-blank lines, not as the raw
  text (`SectionerFacts.PlainProse`).
- The raw text is shown only when no heading matched *and* nothing is
  buffered at the end. For a reply that is not blank this means every
  normalised line is blank, as in a reply that is only an escaped newline
  (`SectionerFacts.RawFallback`). A reply holding only a title-only heading
  such as "3." shows nothing at all (`ReplyShapes.TitleOnlyReply`).

## Model

| member | source | states |
|---|---|---|
| PyText.SpaceChars | app.py:97 | space, tab, newline and carriage return are whitespace to `strip()`; the backslash, `n`, the period and the digits are not |
| PyText.Strip | app.py:97 | `strip()` leaves no whitespace at either end, is empty exactly when the text is all whitespace, and keeps only characters of the text |
| PyText.StripInfix | app.py:97 | the text is some whitespace, then its `strip()`, then more whitespace |
| PyText.StripStripped | app.py:105 | text with no whitespace at its ends is its own `strip()` |
| PyText.SplitLines | app.py:93 | `split('\n')` gives at least one piece, none holding a newline, all made of the text's characters |
| PyText.JoinLines | app.py:105 | `'\n'.join` holds every character of every line, and nothing but those characters and newlines |
| PyText.JoinSplit | app.py:93 | joining the pieces of `split('\n')` with newlines gives the text back |
| PyText.SplitJoin | app.py:105 | splitting the newline join of newline-free lines gives the lines back |
| PyText.StartsWithConcat | app.py:102 | `startswith(p)` holds exactly when the text is `p` followed by some text |
| PyText.Replace | app.py:88-92 | `replace` leaves text without the pattern unchanged; `ReplaceSkipGen` and `ReplaceFirst` state how occurrences are replaced |
| PyText.ReplaceSkip | app.py:88-92 | no occurrence starts inside text that lacks the pattern's first character: `replace` keeps that text and goes on after it |
| PyText.ReplaceSkipGen | app.py:88-92 | text inside which no occurrence of the pattern starts is kept, and `replace` goes on after it, even when that text holds a part of the pattern |
| PyText.ReplaceFirst | app.py:88-92 | the leftmost occurrence is replaced: the text before it is kept, and `replace` goes on after the occurrence, so every occurrence is replaced, from left to right, without overlap |
| Escapes.Normalize | app.py:86-92 | after both passes no escaped newline is left, and text without an escaped newline is unchanged |
| Escapes.NormalizeEscape | app.py:89-92 | a single escaped newline after backslash-free text becomes a real newline, and normalisation goes on after it |
| Escapes.NormalizeDoubleEscape | app.py:87-92 | a doubled escaped newline after backslash-free text becomes one real newline, and normalisation goes on after it |
| Escapes.EscapeNotDoubled | app.py:88 | the doubled-escape pass passes over a single escape |
| Escapes.UnescapeLeavesNoEscape | app.py:92 | the single-escape pass never leaves or creates an escaped newline |
| Escapes.NormalizeIdempotent | app.py:88-92 | normalising twice is normalising once |
| Escapes.NormalizeBlank | app.py:88-92 | whitespace-only text has no escape and is kept as it is |
| Escapes.DoubledEscapeFirst | app.py:87-92 | `A\\nB\nC`, written with literal backslashes, normalises to the lines A, B and C |
| Escapes.SinglePassHalfConverts | app.py:90-92 | the single pass alone would half-convert a doubled escape and leave a stray backslash |
| Sectioner.BeforeFirstDot | app.py:102 | `split('.')[0]` is a period-free prefix that ends at the first period |
| Sectioner.AfterFirstDot | app.py:108 | `split('.', 1)[-1]` is what follows the first period, or the whole text when there is no period |
| Sectioner.PrefixOfKey | app.py:75-102 | the prefix the code computes from each key is the key's number and a period |
| Sectioner.MatchIndex | app.py:101-102 | the matched entry is the first one, in table order, whose prefix starts the stripped line; there is none only when no prefix does |
| Sectioner.HeadingRemainder | app.py:108 | a heading's first content line is stripped and made of the line's characters |
| Sectioner.HeadingRest | app.py:108 | for a line starting with an entry's prefix, the first content line is the stripped text after the number and period |
| Sectioner.Classify | app.py:97-115 | a line is skipped exactly when it is all whitespace; a heading names a table entry; plain text is a non-empty stripped string |
| Sectioner.ClassifyMeaning | app.py:97-115 | a non-blank line is a heading exactly when its stripped text starts with some table prefix; it is then a heading of the first such entry, holding the stripped text after the number and period; any other non-blank line is its stripped text |
| Sectioner.Rendered.Body | app.py:105 | the drawn body of a section has no whitespace at its ends and holds nothing but newlines and characters of the section's lines; `SectionBodyRoundTrip` shows that, for a well-formed section, it is the newline join of the lines, with nothing stripped, and that splitting it gives the lines back |
| Sectioner.Flush | app.py:103-106 | a flush adds one section holding the buffer under the current title when the buffer is not empty, and nothing otherwise |
| Sectioner.Step | app.py:97-115 | one loop turn: a heading sets the found flag, takes the entry's label and flushes, leaving at most one line buffered; any other line keeps the title and the emitted blocks and adds at most one line to the end of the buffer; a blank line changes nothing |
| Sectioner.Run | app.py:96-115 | the loop over the lines only appends to the blocks already emitted, and once a heading matched it stays matched; `RunCollects`, `RunWellFormed`, `RunTitles` and `RunCount` state the rest of what the loop keeps |
| Sectioner.Finish | app.py:116-120 | after the loop one block is added exactly when lines are buffered, or when no heading matched in a non-blank reply; with lines buffered it is the section of those lines under the current title, and otherwise it is the normalised text shown raw |
| Sectioner.Sectioned | app.py:68-120 | the "no content" warning shows exactly for an empty or whitespace-only reply |
| Sectioner.FindHeading | app.py:100-113 | the inner loop over the table returns the first matching entry, the same as `MatchIndex` |
| Sectioner.ProcessLine | app.py:96-115 | one turn of the loop over the lines (skip, flush-and-open on a heading, buffer otherwise) equals `Step` |
| Sectioner.DisplayAnalysisResults | app.py:68-120 | the whole view: early exit, normalisation, split, loop and final flush or fallback equal `Sectioned` |
| SectionerFacts.StepCollects | app.py:97-115 | one loop turn moves the line's content, and only that, onto the end of what has been emitted and buffered |
| SectionerFacts.RunCollects | app.py:96-115 | during the loop, emitted lines plus buffered lines are exactly the content of the lines seen, in order |
| SectionerFacts.ContentPreserved | app.py:96-118 | the shown sections' lines, in order, are exactly the reply's content lines: none lost, duplicated or reordered |
| SectionerFacts.RunWellFormed | app.py:103-115 | only non-empty stripped newline-free lines are buffered, and only non-empty buffers are emitted |
| SectionerFacts.SectionsWellFormed | app.py:103-118 | every shown section has a non-empty list of content lines, and its body splits back into those lines |
| SectionerFacts.SectionBodyRoundTrip | app.py:105-118 | the body of a section is its lines joined by newlines (the strip removes nothing), and splitting gives them back |
| SectionerFacts.RunTitles | app.py:83-107 | nothing is emitted and the title is the default until a heading matches; after that the title is a table label |
| SectionerFacts.LabelsFromTable | app.py:83-117 | only the first shown section may carry the default label; every other one carries a table label |
| SectionerFacts.RunCount | app.py:101-113 | the loop emits at most one section per heading line |
| SectionerFacts.SectionCount | app.py:101-118 | there is at most one more shown block than there are heading lines |
| SectionerFacts.BlankReplyLines | app.py:88-93 | a whitespace-only reply splits into blank lines |
| SectionerFacts.RawFallback | app.py:116-120 | the raw text shows exactly when the reply is not blank and every normalised line is blank |
| SectionerFacts.RawAlone | app.py:116-120 | the raw text never shows beside a section |
| SectionerFacts.PlainProse | app.py:114-118 | a reply with content but no heading is one default-label section of its stripped non-blank lines |
| ReplyShapes.BlockLabel | app.py:107 | a block opening with a heading is labelled from the table |
| ReplyShapes.RunBlock | app.py:101-115 | a heading block flushes the buffer and leaves its own content buffered under its label |
| ReplyShapes.RunBlocks | app.py:96-115 | from any state, a run of heading blocks flushes what was buffered, emits every block but the last as its own section and leaves the last buffered |
| ReplyShapes.LeadingBlank | app.py:98-99 | blank lines before the first heading change nothing |
| ReplyShapes.BlocksShown | app.py:96-118 | a reply made of heading blocks, after any blank lines, is shown as one section per block in order, even when a label repeats |
| ReplyShapes.PreambleShown | app.py:83-118 | a reply whose text without headings comes before heading blocks shows that text first, as one section under the default label, then one section per block in order |
| ReplyShapes.MatchByNumber | app.py:101-102 | text starting with an entry's number and a period is matched by that entry, whatever wording follows |
| ReplyShapes.HeadingByNumber | app.py:97-102 | a line whose stripped text starts with an entry's number and a period is a heading of that entry |
| ReplyShapes.ItemsInOrder | app.py:75-107 | the five numbered items become sections with the table's labels in table order |
| ReplyShapes.FiveSections | app.py:75-118 | the five-item reply the prompt asks for, after any blank lines, is shown as exactly five sections, in table order, each with its item's content |
| ReplyShapes.TitleOnlyHeading | app.py:103-110 | a heading with nothing after its period, followed directly by another heading, emits nothing under its own label |
| ReplyShapes.BareNumberIsTitleOnly | app.py:102-110 | "3." alone is a heading of entry 3 that carries no content |
| ReplyShapes.BareNumberThenText | app.py:103-115 | a content line after "3." becomes the first line of section 3 |
| ReplyShapes.TitleOnlyReply | app.py:116-120 | a reply that is only "3." shows neither a section nor the raw text |
| ReplyShapes.DecimalReadAsHeading | app.py:102-108 | "2.5 kg" is read as a heading of entry 2 holding "5 kg", because matching stops at the first period |

## Left out

- The Streamlit calls with no logic are left out: the rule, the subheader,
  the expander and the warning text. The warning is the `NoContent` result.
  Each drawn section (its title call and its body call) is one `Section`,
  and the fallback call is one `Raw`.
- The `### ` title prefix and the markdown rendering are left out. A
  `Section` keeps its label and lines, and `Rendered.Body()` is the text drawn.
- The rest of `app.py` is not part of this model, because it is I/O and has
  no decisions about the text: the Gemini API call, image decoding,
  environment variables, logging and the error handler.
- `analysis_text` being `None` is not modelled: the parameter is a Dafny
  `string`, so only the empty string is covered by `not analysis_text`.
- PyText.Replace: requires a non-empty pattern. Python's behaviour for an
  empty pattern is not modelled, because the code only passes the non-empty
  literals `\\n` and `\n`.
- PyText.IsSpace: the whitespace set is CPython's `str.isspace` set,
  enumerated explicitly. Unicode database changes across Python versions are
  not modelled.
- Sectioner.Prefix: every key is a Python-level literal. The model gives each
  prefix as the key's digit and a period. `Sectioner.PrefixOfKey` proves this
  equals what the code computes from each key, and `FindHeading` tests that
  computed form.
