/** The response sectioner of the analysis results view: it takes the language
    model's reply, normalises its escaped newlines, splits it into lines and
    groups the lines under the display labels of a fixed five-entry table of
    numbered headings. Each section the view draws, a `### title` line and
    its body, becomes one `Section` of an output sequence, and the raw text
    it draws when no section applies becomes `Raw`. */
module Sectioner {
  import opened PyText
  import opened Escapes

  datatype Option<T> = None | Some(value: T)

  /** The `sections` dictionary in insertion order: the heading the prompt asks
      for, and the label shown for it. */
  const Sections: seq<(string, string)> := [
    ("1." + " Descrição geral do produto.", "📝 **Descrição Geral do Produto**"),
    ("2." + " Materiais identificáveis na embalagem.", "♻️ **Materiais da Embalagem**"),
    ("3." + " Estimativa aproximada da pegada de carbono (em kg CO2).", "💨 **Pegada de Carbono Estimada**"),
    ("4." + " Instruções de descarte correto no Brasil.", "🗑️ **Descarte Correto (Brasil)**"),
    ("5." + " Sugestões de alternativas ecológicas disponíveis no mercado nacional.", "💡 **Alternativas Ecológicas**")
  ]

  /** The title of whatever comes before the first numbered heading. */
  const DefaultTitle: string := "ℹ️ **Informações Adicionais**"

  /** The index of the first period of `s` at or after index `i`, or `|s|`
      when there is none. */
  function DotFrom(s: string, i: nat): (n: nat)
    requires i <= |s|
    ensures i <= n <= |s|
    ensures forall k :: i <= k < n ==> s[k] != '.'
    ensures n < |s| ==> s[n] == '.'
    decreases |s| - i
  {
    if i == |s| || s[i] == '.' then i else DotFrom(s, i + 1)
  }

  /** `s.split('.')[0]`: everything before the first period. */
  function BeforeFirstDot(s: string): (r: string)
    ensures StartsWith(s, r) && '.' !in r
    ensures |r| < |s| ==> s[|r|] == '.'
  {
    var n := DotFrom(s, 0);
    assert forall k :: 0 <= k < n ==> s[..n][k] != '.';
    s[..n]
  }

  /** `s.split('.', 1)[-1]`: everything after the first period, or all of
      `s` when it has none. */
  function AfterFirstDot(s: string): (r: string)
    ensures '.' in s ==> s == BeforeFirstDot(s) + "." + r
    ensures '.' !in s ==> r == s
    ensures forall c :: c in r ==> c in s
  {
    var n := DotFrom(s, 0);
    if n < |s| then
      assert s == s[..n] + "." + s[n + 1..];
      assert forall c :: c in s[n + 1..] ==> c in s;
      s[n + 1..]
    else s
  }

  /** The leading numbers of the five table keys. */
  const Digits: string := "12345"

  /** The heading prefix of table entry `i`: its number and a period. */
  function Prefix(i: nat): string
    requires i < |Sections|
  {
    [Digits[i], '.']
  }

  /** The prefix is what the program computes from the key: the key up to
      its first period, and the period. */
  lemma PrefixOfKey(i: nat)
    requires i < |Sections|
    ensures BeforeFirstDot(Sections[i].0) + "." == Prefix(i)
  {
    var key := Sections[i].0;
    if i == 0 {
      assert key[0] == '1' && key[1] == '.';
    } else if i == 1 {
      assert key[0] == '2' && key[1] == '.';
    } else if i == 2 {
      assert key[0] == '3' && key[1] == '.';
    } else if i == 3 {
      assert key[0] == '4' && key[1] == '.';
    } else {
      assert key[0] == '5' && key[1] == '.';
    }
    assert key[1..][0] == '.';
  }

  /** The table entry whose heading prefix starts `lineStrip`, tried in table
      order from entry `i` on. */
  function MatchFrom(lineStrip: string, i: nat): (m: Option<nat>)
    requires i <= |Sections|
    ensures m.Some? ==> i <= m.value < |Sections| && StartsWith(lineStrip, Prefix(m.value)) &&
                        forall j :: i <= j < m.value ==> !StartsWith(lineStrip, Prefix(j))
    ensures m.None? ==> forall j :: i <= j < |Sections| ==> !StartsWith(lineStrip, Prefix(j))
    decreases |Sections| - i
  {
    if i == |Sections| then None
    else if StartsWith(lineStrip, Prefix(i)) then Some(i)
    else MatchFrom(lineStrip, i + 1)
  }

  /** The first table entry whose heading prefix starts `lineStrip`, if any. */
  function MatchIndex(lineStrip: string): (m: Option<nat>)
    ensures m.Some? ==> m.value < |Sections| && StartsWith(lineStrip, Prefix(m.value)) &&
                        forall j :: 0 <= j < m.value ==> !StartsWith(lineStrip, Prefix(j))
    ensures m.None? ==> forall j :: 0 <= j < |Sections| ==> !StartsWith(lineStrip, Prefix(j))
  {
    MatchFrom(lineStrip, 0)
  }

  /** What a heading line contributes as the first line of its section: the
      stripped text after its first period. */
  function HeadingRemainder(lineStrip: string): (r: string)
    ensures Stripped(lineStrip) ==> Stripped(r)
    ensures forall c :: c in r ==> c in lineStrip
  {
    if '.' in lineStrip then Strip(AfterFirstDot(lineStrip)) else lineStrip
  }

  /** A line starting with the prefix of a table entry keeps as its first
      content line the stripped text after the entry's number and period. */
  lemma HeadingRest(lineStrip: string, i: nat)
    requires i < |Sections| && StartsWith(lineStrip, Prefix(i))
    ensures HeadingRemainder(lineStrip) == Strip(lineStrip[2..])
  {
    assert lineStrip[0] == Digits[i] && lineStrip[1] == '.';
    assert DotFrom(lineStrip, 0) == 1 by {
      assert lineStrip[0] != '.';
    }
    assert '.' in lineStrip;
    assert AfterFirstDot(lineStrip) == lineStrip[2..];
  }

  /** One block of output: a labelled section, or the whole text shown raw. */
  datatype Rendered = Section(title: string, lines: seq<string>) | Raw(text: string)
  {
    /** The markdown shown under a section's title: its lines joined with
        newlines, then stripped. */
    function Body(): (r: string)
      requires Section?
      ensures Stripped(r)
      ensures forall c :: c in r ==> c == '\n' || exists k :: 0 <= k < |lines| && c in lines[k]
    {
      Strip(JoinLines(lines))
    }
  }

  /** What the view shows: the "no content" warning, or the blocks in order. */
  datatype Display = NoContent | Shown(items: seq<Rendered>)

  /** The loop's state: the current title, the buffered lines, whether any
      heading has matched yet, and the blocks emitted so far. */
  datatype Scan = Scan(title: string, buffer: seq<string>, found: bool, out: seq<Rendered>)

  const Init: Scan := Scan(DefaultTitle, [], false, [])

  /** The blocks after emitting the buffered lines, if any, under the current
      title. */
  function Flush(st: Scan): (r: seq<Rendered>)
    ensures st.out <= r && |r| <= |st.out| + 1
    ensures r == st.out <==> st.buffer == []
    ensures st.buffer != [] ==> r[|st.out|] == Section(st.title, st.buffer)
  {
    if st.buffer != [] then st.out + [Section(st.title, st.buffer)] else st.out
  }

  /** How the loop treats a line: skipped when blank, a heading of table
      entry `index` with the text after its first period, or plain text. */
  datatype LineKind = Skip | Heading(index: nat, rest: string) | Text(lineStrip: string)

  function Classify(line: string): (k: LineKind)
    ensures k.Skip? <==> AllSpace(line)
    ensures k.Heading? ==> k.index < |Sections| && Stripped(k.rest) && forall c :: c in k.rest ==> c in line
    ensures k.Text? ==> k.lineStrip != [] && Stripped(k.lineStrip) && forall c :: c in k.lineStrip ==> c in line
  {
    var lineStrip := Strip(line);
    if lineStrip == [] then Skip
    else match MatchIndex(lineStrip)
      case Some(i) => Heading(i, HeadingRemainder(lineStrip))
      case None => Text(lineStrip)
  }

  /** A non-blank line is a heading exactly when its stripped text starts
      with the prefix of some table entry; it is then a heading of the first
      such entry, holding the stripped text after the entry's number and
      period. Any other non-blank line is its stripped text. */
  lemma ClassifyMeaning(line: string)
    ensures Classify(line).Heading? <==>
              !AllSpace(line) && exists i :: 0 <= i < |Sections| && StartsWith(Strip(line), Prefix(i))
    ensures Classify(line).Heading? ==>
              StartsWith(Strip(line), Prefix(Classify(line).index)) &&
              (forall j :: 0 <= j < Classify(line).index ==> !StartsWith(Strip(line), Prefix(j))) &&
              Classify(line).rest == Strip(Strip(line)[2..])
    ensures Classify(line).Text? ==> Classify(line).lineStrip == Strip(line)
  {
    var m := MatchIndex(Strip(line));
    if !AllSpace(line) && m.Some? {
      HeadingRest(Strip(line), m.value);
    }
  }

  /** One turn of the loop over the lines. */
  function Step(st: Scan, line: string): (r: Scan)
    ensures r.found == (st.found || Classify(line).Heading?)
    ensures Classify(line).Heading? ==>
              r.title == Sections[Classify(line).index].1 && r.out == Flush(st) && |r.buffer| <= 1
    ensures !Classify(line).Heading? ==>
              r.title == st.title && r.out == st.out && st.buffer <= r.buffer && |r.buffer| <= |st.buffer| + 1
    ensures AllSpace(line) ==> r == st
  {
    match Classify(line)
    case Skip => st
    case Heading(i, rest) => Scan(Sections[i].1, if rest != [] then [rest] else [], true, Flush(st))
    case Text(lineStrip) => st.(buffer := st.buffer + [lineStrip])
  }

  /** The state after `step` has been taken over `lines` in order, starting
      from `st`. */
  function Fold(step: (Scan, string) -> Scan, st: Scan, lines: seq<string>): Scan
    decreases |lines|
  {
    if lines == [] then st else step(Fold(step, st, lines[..|lines| - 1]), lines[|lines| - 1])
  }

  /** The state after the loop has run over `lines`, starting from `st`. The
      loop only appends to the blocks emitted so far, and once a heading has
      matched it stays matched. */
  function Run(st: Scan, lines: seq<string>): (r: Scan)
    ensures st.out <= r.out
    ensures st.found ==> r.found
  {
    RunGrows(st, lines);
    Fold(Step, st, lines)
  }

  lemma {:induction false} RunGrows(st: Scan, lines: seq<string>)
    ensures st.out <= Fold(Step, st, lines).out
    ensures st.found ==> Fold(Step, st, lines).found
    decreases |lines|
  {
    if lines != [] {
      var mid := Fold(Step, st, lines[..|lines| - 1]);
      RunGrows(st, lines[..|lines| - 1]);
      assert mid.out <= Step(mid, lines[|lines| - 1]).out;
    }
  }

  /** The last flush, or the raw fallback when nothing was emitted, no heading
      ever matched and the reply was not blank. */
  function Finish(st: Scan, analysisText: string, s: string): (r: seq<Rendered>)
    ensures st.out <= r && |r| <= |st.out| + 1
    ensures |r| == |st.out| + 1 <==> st.buffer != [] || (!st.found && !AllSpace(analysisText))
    ensures |r| == |st.out| + 1 ==> (r[|st.out|].Raw? <==> st.buffer == [])
    ensures st.buffer != [] ==> r == st.out + [Section(st.title, st.buffer)]
    ensures st.buffer == [] && |r| == |st.out| + 1 ==> r == st.out + [Raw(s)]
  {
    if st.buffer != [] then Flush(st)
    else if !st.found && Strip(analysisText) != [] then st.out + [Raw(s)]
    else st.out
  }

  /** What `display_analysis_results` shows for a reply. */
  function Sectioned(analysisText: string): (d: Display)
    ensures d.NoContent? <==> AllSpace(analysisText)
  {
    if Strip(analysisText) == [] then NoContent
    else
      var s := Normalize(analysisText);
      Shown(Finish(Run(Init, SplitLines(s)), analysisText, s))
  }

  /** The inner loop over the table: the first entry, in table order, whose
      heading prefix starts the line. */
  method FindHeading(lineStrip: string) returns (matched: Option<nat>)
    ensures matched == MatchIndex(lineStrip)
  {
    var i := 0;
    while i < |Sections|
      invariant 0 <= i <= |Sections|
      invariant MatchFrom(lineStrip, i) == MatchIndex(lineStrip)
    {
      PrefixOfKey(i);
      if StartsWith(lineStrip, BeforeFirstDot(Sections[i].0) + ".") {
        return Some(i);
      }
      i := i + 1;
    }
    return None;
  }

  /** One turn of the loop: skip a blank line, open a new section on a
      heading after flushing the buffer, or buffer any other line. */
  method ProcessLine(title: string, content: seq<string>, found: bool, out: seq<Rendered>, line: string)
    returns (title': string, content': seq<string>, found': bool, out': seq<Rendered>)
    ensures Scan(title', content', found', out') == Step(Scan(title, content, found, out), line)
  {
    title', content', found', out' := title, content, found, out;
    var lineStrip := Strip(line);
    if lineStrip == [] {
      assert Classify(line) == Skip;
      return;
    }
    var matchedKey := FindHeading(lineStrip);
    if matchedKey.Some? {
      assert Classify(line) == Heading(matchedKey.value, HeadingRemainder(lineStrip));
      if content' != [] {
        out' := out' + [Section(title', content')];
        content' := [];
      }
      assert out' == Flush(Scan(title, content, found, out)) && content' == [];
      title' := Sections[matchedKey.value].1;
      var lineContent := HeadingRemainder(lineStrip);
      if lineContent != [] {
        content' := content' + [lineContent];
      }
      found' := true;
      assert content' == if lineContent != [] then [lineContent] else [];
    } else {
      assert Classify(line) == Text(lineStrip);
      content' := content' + [lineStrip];
    }
  }

  /** `display_analysis_results`: the early exit on a blank reply, the two
      normalisation passes, the split into lines and the sectioning loop. */
  method DisplayAnalysisResults(analysisText: string) returns (d: Display)
    ensures d == Sectioned(analysisText)
  {
    if Strip(analysisText) == [] {
      return NoContent;
    }
    var currentSectionContent: seq<string> := [];
    var currentSectionTitle := DefaultTitle;
    var out: seq<Rendered> := [];
    var s := Normalize(analysisText);
    var lines := SplitLines(s);
    var foundSection := false;
    for n := 0 to |lines|
      invariant Run(Init, lines[..n]) == Scan(currentSectionTitle, currentSectionContent, foundSection, out)
    {
      assert lines[..n + 1][..n] == lines[..n];
      currentSectionTitle, currentSectionContent, foundSection, out :=
        ProcessLine(currentSectionTitle, currentSectionContent, foundSection, out, lines[n]);
    }
    assert lines[..|lines|] == lines;
    ghost var last := Scan(currentSectionTitle, currentSectionContent, foundSection, out);
    assert Run(Init, lines) == last;
    if currentSectionContent != [] {
      out := out + [Section(currentSectionTitle, currentSectionContent)];
    } else if !foundSection && Strip(analysisText) != [] {
      out := out + [Raw(s)];
    }
    assert out == Finish(last, analysisText, s);
    d := Shown(out);
  }
}
