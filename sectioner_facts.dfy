/** What the sectioner guarantees about any reply: no content line is lost,
    duplicated or reordered, no section is shown empty, titles come from the
    table, and the raw fallback shows only when every line is blank. */
module SectionerFacts {
  import opened PyText
  import opened Escapes
  import opened Sectioner

  /** A line of a section body: non-empty, stripped and without a newline. */
  predicate ContentLine(l: string) {
    l != [] && Stripped(l) && '\n' !in l
  }

  predicate AllContent(ls: seq<string>) {
    forall j :: 0 <= j < |ls| ==> ContentLine(ls[j])
  }

  /** A section as shown: a non-empty list of content lines. */
  predicate WellFormed(r: Rendered) {
    r.Section? && r.lines != [] && AllContent(r.lines)
  }

  /** A line whose stripped text starts with one of the table's prefixes. */
  predicate IsHeading(line: string) {
    Classify(line).Heading?
  }

  predicate IsTableLabel(t: string) {
    exists i :: 0 <= i < |Sections| && Sections[i].1 == t
  }

  predicate Blank(lines: seq<string>) {
    forall k :: 0 <= k < |lines| ==> AllSpace(lines[k])
  }

  /** The content one line carries: nothing if blank; the non-empty text after
      the period if a heading; else the stripped line. */
  function Contribution(line: string): seq<string> {
    match Classify(line)
    case Skip => []
    case Heading(_, rest) => if rest != [] then [rest] else []
    case Text(lineStrip) => [lineStrip]
  }

  /** What `f` gives for each of `lines`, one after the other. */
  function Gather(f: string -> seq<string>, lines: seq<string>): seq<string>
    decreases |lines|
  {
    if lines == [] then [] else Gather(f, lines[..|lines| - 1]) + f(lines[|lines| - 1])
  }

  /** The content lines of `lines`, in order. */
  function Collected(lines: seq<string>): seq<string> {
    Gather(Contribution, lines)
  }

  /** The number of heading lines in `lines`. */
  function HeadingCount(lines: seq<string>): nat
    decreases |lines|
  {
    if lines == [] then 0
    else HeadingCount(lines[..|lines| - 1]) + (if IsHeading(lines[|lines| - 1]) then 1 else 0)
  }

  /** The lines of the sections among `items`, in order. */
  function BodyLines(items: seq<Rendered>): seq<string>
    decreases |items|
  {
    if items == [] then []
    else
      var last := items[|items| - 1];
      BodyLines(items[..|items| - 1]) + (if last.Section? then last.lines else [])
  }

  /** The lines of the normalised reply. */
  function ReplyLines(analysisText: string): seq<string> {
    SplitLines(Normalize(analysisText))
  }

  lemma BodyLinesSnoc(items: seq<Rendered>, r: Rendered)
    ensures BodyLines(items + [r]) == BodyLines(items) + (if r.Section? then r.lines else [])
  {
    assert (items + [r])[..|items|] == items;
  }

  lemma BodyLinesFlush(st: Scan)
    ensures BodyLines(Flush(st)) == BodyLines(st.out) + st.buffer
  {
    if st.buffer != [] {
      BodyLinesSnoc(st.out, Section(st.title, st.buffer));
    }
  }

  /** Every line the loop has seen went, in order, either into an emitted
      section or into the buffer, and nothing else did. */
  lemma {:induction false} RunCollects(lines: seq<string>)
    ensures BodyLines(Run(Init, lines).out) + Run(Init, lines).buffer == Collected(lines)
    decreases |lines|
  {
    if lines != [] {
      var init, line := lines[..|lines| - 1], lines[|lines| - 1];
      RunCollects(init);
      StepCollects(Run(Init, init), line);
    }
  }

  /** One turn of the loop moves the line's content, and only that, onto the
      end of what has been collected. */
  lemma StepCollects(st: Scan, line: string)
    ensures BodyLines(Step(st, line).out) + Step(st, line).buffer == BodyLines(st.out) + st.buffer + Contribution(line)
  {
    StepShape(st, line);
    if IsHeading(line) {
      BodyLinesFlush(st);
    }
  }

  /** A heading line flushes the buffer and opens a section under its label
      holding what follows its period; any other line appends its content to
      the buffer. */
  lemma StepShape(st: Scan, line: string)
    ensures IsHeading(line) ==>
              Step(st, line) == Scan(Sections[Classify(line).index].1, Contribution(line), true, Flush(st))
    ensures !IsHeading(line) ==> Step(st, line) == st.(buffer := st.buffer + Contribution(line))
  {
    var k := Classify(line);
    if k.Heading? {
      StepHeading(st, line);
    } else if k.Text? {
      StepText(st, line);
    } else {
      StepSkip(st, line);
      SkipCarriesNothing(line);
      assert st.buffer + [] == st.buffer;
    }
  }

  lemma StepHeading(st: Scan, line: string)
    requires Classify(line).Heading?
    ensures Step(st, line) == Scan(Sections[Classify(line).index].1, Contribution(line), true, Flush(st))
  {
  }

  lemma StepText(st: Scan, line: string)
    requires Classify(line).Text?
    ensures Step(st, line) == st.(buffer := st.buffer + Contribution(line))
  {
  }

  lemma StepSkip(st: Scan, line: string)
    requires Classify(line).Skip?
    ensures Step(st, line) == st
  {
  }

  /** A blank line carries no content. */
  lemma SkipCarriesNothing(line: string)
    requires Classify(line).Skip?
    ensures Contribution(line) == []
  {
  }

  /** What a newline-free line contributes is made of content lines. */
  lemma ContributionContent(line: string)
    requires '\n' !in line
    ensures AllContent(Contribution(line))
  {
  }

  /** Sections are emitted only with content lines, and only content lines
      are buffered. */
  predicate ContentOk(st: Scan) {
    (forall k :: 0 <= k < |st.out| ==> WellFormed(st.out[k])) && AllContent(st.buffer)
  }

  lemma StepContentOk(st: Scan, line: string)
    requires '\n' !in line && ContentOk(st)
    ensures ContentOk(Step(st, line))
  {
    StepShape(st, line);
    ContributionContent(line);
  }

  /** Every emitted section has content lines, and so has the buffer. */
  lemma {:induction false} RunWellFormed(lines: seq<string>)
    requires forall k :: 0 <= k < |lines| ==> '\n' !in lines[k]
    ensures forall k :: 0 <= k < |Run(Init, lines).out| ==> WellFormed(Run(Init, lines).out[k])
    ensures AllContent(Run(Init, lines).buffer)
    decreases |lines|
  {
    if lines != [] {
      RunWellFormed(lines[..|lines| - 1]);
      StepContentOk(Run(Init, lines[..|lines| - 1]), lines[|lines| - 1]);
    }
  }

  /** The title is the default, with nothing emitted, until a heading has
      matched, and a table label from then on; every emitted section after
      the first carries a table label. */
  predicate TitlesOk(st: Scan) {
    (!st.found ==> st.title == DefaultTitle && st.out == []) &&
    (st.found ==> IsTableLabel(st.title)) &&
    (forall k :: 0 < k < |st.out| ==> st.out[k].Section? && IsTableLabel(st.out[k].title)) &&
    (|st.out| > 0 ==> st.out[0].Section? && (st.out[0].title == DefaultTitle || IsTableLabel(st.out[0].title)))
  }

  lemma StepTitlesOk(st: Scan, line: string)
    requires TitlesOk(st)
    ensures TitlesOk(Step(st, line))
  {
    StepShape(st, line);
    if IsHeading(line) {
      assert IsTableLabel(Sections[Classify(line).index].1);
    }
  }

  /** Until a heading matches, nothing is emitted and the title is the
      default; afterwards the title is a table label. So only the first
      emitted section can carry the default title. */
  lemma {:induction false} RunTitles(lines: seq<string>)
    ensures TitlesOk(Run(Init, lines))
    decreases |lines|
  {
    if lines != [] {
      RunTitles(lines[..|lines| - 1]);
      StepTitlesOk(Run(Init, lines[..|lines| - 1]), lines[|lines| - 1]);
    }
  }

  /** At most one section is emitted per heading line while the loop runs. */
  lemma {:induction false} RunCount(lines: seq<string>)
    ensures |Run(Init, lines).out| <= HeadingCount(lines)
    decreases |lines|
  {
    if lines != [] {
      RunCount(lines[..|lines| - 1]);
      StepShape(Run(Init, lines[..|lines| - 1]), lines[|lines| - 1]);
    }
  }

  /** Some heading has matched, or some line is buffered. */
  predicate Seen(st: Scan) {
    st.found || st.buffer != []
  }

  /** A blank line changes nothing; any other line leaves some heading
      matched or some line buffered, and once so the state stays so. */
  lemma StepSeen(st: Scan, line: string)
    ensures AllSpace(line) ==> Step(st, line) == st
    ensures Seen(st) || !AllSpace(line) ==> Seen(Step(st, line))
  {
    StepShape(st, line);
    if AllSpace(line) {
      assert Contribution(line) == [] && st.buffer + [] == st.buffer;
    }
  }

  /** Blank lines leave the state alone. */
  lemma {:induction false} RunBlank(lines: seq<string>)
    requires Blank(lines)
    ensures Run(Init, lines) == Init
    decreases |lines|
  {
    if lines != [] {
      var init, line := lines[..|lines| - 1], lines[|lines| - 1];
      BlankLast(lines);
      RunBlank(init);
      StepSeen(Init, line);
    }
  }

  /** A state with nothing buffered and no heading seen means every line so
      far was blank. */
  lemma {:induction false} RunUnseen(lines: seq<string>)
    requires !Seen(Run(Init, lines))
    ensures Blank(lines)
    decreases |lines|
  {
    if lines != [] {
      var init, line := lines[..|lines| - 1], lines[|lines| - 1];
      assert Run(Init, lines) == Step(Run(Init, init), line);
      StepSeen(Run(Init, init), line);
      RunUnseen(init);
      BlankLast(lines);
    }
  }

  lemma BlankLast(lines: seq<string>)
    requires lines != []
    ensures Blank(lines) <==> Blank(lines[..|lines| - 1]) && AllSpace(lines[|lines| - 1])
  {
  }

  /** With no heading among the lines, everything collected sits in the
      buffer under the default title. */
  lemma {:induction false} RunNoHeading(lines: seq<string>)
    requires HeadingCount(lines) == 0
    ensures Run(Init, lines) == Scan(DefaultTitle, Collected(lines), false, [])
    decreases |lines|
  {
    if lines != [] {
      RunNoHeading(lines[..|lines| - 1]);
      StepShape(Run(Init, lines[..|lines| - 1]), lines[|lines| - 1]);
    }
  }

  /** A whitespace-only reply normalises to itself and splits into blank
      lines. */
  lemma BlankReplyLines(analysisText: string)
    requires AllSpace(analysisText)
    ensures Blank(ReplyLines(analysisText))
  {
    NormalizeBlank(analysisText);
    var lines := SplitLines(analysisText);
    assert ReplyLines(analysisText) == lines;
    forall k, i | 0 <= k < |lines| && 0 <= i < |lines[k]| ensures IsSpace(lines[k][i]) {
      var c := lines[k][i];
      assert c in lines[k];
      assert c in analysisText;
      var j :| 0 <= j < |analysisText| && analysisText[j] == c;
    }
  }

  /** A shown reply is the last flush, or the fallback, after the loop has run
      over the normalised lines. */
  lemma ShownShape(analysisText: string)
    requires Sectioned(analysisText).Shown?
    ensures !AllSpace(analysisText)
    ensures Sectioned(analysisText).items ==
              Finish(Run(Init, ReplyLines(analysisText)), analysisText, Normalize(analysisText))
  {
  }

  /** No content line is lost, duplicated or reordered: the shown sections'
      lines, in order, are exactly the reply's content lines. */
  lemma ContentPreserved(analysisText: string)
    requires Sectioned(analysisText).Shown?
    ensures BodyLines(Sectioned(analysisText).items) == Collected(ReplyLines(analysisText))
  {
    ShownShape(analysisText);
    var s := Normalize(analysisText);
    var st := Run(Init, ReplyLines(analysisText));
    RunCollects(ReplyLines(analysisText));
    if st.buffer != [] {
      BodyLinesSnoc(st.out, Section(st.title, st.buffer));
    } else if !st.found {
      BodyLinesSnoc(st.out, Raw(s));
    }
  }

  /** A body made of content lines is shown as its lines
      joined by newlines, and splitting what is shown gives the lines back. */
  lemma SectionBodyRoundTrip(r: Rendered)
    requires WellFormed(r)
    ensures r.Body() == JoinLines(r.lines)
    ensures SplitLines(r.Body()) == r.lines
  {
    JoinEnds(r.lines);
    StripStripped(JoinLines(r.lines));
    SplitJoin(r.lines);
  }

  /** The ends of a join of non-empty lines are the ends of its first and
      last lines. */
  lemma {:induction false} JoinEnds(ls: seq<string>)
    requires |ls| >= 1 && forall j :: 0 <= j < |ls| ==> ls[j] != []
    ensures |JoinLines(ls)| > 0
    ensures JoinLines(ls)[0] == ls[0][0]
    ensures JoinLines(ls)[|JoinLines(ls)| - 1] == ls[|ls| - 1][|ls[|ls| - 1]| - 1]
    decreases |ls|
  {
    if |ls| > 1 {
      var rest := ls[1..];
      JoinEnds(rest);
      assert JoinLines(ls) == ls[0] + "\n" + JoinLines(rest);
      assert rest[|rest| - 1] == ls[|ls| - 1];
    }
  }

  /** Every section among `items` holds a non-empty list of content lines. */
  predicate SectionsOk(items: seq<Rendered>) {
    forall k :: 0 <= k < |items| && items[k].Section? ==> WellFormed(items[k])
  }

  lemma FinishSectionsOk(st: Scan, analysisText: string, s: string)
    requires ContentOk(st)
    ensures SectionsOk(Finish(st, analysisText, s))
  {
  }

  /** Every shown section has a non-empty body of content lines, rendered
      as those lines joined by newlines and split back into the same lines. */
  lemma SectionsWellFormed(analysisText: string)
    requires Sectioned(analysisText).Shown?
    ensures SectionsOk(Sectioned(analysisText).items)
    ensures forall k :: 0 <= k < |Sectioned(analysisText).items| && Sectioned(analysisText).items[k].Section? ==>
              Sectioned(analysisText).items[k].Body() == JoinLines(Sectioned(analysisText).items[k].lines) &&
              SplitLines(Sectioned(analysisText).items[k].Body()) == Sectioned(analysisText).items[k].lines
  {
    ShownShape(analysisText);
    var lines := ReplyLines(analysisText);
    RunWellFormed(lines);
    FinishSectionsOk(Run(Init, lines), analysisText, Normalize(analysisText));
    var items := Sectioned(analysisText).items;
    forall k | 0 <= k < |items| && items[k].Section?
      ensures items[k].Body() == JoinLines(items[k].lines) && SplitLines(items[k].Body()) == items[k].lines
    {
      SectionBodyRoundTrip(items[k]);
    }
  }

  /** Only the first of `items` may carry the default title; every other
      section carries a table label. */
  predicate LabelsOk(items: seq<Rendered>) {
    (forall k :: 0 < k < |items| ==> items[k].Section? && IsTableLabel(items[k].title)) &&
    (forall k :: 0 <= k < |items| && items[k].Section? ==>
       items[k].title == DefaultTitle || IsTableLabel(items[k].title))
  }

  lemma FinishLabelsOk(st: Scan, analysisText: string, s: string)
    requires TitlesOk(st)
    ensures LabelsOk(Finish(st, analysisText, s))
  {
  }

  /** The first shown section may carry the default title; every later one
      carries a label from the table. */
  lemma LabelsFromTable(analysisText: string)
    requires Sectioned(analysisText).Shown?
    ensures LabelsOk(Sectioned(analysisText).items)
  {
    ShownShape(analysisText);
    RunTitles(ReplyLines(analysisText));
    FinishLabelsOk(Run(Init, ReplyLines(analysisText)), analysisText, Normalize(analysisText));
  }

  /** There is at most one more shown block than there are heading lines. */
  lemma SectionCount(analysisText: string)
    requires Sectioned(analysisText).Shown?
    ensures |Sectioned(analysisText).items| <= HeadingCount(ReplyLines(analysisText)) + 1
  {
    ShownShape(analysisText);
    RunCount(ReplyLines(analysisText));
  }

  /** The fallback shows only when nothing was emitted, so always alone. */
  lemma FinishRawAlone(st: Scan, analysisText: string, s: string)
    requires TitlesOk(st)
    ensures forall k :: 0 <= k < |Finish(st, analysisText, s)| && Finish(st, analysisText, s)[k].Raw? ==>
              Finish(st, analysisText, s) == [Raw(s)] && !Seen(st)
  {
  }

  /** The raw fallback shows exactly when the reply is not blank yet every
      line of its normalised text is, and then it shows alone. */
  lemma RawFallback(analysisText: string)
    ensures Sectioned(analysisText) == Shown([Raw(Normalize(analysisText))]) <==>
              !AllSpace(analysisText) && Blank(ReplyLines(analysisText))
  {
    var lines := ReplyLines(analysisText);
    var s := Normalize(analysisText);
    if !AllSpace(analysisText) && Blank(lines) {
      RunBlank(lines);
      assert Finish(Init, analysisText, s) == [Raw(s)];
    }
    if Sectioned(analysisText) == Shown([Raw(s)]) {
      ShownShape(analysisText);
      RunTitles(lines);
      FinishRawAlone(Run(Init, lines), analysisText, s);
      assert Sectioned(analysisText).items[0].Raw?;
      RunUnseen(lines);
    }
  }

  /** The raw fallback never shows beside a section. */
  lemma RawAlone(analysisText: string)
    requires Sectioned(analysisText).Shown?
    ensures forall k :: 0 <= k < |Sectioned(analysisText).items| && Sectioned(analysisText).items[k].Raw? ==>
              Sectioned(analysisText).items == [Raw(Normalize(analysisText))]
  {
    ShownShape(analysisText);
    RunTitles(ReplyLines(analysisText));
    FinishRawAlone(Run(Init, ReplyLines(analysisText)), analysisText, Normalize(analysisText));
  }

  /** A reply with content but no numbered heading is shown as one section
      under the default title holding its stripped non-blank lines. */
  lemma PlainProse(analysisText: string)
    requires HeadingCount(ReplyLines(analysisText)) == 0 && !Blank(ReplyLines(analysisText))
    ensures Sectioned(analysisText) == Shown([Section(DefaultTitle, Collected(ReplyLines(analysisText)))])
  {
    var lines := ReplyLines(analysisText);
    if AllSpace(analysisText) {
      BlankReplyLines(analysisText);
    }
    ShownShape(analysisText);
    RunNoHeading(lines);
    if Collected(lines) == [] {
      RunUnseen(lines);
    }
  }
}
