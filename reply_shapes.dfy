/** The shape of a reply that follows the prompt: a run of heading lines, each
    followed by body lines that are not headings. Such a reply is shown as one
    section per heading, in order, even when a heading repeats; the reply the
    prompt asks for, with the five numbered items, is shown as the five
    sections of the table in table order. */
module ReplyShapes {
  import opened PyText
  import opened Escapes
  import opened Sectioner
  import opened SectionerFacts

  /** A heading line and the lines up to the next heading. */
  datatype Block = Block(heading: string, body: seq<string>)

  function BlockLines(b: Block): seq<string> {
    [b.heading] + b.body
  }

  /** The lines of the blocks, one block after the other. */
  function Flatten(bs: seq<Block>): seq<string>
    decreases |bs|
  {
    if bs == [] then [] else Flatten(bs[..|bs| - 1]) + BlockLines(bs[|bs| - 1])
  }

  /** A block opens with a heading, holds no other heading, and carries some
      content: text after the heading's period or a non-blank body line. */
  predicate WellFormedBlock(b: Block) {
    IsHeading(b.heading) &&
    (forall j :: 0 <= j < |b.body| ==> !IsHeading(b.body[j])) &&
    Collected(BlockLines(b)) != []
  }

  predicate WellFormedBlocks(bs: seq<Block>) {
    forall i :: 0 <= i < |bs| ==> WellFormedBlock(bs[i])
  }

  /** The table label of the block's heading. */
  function BlockLabel(b: Block): (t: string)
    ensures IsHeading(b.heading) ==> IsTableLabel(t)
  {
    match Classify(b.heading)
    case Heading(i, _) => Sections[i].1
    case _ => DefaultTitle
  }

  /** The section a block is shown as: its label over its content lines. */
  function BlockSection(b: Block): Rendered {
    Section(BlockLabel(b), Collected(BlockLines(b)))
  }

  /** `f` applied to each of `xs`, in order. */
  function Map<A, B>(f: A -> B, xs: seq<A>): (r: seq<B>)
    ensures |r| == |xs|
    decreases |xs|
  {
    if xs == [] then [] else Map(f, xs[..|xs| - 1]) + [f(xs[|xs| - 1])]
  }

  lemma {:induction false} MapAt<A, B>(f: A -> B, xs: seq<A>, i: nat)
    requires i < |xs|
    ensures Map(f, xs)[i] == f(xs[i])
    decreases |xs|
  {
    var init := xs[..|xs| - 1];
    if i < |init| {
      MapAt(f, init, i);
    }
  }

  /** One section per block, in order. */
  function Expected(bs: seq<Block>): seq<Rendered> {
    Map(BlockSection, bs)
  }

  /** Taking the steps over one more line is one more step. */
  lemma FoldSnoc(step: (Scan, string) -> Scan, st: Scan, xs: seq<string>, x: string)
    ensures Fold(step, st, xs + [x]) == step(Fold(step, st, xs), x)
  {
    assert (xs + [x])[..|xs|] == xs;
  }

  /** Taking the steps over two stretches of lines is taking them over the
      first, then over the second from where the first left off. */
  lemma {:induction false} FoldConcat(step: (Scan, string) -> Scan, st: Scan, a: seq<string>, b: seq<string>)
    ensures Fold(step, st, a + b) == Fold(step, Fold(step, st, a), b)
    decreases |b|
  {
    if b == [] {
      assert a + b == a;
    } else {
      var init, last := b[..|b| - 1], b[|b| - 1];
      FoldConcat(step, st, a, init);
      assert a + b == (a + init) + [last];
      FoldSnoc(step, st, a + init, last);
    }
  }

  /** What is gathered from two stretches of lines is what is gathered from
      the first, then what is gathered from the second. */
  lemma {:induction false} GatherConcat(f: string -> seq<string>, a: seq<string>, b: seq<string>)
    ensures Gather(f, a + b) == Gather(f, a) + Gather(f, b)
    decreases |b|
  {
    if b == [] {
      assert a + b == a;
    } else {
      var init := b[..|b| - 1];
      GatherConcat(f, a, init);
      assert (a + b)[..|a + b| - 1] == a + init;
      assert (a + b)[|a + b| - 1] == b[|b| - 1];
    }
  }

  /** Lines without a heading only append their content to the buffer. */
  lemma {:induction false} RunBody(st: Scan, body: seq<string>)
    requires forall j :: 0 <= j < |body| ==> !IsHeading(body[j])
    ensures Run(st, body) == st.(buffer := st.buffer + Collected(body))
    decreases |body|
  {
    if body == [] {
      assert st.buffer + [] == st.buffer;
    } else {
      var init, line := body[..|body| - 1], body[|body| - 1];
      RunBody(st, init);
      assert Run(st, body) == Step(Run(st, init), line);
      StepShape(Run(st, init), line);
      assert Collected(body) == Collected(init) + Contribution(line);
      assert st.buffer + Collected(init) + Contribution(line) == st.buffer + Collected(body);
    }
  }

  /** A block flushes whatever was buffered and leaves its own content
      buffered under its label. */
  lemma RunBlock(st: Scan, b: Block)
    requires WellFormedBlock(b)
    ensures Run(st, BlockLines(b)) == Open(b, Flush(st))
  {
    var h := b.heading;
    FoldConcat(Step, st, [h], b.body);
    assert [h][..0] == [];
    StepShape(st, h);
    RunBody(Step(st, h), b.body);
    GatherConcat(Contribution, [h], b.body);
    assert [h][..0] == [] && Collected([h]) == Contribution(h);
  }

  /** After the loop has run over well-formed blocks from state `st0`, the
      buffer of `st0` has been flushed, every block but the last has been
      emitted as its own section after it, and the last one is buffered. */
  lemma {:induction false} RunBlocks(st0: Scan, bs: seq<Block>)
    requires |bs| >= 1 && WellFormedBlocks(bs)
    ensures Run(st0, Flatten(bs)) == Open(bs[|bs| - 1], Flush(st0) + Expected(bs[..|bs| - 1]))
    decreases |bs|
  {
    var init, last := bs[..|bs| - 1], bs[|bs| - 1];
    var st := Run(st0, Flatten(init));
    assert WellFormedBlock(last);
    if |init| > 0 {
      assert WellFormedBlocks(init) by {
        forall i | 0 <= i < |init| ensures WellFormedBlock(init[i]) {
          assert init[i] == bs[i];
        }
      }
      RunBlocks(st0, init);
      assert WellFormedBlock(init[|init| - 1]);
    } else {
      assert Flatten(init) == [];
    }
    calc {
      Run(st0, Flatten(bs));
      { assert Flatten(bs) == Flatten(init) + BlockLines(last);
        FoldConcat(Step, st0, Flatten(init), BlockLines(last)); }
      Run(st, BlockLines(last));
      { RunBlock(st, last); }
      Open(last, Flush(st));
      { FlushBlocks(st0, init, st); }
      Open(last, Flush(st0) + Expected(init));
    }
  }

  /** Flushing the state left by the blocks after `st0`, which is `st0` itself
      when there are none, or the last one buffered after the sections of
      the others, gives one section per block after the flush of `st0`. */
  lemma FlushBlocks(st0: Scan, bs: seq<Block>, st: Scan)
    requires |bs| == 0 ==> st == st0
    requires |bs| >= 1 ==> Collected(BlockLines(bs[|bs| - 1])) != [] &&
                           st == Open(bs[|bs| - 1], Flush(st0) + Expected(bs[..|bs| - 1]))
    ensures Flush(st) == Flush(st0) + Expected(bs)
  {
    if |bs| >= 1 {
      FlushOpen(bs[|bs| - 1], Flush(st0) + Expected(bs[..|bs| - 1]));
    }
  }

  /** The state with block `b` buffered under its label after `out`. */
  function Open(b: Block, out: seq<Rendered>): Scan {
    Scan(BlockLabel(b), Collected(BlockLines(b)), true, out)
  }

  /** Flushing a buffered block adds its section after `out`. */
  lemma FlushOpen(b: Block, out: seq<Rendered>)
    requires Collected(BlockLines(b)) != []
    ensures Flush(Open(b, out)) == out + [BlockSection(b)]
  {
  }

  /** A reply whose normalised lines are well-formed blocks is shown as
      exactly one section per block, in order, under each block's label,
      whether or not labels repeat. */
  lemma BlocksShown(analysisText: string, blank: seq<string>, bs: seq<Block>)
    requires |bs| >= 1 && WellFormedBlocks(bs)
    requires Blank(blank) && ReplyLines(analysisText) == blank + Flatten(bs)
    ensures Sectioned(analysisText) == Shown(Expected(bs))
  {
    BlocksNotBlank(analysisText, blank, bs);
    ShownShape(analysisText);
    LeadingBlank(blank, Flatten(bs));
    RunBlocks(Init, bs);
    FinishOpen(Flush(Init), bs, analysisText, Normalize(analysisText));
    FlushInit(Expected(bs));
  }

  /** Nothing is buffered at the start, so flushing then adds nothing. */
  lemma FlushInit(items: seq<Rendered>)
    ensures Flush(Init) + items == items
  {
    assert Flush(Init) == [];
  }

  /** A reply in which some text without a heading comes before well-formed
      blocks shows that text first, as one section under the default label,
      then one section per block. */
  lemma PreambleShown(analysisText: string, pre: seq<string>, bs: seq<Block>)
    requires |bs| >= 1 && WellFormedBlocks(bs)
    requires HeadingCount(pre) == 0 && Collected(pre) != []
    requires ReplyLines(analysisText) == pre + Flatten(bs)
    ensures Sectioned(analysisText) == Shown([Section(DefaultTitle, Collected(pre))] + Expected(bs))
  {
    var st0 := Run(Init, pre);
    RunNoHeading(pre);
    assert Flush(st0) == [Section(DefaultTitle, Collected(pre))];
    if AllSpace(analysisText) {
      BlankReplyLines(analysisText);
      assert Blank(pre) by {
        forall k | 0 <= k < |pre| ensures AllSpace(pre[k]) {
          assert pre[k] == ReplyLines(analysisText)[k];
        }
      }
      RunBlank(pre);
      assert false;
    }
    ShownShape(analysisText);
    FoldConcat(Step, Init, pre, Flatten(bs));
    RunBlocks(st0, bs);
    FinishOpen(Flush(st0), bs, analysisText, Normalize(analysisText));
  }

  /** Blank lines before the first heading change nothing. */
  lemma LeadingBlank(blank: seq<string>, lines: seq<string>)
    requires Blank(blank)
    ensures Run(Init, blank + lines) == Run(Init, lines)
  {
    FoldConcat(Step, Init, blank, lines);
    RunBlank(blank);
  }

  /** A reply made of blocks is not blank: the blocks carry a heading. */
  lemma BlocksNotBlank(analysisText: string, blank: seq<string>, bs: seq<Block>)
    requires |bs| >= 1 && WellFormedBlocks(bs)
    requires Blank(blank) && ReplyLines(analysisText) == blank + Flatten(bs)
    ensures !AllSpace(analysisText)
  {
    RunBlocks(Init, bs);
    LeadingBlank(blank, Flatten(bs));
    if AllSpace(analysisText) {
      BlankReplyLines(analysisText);
      RunBlank(ReplyLines(analysisText));
    }
  }

  /** The last flush completes the sections of all blocks after `out`. */
  lemma FinishOpen(out: seq<Rendered>, bs: seq<Block>, analysisText: string, s: string)
    requires |bs| >= 1 && WellFormedBlocks(bs)
    ensures Finish(Open(bs[|bs| - 1], out + Expected(bs[..|bs| - 1])), analysisText, s) == out + Expected(bs)
  {
    var last, init := bs[|bs| - 1], Expected(bs[..|bs| - 1]);
    assert WellFormedBlock(last);
    calc {
      Finish(Open(last, out + init), analysisText, s);
      out + init + [BlockSection(last)];
      out + (init + [BlockSection(last)]);
      { assert Expected(bs) == init + [BlockSection(last)]; }
      out + Expected(bs);
    }
  }

  /** Text that starts with the number of a table entry and a period is
      matched by that entry, whatever follows. */
  lemma MatchByNumber(ls: string, k: nat)
    requires k < |Sections|
    requires StartsWith(ls, Prefix(k))
    ensures MatchIndex(ls) == Some(k)
  {
    var m := MatchIndex(ls);
    if m.Some? && m.value < k {
      assert false;
    }
  }

  /** A line whose stripped text starts with the number of a table entry and
      a period is a heading of that entry, whatever follows. */
  lemma HeadingByNumber(line: string, k: nat)
    requires k < |Sections|
    requires StartsWith(Strip(line), Prefix(k))
    ensures IsHeading(line) && Classify(line).index == k
  {
    MatchByNumber(Strip(line), k);
  }

  /** Block `b` is item `k` of the reply the prompt asks for: its heading
      starts with the entry's number and a period, no body line is a heading,
      and it carries some content. */
  predicate IsItem(b: Block, k: nat) {
    k < |Sections| && StartsWith(Strip(b.heading), Prefix(k)) &&
    (forall j :: 0 <= j < |b.body| ==> !IsHeading(b.body[j])) &&
    Collected(BlockLines(b)) != []
  }

  /** Item `k` is a well-formed block shown under the label of entry `k`. */
  lemma ItemSection(b: Block, k: nat)
    requires IsItem(b, k)
    ensures WellFormedBlock(b) && BlockSection(b) == Section(Sections[k].1, Collected(BlockLines(b)))
  {
    HeadingByNumber(b.heading, k);
  }

  /** The items 1 to 5 in order are well-formed blocks, and their sections
      carry the table's labels in table order. */
  lemma ItemsInOrder(bs: seq<Block>)
    requires |bs| == |Sections| && forall i :: 0 <= i < |bs| ==> IsItem(bs[i], i)
    ensures WellFormedBlocks(bs) && |Expected(bs)| == |Sections|
    ensures forall i :: 0 <= i < |Sections| ==> Expected(bs)[i] == Section(Sections[i].1, Collected(BlockLines(bs[i])))
  {
    forall i | 0 <= i < |bs|
      ensures WellFormedBlock(bs[i]) && Expected(bs)[i] == Section(Sections[i].1, Collected(BlockLines(bs[i])))
    {
      ItemAt(bs, i);
    }
  }

  /** Item `i` of a sequence of blocks is shown as the `i`-th section. */
  lemma ItemAt(bs: seq<Block>, i: nat)
    requires i < |bs| && IsItem(bs[i], i)
    ensures WellFormedBlock(bs[i]) && Expected(bs)[i] == Section(Sections[i].1, Collected(BlockLines(bs[i])))
  {
    ItemSection(bs[i], i);
    MapAt(BlockSection, bs, i);
  }

  /** The reply the prompt asks for, the five numbered items in order, is
      shown as exactly five sections, the table's labels in table order,
      each holding its item's content. */
  lemma FiveSections(analysisText: string, blank: seq<string>, bs: seq<Block>)
    requires |bs| == |Sections| && forall i :: 0 <= i < |bs| ==> IsItem(bs[i], i)
    requires Blank(blank) && ReplyLines(analysisText) == blank + Flatten(bs)
    ensures Sectioned(analysisText).Shown? && |Sectioned(analysisText).items| == |Sections|
    ensures forall i :: 0 <= i < |Sections| ==>
              Sectioned(analysisText).items[i] == Section(Sections[i].1, Collected(BlockLines(bs[i])))
  {
    ItemsInOrder(bs);
    BlocksShown(analysisText, blank, bs);
  }

  /** A heading with nothing after its period, directly followed by another
      heading, shows nothing for its label: the second heading flushes only
      what was buffered before the first. */
  lemma TitleOnlyHeading(st: Scan, h1: string, h2: string)
    requires IsHeading(h1) && Contribution(h1) == [] && IsHeading(h2)
    ensures Step(Step(st, h1), h2).out == Flush(st)
  {
    StepShape(st, h1);
    StepShape(Step(st, h1), h2);
  }

  /** "3." on its own line is such a heading: entry 3 with nothing after the
      period. */
  lemma BareNumberIsTitleOnly()
    ensures IsHeading("3.") && Classify("3.").index == 2 && Contribution("3.") == []
  {
    var s := "3.";
    assert !IsSpace(s[0]) && !IsSpace(s[1]);
    StripStripped(s);
    HeadingByNumber(s, 2);
    assert AfterFirstDot(s) == [];
  }

  /** A content line after "3." attaches to section 3: the two lines flush
      what was buffered and leave the line's stripped text buffered under
      the label of entry 3. */
  lemma BareNumberThenText(st: Scan, line: string)
    requires !AllSpace(line) && !IsHeading(line)
    ensures Step(Step(st, "3."), line) == Scan(Sections[2].1, [Strip(line)], true, Flush(st))
  {
    BareNumberIsTitleOnly();
    StepShape(st, "3.");
    StepShape(Step(st, "3."), line);
  }

  /** Matching looks only at the number and the period, so a content line
      that starts with a decimal number, such as "2.5 kg", is read as a
      heading of entry 2 holding what follows the period. */
  lemma DecimalReadAsHeading()
    ensures Classify("2.5 kg") == Heading(1, "5 kg")
  {
    var s := "2.5 kg";
    assert !IsSpace(s[0]) && !IsSpace(s[5]);
    StripStripped(s);
    HeadingByNumber(s, 1);
    DecimalRemainder();
  }

  /** What "2.5 kg" keeps as its first content line: the text after its
      first period. */
  lemma DecimalRemainder()
    ensures HeadingRemainder("2.5 kg") == "5 kg"
  {
    var s := "2.5 kg";
    assert DotFrom(s, 0) == 1 by {
      assert s[0] != '.' && s[1] == '.';
    }
    assert AfterFirstDot(s) == s[2..];
    assert s[2..] == "5 kg";
    assert !IsSpace('5') && !IsSpace('g');
    StripStripped("5 kg");
  }

  /** A reply holding only a heading with nothing after its period shows
      neither a section nor the raw text: a heading matched, so there is no
      fallback, and nothing was ever buffered. */
  lemma TitleOnlyReply()
    ensures Sectioned("3.") == Shown([])
  {
    var s := "3.";
    assert !Contains(s, EscapedNewline) by {
      assert s[..2][0] != EscapedNewline[0];
      assert !Contains(s[1..], EscapedNewline);
    }
    SplitPiece(s);
    assert ReplyLines(s) == [s];
    assert [s][..0] == [];
    BareNumberIsTitleOnly();
    StepShape(Init, s);
    assert Run(Init, [s]) == Scan(Sections[2].1, [], true, []);
  }
}
