/**
 * The offline converter that turns the plain-text table of contents into the
 * lookup table: one pass over the lines, remembering the current chapter.
 * Reading the text file and writing the JSON file are left out; the model maps
 * the file's text to the records it would write.
 */
module TocParser {
  import opened Wrappers
  import opened JsString
  import opened JsParseInt

  /** One record of the table; `page` is `None` where parseInt gives `NaN`. */
  datatype TocSection = TocSection(page: Option<int>, section: string, chapter: string)

  /** The running state of the pass: the current chapter and the records so far. */
  datatype TocState = TocState(chapter: string, sections: seq<TocSection>)

  /** `line.split(" ")[0]`. */
  function FirstToken(line: string): string
  {
    Split(line, ' ')[0]
  }

  /** parseInt of the last space-separated token of the line. */
  function PageOf(line: string): Option<int>
  {
    ParseInt(LastPiece(line, ' '))
  }

  predicate IsReviewLine(line: string)
  {
    StartsWith(line, "Review Exercises")
  }

  predicate IsProblemSolvingLine(line: string)
  {
    StartsWith(line, "P.S.")
  }

  /** A line whose first token has exactly one dot, as "11.2", that the earlier rules did not take. */
  predicate IsSectionLine(line: string)
  {
    !IsReviewLine(line) && !IsProblemSolvingLine(line) && Count(FirstToken(line), '.') == 1
  }

  /** A line that yields a record under one of the three rules. */
  predicate Yields(line: string)
  {
    IsReviewLine(line) || IsProblemSolvingLine(line) || IsSectionLine(line)
  }

  /** One iteration of the loop: the new current chapter and the records appended. */
  function Step(chapter: string, line: string): TocState
  {
    if StartsWith(line, "Review Exercises") then
      TocState(chapter, [TocSection(PageOf(line), "R", chapter)])
    else if StartsWith(line, "P.S.") then
      TocState(chapter, [TocSection(PageOf(line), "PS", chapter)])
    else
      var dotted := Split(Split(line, ' ')[0], '.');
      if |dotted| == 2 then
        TocState(dotted[0], [TocSection(PageOf(line), dotted[1], dotted[0])])
      else
        TocState(chapter, [])
  }

  /** The state after processing `lines` from `start`, one line after another. */
  function Run(lines: seq<string>, start: TocState): TocState
  {
    if lines == [] then start
    else
      var before := Run(lines[..|lines| - 1], start);
      var step := Step(before.chapter, lines[|lines| - 1]);
      TocState(step.chapter, before.sections + step.sections)
  }

  /** The records written for the whole text; the chapter starts out empty. */
  function TocOfText(text: string): seq<TocSection>
  {
    Run(Split(text, '\n'), TocState("", [])).sections
  }

  /** The converter's loop over the lines of the file. */
  method ParseToc(file: string) returns (sections: seq<TocSection>)
    ensures sections == TocOfText(file)
  {
    sections := [];
    var chapter := "";
    var lines := Split(file, '\n');
    var i := 0;
    assert lines[..0] == [];
    while i < |lines|
      invariant 0 <= i <= |lines|
      invariant TocState(chapter, sections) == Run(lines[..i], TocState("", []))
    {
      var line := lines[i];
      var tokens := Split(line, ' ');
      ghost var step := Step(chapter, line);
      ghost var before := sections;
      var page := ParseInt(tokens[|tokens| - 1]);
      assert page == PageOf(line);
      if StartsWith(line, "Review Exercises") {
        assert step == TocState(chapter, [TocSection(page, "R", chapter)]);
        sections := sections + [TocSection(page, "R", chapter)];
      } else if StartsWith(line, "P.S.") {
        assert step == TocState(chapter, [TocSection(page, "PS", chapter)]);
        sections := sections + [TocSection(page, "PS", chapter)];
      } else if |Split(tokens[0], '.')| == 2 {
        var dotted := Split(tokens[0], '.');
        assert step == TocState(dotted[0], [TocSection(page, dotted[1], dotted[0])]);
        chapter := dotted[0];
        sections := sections + [TocSection(page, dotted[1], chapter)];
      } else {
        assert step == TocState(chapter, []);
      }
      assert TocState(chapter, sections) == TocState(step.chapter, before + step.sections);
      RunSnoc(lines, i, TocState("", []));
      i := i + 1;
    }
    assert lines[..|lines|] == lines;
  }

  /** Running one more line is one more step from the state reached so far. */
  lemma RunSnoc(lines: seq<string>, i: nat, start: TocState)
    requires i < |lines|
    ensures var before := Run(lines[..i], start);
            var step := Step(before.chapter, lines[i]);
            Run(lines[..i + 1], start) == TocState(step.chapter, before.sections + step.sections)
  {
    assert lines[..i + 1][..i] == lines[..i];
  }

  /**
   * The three rules, tried in order: a review line appends an "R" record and a
   * problem-solving line a "PS" record, both with the current chapter; a
   * section line "C.S ..." makes C the chapter and appends a record for section
   * S of it; any other line appends nothing. The chapter changes only on a
   * section line, and every record's page is parseInt of the line's last token.
   */
  lemma StepRules(chapter: string, line: string)
    ensures IsReviewLine(line) ==>
      Step(chapter, line) == TocState(chapter, [TocSection(PageOf(line), "R", chapter)])
    ensures !IsReviewLine(line) && IsProblemSolvingLine(line) ==>
      Step(chapter, line) == TocState(chapter, [TocSection(PageOf(line), "PS", chapter)])
    ensures IsSectionLine(line) ==>
      var next := Step(chapter, line);
      && |next.sections| == 1
      && next.sections[0].chapter == next.chapter
      && next.sections[0].page == PageOf(line)
      && FirstToken(line) == next.chapter + "." + next.sections[0].section
      && '.' !in next.chapter && '.' !in next.sections[0].section
    ensures !Yields(line) ==> Step(chapter, line) == TocState(chapter, [])
    ensures |Step(chapter, line).sections| == (if Yields(line) then 1 else 0)
    ensures !IsSectionLine(line) ==> Step(chapter, line).chapter == chapter
    ensures Step(chapter, line).sections != [] ==>
      Step(chapter, line).sections[0].chapter == Step(chapter, line).chapter
  {
    var head := FirstToken(line);
    SplitCount(head, '.');
    if |Split(head, '.')| == 2 {
      TwoPieces(head, '.');
    }
  }

  /** Records come in line order: processing two blocks of lines is processing one, then the other. */
  lemma {:induction false} RunAppend(a: seq<string>, b: seq<string>, start: TocState)
    ensures Run(a + b, start) == TocState(Run(b, TocState(Run(a, start).chapter, [])).chapter,
                                          Run(a, start).sections + Run(b, TocState(Run(a, start).chapter, [])).sections)
    decreases |b|
  {
    if b == [] {
      assert a + b == a;
    } else {
      var init, last := b[..|b| - 1], b[|b| - 1];
      var mid := TocState(Run(a, start).chapter, []);
      var front := Run(a + init, start);
      var tail := Run(init, mid);
      assert Run(a + b, start) ==
        TocState(Step(front.chapter, last).chapter, front.sections + Step(front.chapter, last).sections) by {
        assert (a + b)[..|a + b| - 1] == a + init;
        assert (a + b)[|a + b| - 1] == last;
      }
      assert front == TocState(tail.chapter, Run(a, start).sections + tail.sections) by {
        RunAppend(a, init, start);
      }
      assert Run(b, mid) == TocState(Step(tail.chapter, last).chapter, tail.sections + Step(tail.chapter, last).sections);
    }
  }

  /** Number of lines that yield a record. */
  function CountYielding(lines: seq<string>): nat
  {
    if lines == [] then 0
    else CountYielding(lines[..|lines| - 1]) + (if Yields(lines[|lines| - 1]) then 1 else 0)
  }

  /** The pages of the lines that yield a record, in line order. */
  function YieldingPages(lines: seq<string>): seq<Option<int>>
  {
    if lines == [] then []
    else YieldingPages(lines[..|lines| - 1]) + (if Yields(lines[|lines| - 1]) then [PageOf(lines[|lines| - 1])] else [])
  }

  function Pages(sections: seq<TocSection>): seq<Option<int>>
  {
    if sections == [] then []
    else Pages(sections[..|sections| - 1]) + [sections[|sections| - 1].page]
  }

  lemma {:induction false} PagesAppend(a: seq<TocSection>, b: seq<TocSection>)
    ensures Pages(a + b) == Pages(a) + Pages(b)
    decreases |b|
  {
    if b == [] {
      assert a + b == a;
    } else {
      PagesAppend(a, b[..|b| - 1]);
      assert (a + b)[..|a + b| - 1] == a + b[..|b| - 1];
    }
  }

  /**
   * One record per yielding line, in line order, each with its line's page:
   * the pages appended are exactly the pages of the yielding lines.
   */
  lemma {:induction false} RunPages(lines: seq<string>, start: TocState)
    ensures Pages(Run(lines, start).sections) == Pages(start.sections) + YieldingPages(lines)
    ensures |Run(lines, start).sections| == |start.sections| + CountYielding(lines)
    decreases |lines|
  {
    if lines != [] {
      var init := lines[..|lines| - 1];
      var line := lines[|lines| - 1];
      RunPages(init, start);
      var before := Run(init, start);
      StepRules(before.chapter, line);
      var step := Step(before.chapter, line);
      PagesAppend(before.sections, step.sections);
      if Yields(line) {
        assert Pages(step.sections) == [PageOf(line)];
      }
    }
  }

  /** The records of a text count the lines of it that yield one. */
  lemma TocOfTextCount(text: string)
    ensures |TocOfText(text)| == CountYielding(Split(text, '\n'))
    ensures Pages(TocOfText(text)) == YieldingPages(Split(text, '\n'))
  {
    RunPages(Split(text, '\n'), TocState("", []));
  }

  /**
   * Before the first section line the chapter is the starting one: every
   * record appended by lines with no section line among them carries it, and
   * it is still the chapter afterwards. From the empty start that chapter is "".
   */
  lemma {:induction false} NoSectionLineKeepsChapter(lines: seq<string>, start: TocState)
    requires forall k :: 0 <= k < |lines| ==> !IsSectionLine(lines[k])
    ensures Run(lines, start).chapter == start.chapter
    ensures |Run(lines, start).sections| >= |start.sections|
    ensures Run(lines, start).sections[..|start.sections|] == start.sections
    ensures forall k :: |start.sections| <= k < |Run(lines, start).sections| ==>
      Run(lines, start).sections[k].chapter == start.chapter
    decreases |lines|
  {
    if lines != [] {
      var init := lines[..|lines| - 1];
      NoSectionLineKeepsChapter(init, start);
      StepRules(Run(init, start).chapter, lines[|lines| - 1]);
    }
  }

  /** Records from lines before the first section line carry chapter "". */
  lemma ChapterEmptyBeforeFirstSection(text: string, n: nat)
    requires n <= |Split(text, '\n')|
    requires forall k :: 0 <= k < n ==> !IsSectionLine(Split(text, '\n')[k])
    ensures forall r :: r in Run(Split(text, '\n')[..n], TocState("", [])).sections ==> r.chapter == ""
  {
    var lines := Split(text, '\n')[..n];
    NoSectionLineKeepsChapter(lines, TocState("", []));
    var sections := Run(lines, TocState("", [])).sections;
    forall r | r in sections ensures r.chapter == "" {
      var k :| 0 <= k < |sections| && sections[k] == r;
    }
  }
}
