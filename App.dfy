/**
 * The reference pipeline of the study aid: `parseProblemInput` turns typed
 * references such as "755/1,5,11" into (page, problem) records, and
 * `findProblem` looks a record's page up in the table of contents and builds
 * the label shown for it.
 */
module App {
  import opened Wrappers
  import opened JsString
  import opened JsParseInt
  import opened Sequences

  /** A typed reference to one problem: its label and the page text, both verbatim. */
  datatype Problem = Problem(problem: string, page: string)

  /** One entry of the table of contents: the page where a section starts. */
  datatype TocEntry = TocEntry(page: int, chapter: string, section: string)

  /** What `findProblem` returns: the table entry and the display label. */
  datatype FoundProblem = FoundProblem(chapter: TocEntry, problem: string)

  // ---------------------------------------------------------------------------
  // parseProblemInput

  /** One record per label, in label order, each carrying `page`. */
  function LabelRecords(page: string, labels: seq<string>): seq<Problem>
  {
    seq(|labels|, k requires 0 <= k < |labels| => Problem(labels[k], page))
  }

  /** The records that one input line contributes. */
  function LineProblems(line: string): seq<Problem>
  {
    var parts := Split(line, '/');
    if |parts| != 2 then []
    else
      var labels := Split(parts[1], ',');
      if |labels| == 0 then [] else LabelRecords(parts[0], labels)
  }

  /** The records of a sequence of lines, line after line. */
  function LinesProblems(lines: seq<string>): seq<Problem>
  {
    FlatMap(lines, LineProblems)
  }

  /** The records of a whole input text. */
  function ParseProblems(input: string): seq<Problem>
  {
    LinesProblems(Split(input, '\n'))
  }

  /** `parseProblemInput`: nested loops that push one record per label of each well-formed line. */
  method ParseProblemInput(input: string) returns (problems: seq<Problem>)
    ensures problems == ParseProblems(input)
  {
    problems := [];
    var lines := Split(input, '\n');
    var i := 0;
    while i < |lines|
      invariant 0 <= i <= |lines|
      invariant problems == LinesProblems(lines[..i])
    {
      var line := lines[i];
      ghost var done := problems;
      var parts := Split(line, '/');
      if |parts| == 2 {
        var page, problemList := parts[0], parts[1];
        var labels := Split(problemList, ',');
        if |labels| != 0 {
          var j := 0;
          while j < |labels|
            invariant 0 <= j <= |labels|
            invariant problems == done + LabelRecords(page, labels[..j])
          {
            assert LabelRecords(page, labels[..j + 1]) == LabelRecords(page, labels[..j]) + [Problem(labels[j], page)];
            problems := problems + [Problem(labels[j], page)];
            j := j + 1;
          }
          assert labels[..|labels|] == labels;
        }
      }
      assert problems == done + LineProblems(line);
      FlatMapSnoc(lines, i, LineProblems);
      i := i + 1;
    }
    assert lines[..|lines|] == lines;
  }

  /** The labels of a sequence of records. */
  function Labels(records: seq<Problem>): seq<string>
  {
    seq(|records|, k requires 0 <= k < |records| => records[k].problem)
  }

  /**
   * A line with exactly one slash, `page + "/" + list`, yields one record per
   * comma-separated label of `list`: as many as its commas plus one, each with
   * `page` verbatim, and the labels joined with commas give `list` back.
   */
  lemma OneSlashLine(page: string, list: string)
    requires '/' !in page && '/' !in list
    ensures var r := LineProblems(page + "/" + list);
      && |r| == Count(list, ',') + 1
      && (forall k :: 0 <= k < |r| ==> r[k].page == page)
      && Join(Labels(r), ',') == list
  {
    var line := page + "/" + list;
    var labels := Split(list, ',');
    assert LineProblems(line) == LabelRecords(page, labels) by {
      SplitOnce(page, list, '/');
      assert Split(line, '/') == [page, list];
    }
    assert Labels(LabelRecords(page, labels)) == labels;
    assert |labels| == Count(list, ',') + 1 by {
      SplitCount(list, ',');
    }
    assert Join(labels, ',') == list by {
      JoinSplit(list, ',');
    }
  }

  /** A line contributes no record exactly when it does not hold exactly one slash. */
  lemma LineWithoutOneSlash(line: string)
    ensures LineProblems(line) == [] <==> Count(line, '/') != 1
  {
    SplitCount(line, '/');
    var parts := Split(line, '/');
    if |parts| == 2 {
      assert |LabelRecords(parts[0], Split(parts[1], ','))| >= 1;
    }
  }

  /** Joining two inputs with a newline concatenates their records. */
  lemma ParseProblemsAppend(x: string, y: string)
    ensures ParseProblems(x + "\n" + y) == ParseProblems(x) + ParseProblems(y)
  {
    SplitAtSeparator(x, y, '\n');
    FlatMapAppend(Split(x, '\n'), Split(y, '\n'), LineProblems);
  }

  /** The text after the first slash of a line. */
  function AfterSlash(line: string): string
  {
    if line == [] then [] else if line[0] == '/' then line[1..] else AfterSlash(line[1..])
  }

  /** How many records a line yields: its commas after the slash plus one, if it has exactly one slash. */
  function RecordsOnLine(line: string): nat
  {
    if Count(line, '/') == 1 then Count(AfterSlash(line), ',') + 1 else 0
  }

  /** Sum of RecordsOnLine over the lines. */
  function TotalRecords(lines: seq<string>): nat
  {
    if lines == [] then 0 else TotalRecords(lines[..|lines| - 1]) + RecordsOnLine(lines[|lines| - 1])
  }

  lemma {:induction false} AfterSlashOf(page: string, list: string)
    requires '/' !in page
    ensures AfterSlash(page + "/" + list) == list
    decreases |page|
  {
    if page == [] {
      assert page + "/" + list == "/" + list;
    } else {
      assert (page + "/" + list)[1..] == page[1..] + "/" + list;
      AfterSlashOf(page[1..], list);
    }
  }

  /** Each line yields exactly RecordsOnLine of it. */
  lemma LineRecordCount(line: string)
    ensures |LineProblems(line)| == RecordsOnLine(line)
  {
    SplitCount(line, '/');
    if Count(line, '/') == 1 {
      var parts := Split(line, '/');
      TwoPieces(line, '/');
      assert line == parts[0] + "/" + parts[1];
      OneSlashLine(parts[0], parts[1]);
      AfterSlashOf(parts[0], parts[1]);
    }
  }

  /** The number of records is the sum of the per-line counts. */
  lemma {:induction false} LinesRecordCount(lines: seq<string>)
    ensures |LinesProblems(lines)| == TotalRecords(lines)
    decreases |lines|
  {
    if lines != [] {
      LinesRecordCount(lines[..|lines| - 1]);
      LineRecordCount(lines[|lines| - 1]);
    }
  }

  /** The guard against an empty label list never fires: "755/" yields one record with an empty label. */
  lemma EmptyLabelList()
    ensures LineProblems("755/") == [Problem("", "755")]
  {
    assert "755/" == "755" + "/" + "";
    SplitOnce("755", "", '/');
    SplitWithoutSeparator("", ',');
  }

  /** "755/1,5,11" yields three records for page "755", labels in the order typed. */
  lemma ThreeLabels(input: string)
    requires input == "755/1,5,11"
    ensures ParseProblems(input) == [Problem("1", "755"), Problem("5", "755"), Problem("11", "755")]
  {
    var labels := ["1", "5", "11"];
    var list := Join(labels, ',');
    assert list == "1,5,11";
    assert ParseProblems(input) == LineProblems(input) by {
      SplitWithoutSeparator(input, '\n');
      assert [input][..0] == [];
      assert FlatMap([input], LineProblems) == FlatMap([], LineProblems) + LineProblems(input);
    }
    assert LineProblems(input) == LabelRecords("755", labels) by {
      assert input == "755" + "/" + list;
      SplitOnce("755", list, '/');
      SplitJoin(labels, ',');
    }
    assert LabelRecords("755", labels) == [Problem("1", "755"), Problem("5", "755"), Problem("11", "755")];
  }

  // ---------------------------------------------------------------------------
  // findProblem

  /** `TOC.find((i) => i.page >= page)` as an index: the first entry whose page is at least `page`. */
  function FirstAtLeast(toc: seq<TocEntry>, page: int): (r: Option<nat>)
    ensures r.None? <==> forall k :: 0 <= k < |toc| ==> toc[k].page < page
    ensures r.Some? ==> r.value < |toc| && toc[r.value].page >= page
    ensures r.Some? ==> forall k :: 0 <= k < r.value ==> toc[k].page < page
  {
    if toc == [] then None
    else if toc[0].page >= page then Some(0)
    else match FirstAtLeast(toc[1..], page)
      case None => None
      case Some(i) => Some(i + 1)
  }

  /** The label shown for a problem: review exercises are named as such. */
  function DisplayLabel(section: string, problem: string): (r: string)
    ensures |r| > |problem| && r[|r| - |problem|..] == problem
    ensures r == "Review Exercise " + problem <==> section == "R"
    ensures r == "Problem " + problem <==> section != "R"
  {
    if section == "R" then "Review Exercise " + problem else "Problem " + problem
  }

  /**
   * `findProblem`: null exactly when the page text does not parse or no entry
   * has a page at least the typed one; otherwise the first such entry in table
   * order, with the problem labelled by that entry's section.
   */
  function FindProblem(toc: seq<TocEntry>, problem: Problem): (r: Option<FoundProblem>)
    ensures ParseInt(problem.page).None? ==> r.None?
    ensures ParseInt(problem.page).Some? ==>
      (r.None? <==> forall k :: 0 <= k < |toc| ==> toc[k].page < ParseInt(problem.page).value)
    ensures r.Some? ==>
      exists i :: 0 <= i < |toc|
        && r.value == FoundProblem(toc[i], DisplayLabel(toc[i].section, problem.problem))
        && toc[i].page >= ParseInt(problem.page).value
        && forall k :: 0 <= k < i ==> toc[k].page < ParseInt(problem.page).value
  {
    match ParseInt(problem.page)
    case None => None
    case Some(page) =>
      match FirstAtLeast(toc, page)
      case None => None
      case Some(i) =>
        Some(FoundProblem(toc[i], DisplayLabel(toc[i].section, problem.problem)))
  }

  /** A larger page never selects an earlier entry, and a smaller one is found whenever a larger one is. */
  lemma FirstAtLeastMonotone(toc: seq<TocEntry>, p1: int, p2: int)
    requires p1 <= p2
    requires FirstAtLeast(toc, p2).Some?
    ensures FirstAtLeast(toc, p1).Some?
    ensures FirstAtLeast(toc, p1).value <= FirstAtLeast(toc, p2).value
  {
    var i2 := FirstAtLeast(toc, p2).value;
    assert toc[i2].page >= p1;
  }

  /** Table sorted by strictly increasing page, as the table of contents is. */
  predicate Ascending(toc: seq<TocEntry>)
  {
    forall j, k :: 0 <= j < k < |toc| ==> toc[j].page < toc[k].page
  }

  /** On an ascending table the lookup is a ceiling: the entry with the smallest page at least the query. */
  lemma CeilingOnAscending(toc: seq<TocEntry>, page: int)
    requires Ascending(toc)
    requires FirstAtLeast(toc, page).Some?
    ensures forall k :: 0 <= k < |toc| && toc[k].page >= page ==>
      toc[FirstAtLeast(toc, page).value].page <= toc[k].page
  {
  }

  // ---------------------------------------------------------------------------
  // The lookup a section start table calls for: the last entry at or before the page

  /** The last entry whose page is at most `page`. */
  function LastAtMost(toc: seq<TocEntry>, page: int): (r: Option<nat>)
    ensures r.None? <==> forall k :: 0 <= k < |toc| ==> toc[k].page > page
    ensures r.Some? ==> r.value < |toc| && toc[r.value].page <= page
    ensures r.Some? ==> forall k :: r.value < k < |toc| ==> toc[k].page > page
  {
    if toc == [] then None
    else if toc[|toc| - 1].page <= page then Some(|toc| - 1)
    else LastAtMost(toc[..|toc| - 1], page)
  }

  /**
   * findProblem with the floor lookup: null when the page text does not parse
   * or every entry starts after the page; otherwise the last entry starting at
   * or before the page, with the problem labelled by that entry's section.
   */
  function FindProblemFloor(toc: seq<TocEntry>, problem: Problem): (r: Option<FoundProblem>)
    ensures ParseInt(problem.page).None? ==> r.None?
    ensures ParseInt(problem.page).Some? ==>
      (r.None? <==> forall k :: 0 <= k < |toc| ==> toc[k].page > ParseInt(problem.page).value)
    ensures r.Some? ==>
      exists i :: 0 <= i < |toc|
        && r.value == FoundProblem(toc[i], DisplayLabel(toc[i].section, problem.problem))
        && toc[i].page <= ParseInt(problem.page).value
        && forall k :: i < k < |toc| ==> toc[k].page > ParseInt(problem.page).value
  {
    match ParseInt(problem.page)
    case None => None
    case Some(page) =>
      match LastAtMost(toc, page)
      case None => None
      case Some(i) =>
        Some(FoundProblem(toc[i], DisplayLabel(toc[i].section, problem.problem)))
  }

  /**
   * On an ascending table every page from an entry's start up to the next
   * entry's start (or beyond, for the last entry) resolves to that entry, and
   * a page before the first entry resolves to nothing.
   */
  lemma FloorLookupGovernsSection(toc: seq<TocEntry>, i: nat, page: int)
    requires Ascending(toc)
    requires i < |toc| && toc[i].page <= page
    requires i + 1 < |toc| ==> page < toc[i + 1].page
    ensures LastAtMost(toc, page) == Some(i)
    ensures forall q :: q < toc[0].page ==> LastAtMost(toc, q).None?
  {
    var j := LastAtMost(toc, page).value;
    assert i <= j;
    assert j <= i by {
      if i + 1 < |toc| {
        assert toc[i + 1].page > page;
      }
    }
  }

  /**
   * The lookup as written picks the NEXT section for a page inside a section:
   * with sections 11.1 at page 750 and 11.2 at page 755, a problem on page 752
   * is placed in 11.2, while it lies in 11.1.
   */
  lemma CeilingPicksNextSection(toc: seq<TocEntry>, problem: Problem)
    requires toc == [TocEntry(750, "11", "1"), TocEntry(755, "11", "2")]
    requires problem == Problem("5", "752")
    ensures FindProblem(toc, problem) == Some(FoundProblem(toc[1], "Problem 5"))
    ensures FindProblemFloor(toc, problem) == Some(FoundProblem(toc[0], "Problem 5"))
  {
    assert ParseInt(problem.page) == Some(752) by {
      ParseIntDecimalRoundTrip(752);
      assert DecimalString(752) == "752";
    }
    assert FirstAtLeast(toc, 752) == Some(1) by {
      assert toc[0].page < 752 <= toc[1].page;
    }
    assert LastAtMost(toc, 752) == Some(0) by {
      assert toc[0].page <= 752 < toc[1].page;
    }
    assert DisplayLabel("2", "5") == "Problem 5";
    assert DisplayLabel("1", "5") == "Problem 5";
  }
}
