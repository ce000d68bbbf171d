# Problem-reference resolution, modelled in Dafny

This project models the core of a small study aid for a calculus textbook. A
student types assignment references such as `755/1,5,11` (a page, a slash, then
comma-separated problem labels). The app turns each reference into one
`{problem, page}` record (`parseProblemInput`). It then looks the page up in the
book's table of contents (`findProblem`), which gives a table entry and a display
label such as `Problem 5` or `Review Exercise 5`. The table itself comes from an
offline converter (`parseTOC.ts`). The converter reads the book's plain-text table
of contents line by line and keeps the current chapter as it goes. It writes one
`{page, section, chapter}` record for each section line, each "Review Exercises"
line and each "P.S." line.

Modules:

- `Wrappers`: `Option`. `None` stands for JavaScript's `undefined`, `null` and `NaN`.
- `Sequences`: `FlatMap`, which concatenates the pieces of the elements of a
  sequence in order, and the lemma that it distributes over concatenation.
- `JsString`: the JavaScript built-ins used on strings, for a one-character
  separator: `split` (`Split`, never empty, as in JavaScript), its inverse `join`
  (`Join`), and `startsWith`. The lemmas relate them: split then join gives the
  text back, and join then split gives the pieces back.
- `JsParseInt`: the global `parseInt` with no radix argument, as
  `Option<int>`. It skips leading white space and reads an optional sign. A
  `0x`/`0X` prefix switches it to radix 16. It then reads the longest run of
  digits. `NaN` is `None`.
- `App` (`src/App.tsx`): `ParseProblemInput` is a method. Its nested loops append
  one record per label, as the source pushes into its array. It is proved equal
  to the specification function `ParseProblems`, and the lemmas state what the
  source promises about `ParseProblems`. `FindProblem` is pure: the first table
  entry, in table order, whose page is at least the parsed page.
- `TocParser` (`src/lib/parseTOC.ts`): `ParseToc` is a method. Its loop keeps
  the current chapter and the list of records in local variables, like the
  source. It is proved equal to `TocOfText`, which folds `Step` (one iteration of
  the loop) over the lines.

The table of contents is a parameter of `FindProblem` (a `seq<TocEntry>`). The
model does not use the bundled JSON file.

Each table entry records the page on which a section starts
(src/lib/parseTOC.ts:7,20), so a page belongs to the last section starting at
or before it (a floor lookup). The code at `src/App.tsx:53` does a ceiling
lookup instead: it takes the first entry whose page is at least the query. The
model follows the code. The difference is recorded under "## Findings".

## Model

| member | source | states |
|---|---|---|
| `App.ParseProblemInput` | src/App.tsx:31-50 | The records pushed by the nested loops are exactly `ParseProblems(input)`: line after line, label after label. |
| `App.LineWithoutOneSlash` | src/App.tsx:39 | A line contributes no record exactly when it does not have exactly one `/`. This covers a line with no slash and a line with two or more. |
| `App.OneSlashLine` | src/App.tsx:39-47 | A line `page + "/" + list` yields as many records as `list` has commas, plus one. Every record carries `page` verbatim. The labels joined with `,` give `list` back, so labels are neither trimmed nor altered. |
| `JsString.Split` | src/App.tsx:41 | `split` always returns at least one piece. So the empty-list guard never fires. |
| `App.EmptyLabelList` | src/App.tsx:41-47 | `"755/"` yields one record: page `"755"` with an empty label. |
| `App.ParseProblemsAppend` | src/App.tsx:38-48 | Output order is line order: joining two inputs with a newline concatenates their record lists. |
| `App.LineRecordCount` | src/App.tsx:39-47 | A line yields `RecordsOnLine` records. That is the number of commas after its slash plus one if it has exactly one slash, and 0 otherwise. |
| `App.LinesRecordCount` | src/App.tsx:38-48 | The total number of records is the sum of the per-line counts. |
| `App.ThreeLabels` | src/App.tsx:31-48 | `"755/1,5,11"` yields three records for page `"755"` with labels `"1"`, `"5"`, `"11"`, in that order. |
| `JsParseInt.ParseInt` | src/App.tsx:53 | `parseInt` of the page text: white space alone gives `NaN`, and a negative result needs a leading minus sign after the white space. The lemmas below characterise the digits it reads. |
| `JsParseInt.ParseIntStopsAtX` | src/App.tsx:53 | `"755x"` gives 755: an `x` ends the number unless it follows a lone leading `0`. |
| `JsParseInt.ParseIntIgnoresTrailingText` | src/App.tsx:53 | `parseInt` reads the leading digits and ignores what follows, so `"755abc"` gives 755. |
| `JsParseInt.ParseIntWithoutDigits` | src/App.tsx:53-54 | Page text with no digit after the optional sign gives `NaN`, which makes the lookup return null. |
| `JsParseInt.ParseIntSkipsWhiteSpace` | src/App.tsx:53 | Leading white space does not change what `parseInt` reads. |
| `JsParseInt.ParseIntDecimalRoundTrip` | src/App.tsx:53 | `parseInt` of the decimal text of any integer gives that integer back. |
| `App.FirstAtLeast` | src/App.tsx:53 | `find` gives the index of the first entry whose page is at least the query. It gives `None` exactly when every page is smaller. |
| `App.FindProblem` | src/App.tsx:52-61 | Null exactly when the page text does not parse or no entry has `page >=` it. Otherwise the result is the first such entry in table order, with the problem label built from that entry's section. The table is a value and is never changed. |
| `App.DisplayLabel` | src/App.tsx:57-60 | The label is `"Review Exercise " + problem` exactly when the section is `"R"`. Otherwise it is `"Problem " + problem`. Either way the typed label is kept verbatim at the end. |
| `App.FirstAtLeastMonotone` | src/App.tsx:53 | A larger query never picks an earlier entry. If a larger query finds an entry, every smaller query finds one too. |
| `App.CeilingOnAscending` | src/App.tsx:53 | On an ascending table the lookup is a ceiling: the entry with the smallest page among those at least the query. |
| `App.CeilingPicksNextSection` | src/App.tsx:53 | With sections 11.1 at page 750 and 11.2 at page 755, page 752 is placed in 11.2. The floor lookup places it in 11.1. |
| `App.LastAtMost` | src/App.tsx:53 | The corrected lookup gives the index of the last entry whose page is at most the query. It gives `None` exactly when every page is larger. |
| `App.FindProblemFloor` | src/App.tsx:52-61 | `findProblem` with the corrected lookup: null when the page text does not parse or every entry starts after the page. Otherwise the result is the last entry starting at or before the page, with the same label. |
| `App.FloorLookupGovernsSection` | src/App.tsx:53 | On an ascending table, every page from an entry's start up to the next entry's start, or beyond for the last entry, resolves to that entry. A page before the first entry resolves to nothing. |
| `TocParser.ParseToc` | src/lib/parseTOC.ts:2-25 | The records appended by the loop, with the chapter it keeps, are exactly `TocOfText(file)`. |
| `TocParser.StepRules` | src/lib/parseTOC.ts:5-23 | The rules are tried in the order R, PS, section. A "Review Exercises" line appends an `"R"` record and a "P.S." line a `"PS"` record, both with the current chapter and neither changing it. A line whose first token `C.S` has exactly one dot sets the chapter to `C` and appends section `S` of `C`. Any other line appends nothing. So one iteration appends at most one record, that record carries the chapter in force after the line, and only a section line changes the chapter. The page is `parseInt` of the line's last space-separated token. |
| `TocParser.RunAppend` | src/lib/parseTOC.ts:4-25 | Records come in line order. Running two blocks of lines gives the first block's records, then the second block's records, where the second block starts from the chapter the first one left. |
| `TocParser.RunPages` | src/lib/parseTOC.ts:4-25 | The pages appended are exactly the pages of the lines that match a rule, in line order. Their number is the number of such lines. |
| `TocParser.TocOfTextCount` | src/lib/parseTOC.ts:4-25 | For a whole file, the number of records equals the number of lines matching one of the three rules. The pages are those lines' pages, in order. |
| `TocParser.NoSectionLineKeepsChapter` | src/lib/parseTOC.ts:3-25 | Lines without a section line among them keep the chapter unchanged. They append records that all carry that chapter and leave earlier records alone. |
| `TocParser.ChapterEmptyBeforeFirstSection` | src/lib/parseTOC.ts:3 | Records produced before the first section line carry chapter `""`. |

## Left out

- The React components `ProblemInput` and `App`, with rendering, local-storage persistence, `useMemo` and the fixed image URL. They are UI, and no URL is derived from a record in this code.
- The imports of the chapter XML file (unused) and of the JSON table. The table is a parameter of `FindProblem`.
- How JSON stores the converter's output: a `NaN` page becomes `null`. `TocEntry.page` is an `int`, so a table holding such an entry is not modelled.
- Reading the text file and writing the JSON file in the converter. Only the text-to-records mapping is modelled.
- The list keys built with `JSON.stringify`, which are a UI concern.
- The telemetry setup and DOM mounting in `src/main.tsx`, and the build configuration.
- JavaScript strings are sequences of UTF-16 code units. Here a `string` is a sequence of Unicode scalar values, which differs only for characters outside the Basic Multilingual Plane.
- JsParseInt.ParseInt: does not model rounding to the nearest double for values of 2^53 and above, or the distinction between `-0` and `0`, because the model uses unbounded integers.

## Findings

| source | as written | input that shows it | evidently intended | confidence | as-written member | corrected member |
|---|---|---|---|---|---|---|
| src/App.tsx:53 | `find(i => i.page >= page)` picks the first section starting at or after the page, which is the next section for any page inside a section. | table `[(750, "11", "1"), (755, "11", "2")]`, reference `752/5`: gives section 11.2 | the last section starting at or before the page (a floor lookup), which gives 11.1 | medium, not executed | `App.CeilingPicksNextSection` (about `App.FindProblem`) | `App.FindProblemFloor`, `App.FloorLookupGovernsSection` |
