# Name practice worksheet: layout engine in Dafny

This project models the core of a Chinese-character handwriting worksheet
generator. A user types a name. The app turns the name into its distinct
characters and loads stroke outlines and pronunciation metadata for each one.
It then lays out, per character, rows of practice cells: a stroke-order step
cell for each stroke, and filler cells that show the whole character for
tracing. Finally it decides whether the whole name fits on one printed page or
needs one page per character.

The modules follow the source files:

- `Types` (`types.dfy`): the records of `src/lib/types.ts` (settings,
  character details, stroke data) and the per-character cache entry
  `CharacterData` declared in `src/components/WorksheetPreview.tsx`. It also
  holds `EffectiveRows`, the `Math.max(1, tracingRows)` clamp, and the ranges
  of the settings sliders.
- `UniqueChars` (`unique_chars.dfy`): the name with white space removed and
  duplicates dropped, in order of first appearance.
- `PracticeSheet` (`practice_sheet.dfy`): the row packer and the repetition of
  `renderPracticeSheet`. A cell is `TraceStep(i) | Filler`. `PassRows(s, g)`
  is a reference definition of one tracing pass: the steps, padded to whole
  rows, cut into rows of `g`. The source's loops are methods proved equal to
  it. The lemmas state row width, row count, the filler rule, step order and
  the repetition. `DrawCell` links each cell to what the grid component draws.
- `PageLayout` (`page_layout.dfy`): `calculatePageLayout` and its gating by
  `allCharsLoaded`/`pageLayout`. The method follows the source's branches. The
  reference rule is a lookup table from (character count, has a complex
  character) to the largest row count that fits.
- `CharacterCache` (`character_cache.dfy`): which characters the fetch effect
  requests, and how the answers are merged into a copy of the map.
- `Actions` (`actions.dfy`): `getCharacterDetailsFromCnchar`, with the
  library answers and the fallback dictionary as inputs.
  `getCharacterStrokeSVGs` maps the fetch outcome to stroke data.
  `getCharacterData` combines the two.
- `TracingCharacterGrid` (`tracing_grid.dfy`): the grid-pattern lookup and what
  a cell draws in tracing, example and step mode.

I/O and foreign code are inputs:

- The outcome of the stroke-data request is a `FetchOutcome` value.
- The results of the pinyin/radical library calls are `SpellResult` and
  `RadicalResult` values. Each has a variant for "threw".
- An exception that reaches the outer handler of
  `getCharacterDetailsFromCnchar` is the boolean `unhandledFailure`.
- The fallback dictionary is any `map` from character to partial entry.

Notes on the model:

- The source builds both cases of `renderPracticeSheet` inline. Here each case
  is its own method (`RenderSingleRowCharacter`, `RenderMultiRowCharacter`),
  and `RenderPracticeSheet` dispatches between them. The twice-written filler
  loop is one method, `PushFillers`.
- JavaScript semantics are written out where they matter:
  - `\s` is the exact ECMAScript white-space set.
  - A string is truthy when it is non-empty. An array is always truthy.
  - `slice(0, end)` with a negative `end` counts back from the length.
  - `strokes[h] && …` draws nothing for an empty path string.
- The source makes only step cells and filler cells, and so does the model.

## Model

| member | source | states |
|---|---|---|
| `Types.SliderSettingsAreRenderable` | src/components/SettingsPanel.tsx:35-51 | slider settings give a grid at least one cell wide and 1 to 12 tracing passes |
| `Types.EffectiveRows` | src/components/WorksheetPreview.tsx:236 | the effective pass count is at least 1 and at least the setting, and equals one of them |
| `UniqueChars.IsWhitespace` | src/components/WorksheetPreview.tsx:26 | definition of the `\s` class: the ECMAScript white-space and line-terminator characters (tab, line feed, vertical tab, form feed, carriage return, space, no-break space, the Unicode space separators, line and paragraph separator, byte-order mark) |
| `UniqueChars.RemoveWhitespace` | src/components/WorksheetPreview.tsx:26 | the cleaned name holds exactly the name's non-white-space characters |
| `UniqueChars.Dedup` | src/components/WorksheetPreview.tsx:27 | de-duplication keeps exactly the input's characters and no character twice |
| `UniqueChars.UniqueChars` | src/components/WorksheetPreview.tsx:25-28 | the distinct list has no white space and no duplicates, and holds every non-white-space character of the name |
| `UniqueChars.UniqueCharsSnoc` | src/components/WorksheetPreview.tsx:25-28 | one more character in the name is appended to the list exactly when it is neither white space nor already listed |
| `UniqueChars.UniqueCharsFirstAppearanceOrder` | src/components/WorksheetPreview.tsx:27 | the distinct characters are ordered by their first index in the name |
| `PracticeSheet.RowsPerPass` | src/components/WorksheetPreview.tsx:313 | a pass takes the fewest rows of `g` cells that hold all steps, and at least one row |
| `PracticeSheet.ChunksAt` | src/components/WorksheetPreview.tsx:341-344 | row `k` of a cut is the slice `[k*g, k*g+g)` and lies inside the sequence |
| `PracticeSheet.FlattenChunks` | src/components/WorksheetPreview.tsx:341-344 | reading the rows back gives the padded sequence that was cut |
| `PracticeSheet.PassRowsShape` | src/components/WorksheetPreview.tsx:264-344 | every row of a pass has exactly `g` cells, and the pass reads as the steps `0..s-1` in order followed only by fillers |
| `PracticeSheet.ShortPass` | src/components/WorksheetPreview.tsx:266-290 | with `s <= g` a pass is one row of the steps `0..s-1` then `g-s` fillers, all fillers when `s = 0` |
| `PracticeSheet.LongPass` | src/components/WorksheetPreview.tsx:307-336 | with `s > g` a pass has `ceil(s/g)` rows, and it gets `g - s mod g` fillers when `s mod g != 0` and none otherwise |
| `PracticeSheet.PassCoversEachStrokeOnce` | src/components/WorksheetPreview.tsx:243-259 | in one pass, stroke `k` is the step of exactly one cell, the `k`-th, and only when `k < s` |
| `PracticeSheet.PassStepsInOrder` | src/components/WorksheetPreview.tsx:307-344 | the non-filler cells of a pass, in order, are exactly `TraceStep(0..s-1)` |
| `PracticeSheet.PassAnimatesStrokeOrder` | src/components/WorksheetPreview.tsx:243-290 | the cell at position `p < s` draws strokes before `p` as completed and stroke `p` as current; every later cell draws the whole character for tracing |
| `PracticeSheet.RepeatAt` | src/components/WorksheetPreview.tsx:339-360 | `n` repetitions hold `n` times the rows, and row `k` is row `k mod` the pass length: every repetition is identical |
| `PracticeSheet.BlockShape` | src/components/WorksheetPreview.tsx:292-360 | a block has `rowsPerPass * max(1, tracingRows)` rows, each `g` wide and equal to the matching row of the pass |
| `PracticeSheet.FailedFetchGivesFillerRows` | src/lib/actions.ts:168-184 | a failed or non-ok stroke fetch still yields one all-filler row of width `g` per pass |
| `PracticeSheet.CreateStrokePracticeSequence` | src/components/WorksheetPreview.tsx:239-262 | the sequence holds one step per stroke, step `i` at position `i` |
| `PracticeSheet.PushFillers` | src/components/WorksheetPreview.tsx:272-289 | pushing `count` fillers keeps the sequence as its prefix and adds exactly `count` filler cells |
| `PracticeSheet.RenderSingleRowCharacter` | src/components/WorksheetPreview.tsx:266-306 | the short case's rows are the pass repeated `tracingRows` times |
| `PracticeSheet.RenderMultiRowCharacter` | src/components/WorksheetPreview.tsx:307-361 | the long case's rows, sliced with `Math.min`, are the pass repeated `tracingRows` times; the slice is never cut short |
| `PracticeSheet.PushBlockRows` | src/components/WorksheetPreview.tsx:341-359 | slicing a whole number of rows out of the padded sequence pushes exactly its cut into rows of `g`, in order |
| `PracticeSheet.CeilDivPadding` | src/components/WorksheetPreview.tsx:313-318 | rounding the steps up to `ceil(s/g)` whole rows adds `g - s mod g` cells, or none when `g` divides `s` |
| `PracticeSheet.RenderPracticeSheet` | src/components/WorksheetPreview.tsx:228-364 | nothing without data; otherwise exactly the block of the character's stroke count, grid width and clamped pass count |
| `PageLayout.HasComplexCharacter` | src/components/WorksheetPreview.tsx:174-188 | definition of the `forEach` scan's result: some listed character has data and more strokes (`strokesData?.strokes \|\| []`) than cells per row; characters without data are skipped |
| `PageLayout.AllCharsLoaded` | src/components/WorksheetPreview.tsx:217-220 | definition of `allCharsLoaded`: every listed character is a key of the data map (true for an empty list) |
| `PageLayout.SingletonPages` | src/components/WorksheetPreview.tsx:212 | one page per character, page `i` holding only character `i` |
| `PageLayout.CalculatePageLayout` | src/components/WorksheetPreview.tsx:147-215 | the fit flag equals the table rule, a fit gives the single page of all characters, otherwise singleton pages, and the pages concatenate to the character list |
| `PageLayout.PageLayoutFor` | src/components/WorksheetPreview.tsx:217-226 | no characters or any missing data gives `{false, []}`; otherwise the planner's fit flag, with one page of all characters on a fit and one page per character otherwise |
| `PageLayout.BaseFitRule` | src/components/WorksheetPreview.tsx:150-170 | with no complex character: 1 character fits iff `r <= 8`, 2 iff `r <= 4`, 3 iff `r <= 2`, other counts never |
| `PageLayout.ComplexFitRule` | src/components/WorksheetPreview.tsx:172-199 | with a complex character: 1 character fits iff `r <= 6`, 2 iff `r <= 3`, 3 iff `r <= 1`, other counts never |
| `PageLayout.ComplexOnlyTightens` | src/components/WorksheetPreview.tsx:190-199 | a complex character never raises the row limit, so it can only turn a fit into no fit |
| `PageLayout.FitMonotoneInRows` | src/components/WorksheetPreview.tsx:150-199 | if a name fits with some pass count it fits with any smaller one |
| `PageLayout.FitMonotoneInGrid` | src/components/WorksheetPreview.tsx:172-199 | if a name fits on a grid it fits on any wider grid |
| `PageLayout.ConcatSingletonPages` | src/components/WorksheetPreview.tsx:210-213 | the singleton pages read in order give the character list back |
| `PageLayout.PagesPartitionChars` | src/components/WorksheetPreview.tsx:202-214 | either layout's pages concatenate to the list, no page is empty, and there is one page or one per character |
| `PageLayout.ScenarioOneComplexCharacter` | src/components/WorksheetPreview.tsx:196 | one 20-stroke character on an 8-cell grid with 8 passes does not fit on one page |
| `PageLayout.ScenarioThreeCharactersOneComplex` | src/components/WorksheetPreview.tsx:192 | three characters, one complex, with 2 passes do not fit on one page |
| `PageLayout.ScenarioFiveCharacters` | src/components/WorksheetPreview.tsx:167-170 | five characters never fit on one page |
| `CharacterCache.NewChars` | src/components/WorksheetPreview.tsx:32 | the requested characters are exactly the listed ones missing from the map |
| `CharacterCache.NewCharsDistinct` | src/components/WorksheetPreview.tsx:32 | the request list of a distinct list has no duplicates |
| `CharacterCache.MergeResults` | src/components/WorksheetPreview.tsx:40-47 | the new map's keys are the old keys plus the answered characters, entries not answered are unchanged, and each non-null answer is stored under the character it was requested for |
| `CharacterCache.MergeLoadsEveryCharacter` | src/components/WorksheetPreview.tsx:217-220 | once every request is answered, every character of the name has data |
| `TracingCharacterGrid.Render` | src/components/TracingCharacterGrid.tsx:66-105 | definition of the drawing: tracing first (whole joined path, faded tracing colour), then example (whole path, character colour), then step mode with all strokes as base, `strokes.slice(0, h)` as completed and `strokes[h] &&` as current |
| `TracingCharacterGrid.JoinStrokes` | src/components/TracingCharacterGrid.tsx:69 | definition of `strokes.join(' ')`: empty for no strokes, the paths separated by single spaces otherwise |
| `TracingCharacterGrid.SliceEnd` | src/components/TracingCharacterGrid.tsx:91 | the end index `slice(0, end)` uses: a negative end counts back from the length, and the result is clamped to `[0, length]`, never past the end |
| `TracingCharacterGrid.CurrentStroke` | src/components/TracingCharacterGrid.tsx:99-104 | definition of `strokes[h] && …`: stroke `h` when the index is in range and its path is non-empty, nothing otherwise |
| `TracingCharacterGrid.GridPatternLookupIsInjective` | src/components/TracingCharacterGrid.tsx:23-27 | each grid type is drawn with its own pattern |
| `TracingCharacterGrid.JoinStrokesLength` | src/components/TracingCharacterGrid.tsx:69 | the joined path is as long as all stroke paths plus one space between each pair of neighbours |
| `TracingCharacterGrid.JoinStrokesSnoc` | src/components/TracingCharacterGrid.tsx:69 | joining one more stroke appends a single space and that stroke's path, so the path is the strokes in order |
| `TracingCharacterGrid.TracingModeTakesPrecedence` | src/components/TracingCharacterGrid.tsx:66-72 | tracing mode draws the whole character in the faded tracing colour whatever the other flags |
| `TracingCharacterGrid.ExampleModeDrawsWholeCharacter` | src/components/TracingCharacterGrid.tsx:73-78 | example mode draws the whole character in the character colour |
| `TracingCharacterGrid.StepModeLayers` | src/components/TracingCharacterGrid.tsx:81-105 | for `h >= 0`: all strokes in the base layer, completed is `strokes[0..min(h, n))`, current is stroke `h` when present and non-empty, and completed plus current is the prefix up to `h` |
| `TracingCharacterGrid.DefaultHighlightInStepMode` | src/components/TracingCharacterGrid.tsx:91-104 | the default `highlightStroke = -1` marks all strokes but the last as completed and none as current |
| `Actions.IsHanCharacter` | src/lib/actions.ts:80 | definition of `/^[\u4e00-\u9fa5]$/`: exactly one character between U+4E00 and U+9FA5 |
| `Actions.LibraryRadical` | src/lib/actions.ts:108-116 | definition: `radicalData[0]?.radical \|\| 'N/A'` for a non-empty array, `'N/A'` for anything else or an exception |
| `Actions.LibraryStructure` | src/lib/actions.ts:108-116 | definition: `radicalData[0]?.struct \|\| 'N/A'` for a non-empty array, `'N/A'` for anything else or an exception |
| `Actions.FillField` | src/lib/actions.ts:124-129 | a field the library answered keeps its value; a field left `'N/A'` takes the dictionary's value when truthy, and stays `'N/A'` otherwise |
| `Actions.OrNotAvailable` | src/lib/actions.ts:111-112 | `x \|\| 'N/A'` gives `x` when it is a non-empty string and `'N/A'` otherwise |
| `Actions.LibraryPinyin` | src/lib/actions.ts:91-105 | the pinyin taken from the library is never an empty list |
| `Actions.CharacterDetailsFor` | src/lib/actions.ts:79-159 | the details as a value: the character is kept; a non-Han input gives all `N/A`; without a dictionary entry the library answers are used, or all `N/A` after an outer failure; pinyin is non-empty when the dictionary's lists are |
| `Actions.LibraryValuesWinOverDictionary` | src/lib/actions.ts:118-130 | with a dictionary entry and no outer failure, library values other than `N/A` are kept and the entry fills only the `N/A` fields |
| `Actions.GetCharacterDetailsFromCnchar` | src/lib/actions.ts:79-159 | the method, which overwrites its locals step by step, returns exactly `CharacterDetailsFor`; also stated directly: the character is returned unchanged; a non-Han input gets all `N/A`; library values that are not `N/A` are kept and the dictionary fills only the `N/A` ones; the outer handler answers from the dictionary with `N/A` defaults; pinyin is never empty when the dictionary's lists are not |
| `Actions.GetCharacterStrokeSVGs` | src/lib/actions.ts:162-188 | a failed request, non-ok response or unreadable body gives `{strokes: [], medians: []}`; a readable body is passed through |
| `Actions.GetCharacterData` | src/lib/actions.ts:190-202 | the details are exactly `CharacterDetailsFor` of the same inputs; the data carries the character and the fetch's stroke data (no strokes on failure), and its pinyin list is non-empty when the dictionary's lists are |

## Left out

- PDF export and printing (`handleDownloadPdf`, `handlePrint`): DOM capture, a PDF library and floating-point page scaling.
- The async side of the fetch effect: `Promise.all`, `useEffect`, the loading and downloading flags, and error logging. Only the synchronous map merge is modelled. Concurrent merges are not modelled.
- The network request to the stroke-data service and its one-day server cache. The outcome of the request is an input.
- The internals of the pinyin and radical library. Its answers are inputs, including "threw".
- The entries of the fallback dictionary. The dictionary is any map. The non-empty pinyin property is stated for dictionaries whose pinyin lists are all non-empty, as the source's entries are.
- JSX markup, class names, React keys and `cloneElement` copies. A row is a value, so repetitions share nothing by construction.
- SVG transforms and viewBox constants. The grid-pattern drawings are not modelled. Colour strings are not modelled; each layer is tagged with its colour role instead.
- The settings panel, the page component, the pinyin and info displays, the unused `CharacterGrid`, and the AI plugin configuration. They are UI and configuration code. The settings' slider ranges are kept as `Types.WithinSliderBounds`, and `Types.SliderSettingsAreRenderable` shows they meet `RenderPracticeSheet`'s requirement.
- UTF-16 surrogate pairs split by `split("")`. A name is a sequence of Unicode characters.
- The memo dependency lists of `useMemo`: the layout is modelled as a function of its current inputs.
- The `?.details` test of `allCharsLoaded`. Every cached entry has details, so the model tests only map membership.
- `Math.ceil(strokeCount / gridsPerRow)` is computed on floating point in the source. The model uses exact integer ceiling, which agrees for these small positive integers.
- `PracticeSheet.RenderPracticeSheet` requires a grid width of at least 1. The settings guarantee at least 4, and with 0 the source's long case computes `Math.ceil(s / 0) = Infinity` rows per block, so its row loop never ends when `s > 0`.
- Stroke medians are carried as reals and never inspected.
