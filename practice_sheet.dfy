/** Row packing and repetition of one character's practice block
    (`renderPracticeSheet` in src/components/WorksheetPreview.tsx). */
module PracticeSheet {
  import opened Wrappers
  import opened Types
  import TracingCharacterGrid
  import Actions

  /** One practice cell: a stroke-order step that highlights stroke `stroke`
      (drawn with `highlightStroke = stroke`), or a filler showing the whole
      character for tracing (drawn with `isTracing`). */
  datatype Cell = TraceStep(stroke: nat) | Filler

  /** One row of the practice grid. */
  type Row = seq<Cell>

  /** The stroke-order steps `TraceStep(0), …, TraceStep(n - 1)`. */
  function TraceSteps(n: nat): seq<Cell> {
    seq(n, i requires 0 <= i => TraceStep(i))
  }

  function Fillers(n: nat): seq<Cell> {
    seq(n, _ => Filler)
  }

  lemma CeilDivBounds(s: nat, g: nat)
    requires s >= 1 && g >= 1
    ensures (s + g - 1) / g >= 1
    ensures s <= (s + g - 1) / g * g
    ensures ((s + g - 1) / g - 1) * g < s
  {
    var m := s + g - 1;
    var q, r := m / g, m % g;
    assert m == q * g + r && 0 <= r < g;
    assert (q - 1) * g == q * g - g;
  }

  /** The number of rows one tracing pass takes: the fewest whole rows of
      `g` cells that hold all `s` steps, and one row when there are no steps. */
  function RowsPerPass(s: nat, g: nat): (n: nat)
    requires g >= 1
    ensures n >= 1 && s <= n * g
    ensures s > 0 ==> (n - 1) * g < s
  {
    if s == 0 then 1
    else
      CeilDivBounds(s, g);
      (s + g - 1) / g
  }

  /** The cells of one pass read row after row: every step in order, then
      fillers up to the end of the last row. */
  function PassCells(s: nat, g: nat): seq<Cell>
    requires g >= 1
  {
    TraceSteps(s) + Fillers(RowsPerPass(s, g) * g - s)
  }

  /** `cells` cut into `n` consecutive rows of `g` cells. */
  function Chunks(cells: seq<Cell>, g: nat, n: nat): seq<Row>
    requires |cells| == n * g
    decreases n
  {
    if n == 0 then []
    else
      assert (n - 1) * g == n * g - g;
      [cells[..g]] + Chunks(cells[g..], g, n - 1)
  }

  /** The rows of one tracing pass of a character with `s` strokes on a grid
      of `g` cells per row. */
  function PassRows(s: nat, g: nat): seq<Row>
    requires g >= 1
  {
    Chunks(PassCells(s, g), g, RowsPerPass(s, g))
  }

  /** `rows` repeated `n` times. */
  function Repeat(rows: seq<Row>, n: nat): seq<Row>
    decreases n
  {
    if n == 0 then [] else Repeat(rows, n - 1) + rows
  }

  /** A character's whole practice block: its pass repeated
      `max(1, tracingRows)` times. */
  function Block(s: nat, g: nat, tracingRows: int): seq<Row>
    requires g >= 1
  {
    Repeat(PassRows(s, g), EffectiveRows(tracingRows))
  }

  /** The rows laid side by side, as the reader reads the grid. */
  function Flatten(rows: seq<Row>): seq<Cell>
    decreases |rows|
  {
    if |rows| == 0 then [] else rows[0] + Flatten(rows[1..])
  }

  /** The stroke-order steps of `cells`, fillers dropped. */
  function Steps(cells: seq<Cell>): seq<Cell>
    decreases |cells|
  {
    if |cells| == 0 then []
    else (if cells[0].TraceStep? then [cells[0]] else []) + Steps(cells[1..])
  }

  // ---------------------------------------------------------------------------
  // Properties of the chunking and of one pass

  /** Row `k` of `Chunks(cells, g, n)` is the slice `[k*g, k*g+g)` of `cells`. */
  lemma {:induction false} ChunksAt(cells: seq<Cell>, g: nat, n: nat)
    requires |cells| == n * g
    ensures |Chunks(cells, g, n)| == n
    ensures forall k :: 0 <= k < n ==>
      k * g + g <= |cells| && Chunks(cells, g, n)[k] == cells[k * g..k * g + g]
    decreases n
  {
    if n > 0 {
      assert (n - 1) * g == n * g - g;
      var rest := cells[g..];
      ChunksAt(rest, g, n - 1);
      forall k | 0 <= k < n
        ensures k * g + g <= |cells| && Chunks(cells, g, n)[k] == cells[k * g..k * g + g]
      {
        RowStart(k, n, g);
        if k > 0 {
          ChunkOfRest(cells, g, k);
        }
      }
    }
  }

  /** Row `k` starts at `k*g`, one row after row `k - 1`, and ends inside `n` rows. */
  lemma RowStart(k: nat, n: nat, g: nat)
    requires k < n
    ensures k * g + g <= n * g
    ensures k > 0 ==> (k - 1) * g + g == k * g
  {
    MulMonotone(k + 1, n, g);
  }

  /** A slice of `cells[g..]` shifted by one row is the same slice of `cells`. */
  lemma ChunkOfRest(cells: seq<Cell>, g: nat, k: nat)
    requires k >= 1 && g <= |cells| && (k - 1) * g + g == k * g && k * g + g <= |cells|
    ensures cells[g..][(k - 1) * g..(k - 1) * g + g] == cells[k * g..k * g + g]
  {
  }

  /** Reading the rows back gives the cells that were cut. */
  lemma {:induction false} FlattenChunks(cells: seq<Cell>, g: nat, n: nat)
    requires |cells| == n * g
    ensures Flatten(Chunks(cells, g, n)) == cells
    decreases n
  {
    if n > 0 {
      assert (n - 1) * g == n * g - g;
      FlattenChunks(cells[g..], g, n - 1);
      var c := Chunks(cells, g, n);
      assert c[1..] == Chunks(cells[g..], g, n - 1);
    }
  }

  lemma {:induction false} StepsAppend(a: seq<Cell>, b: seq<Cell>)
    ensures Steps(a + b) == Steps(a) + Steps(b)
    decreases |a|
  {
    if |a| > 0 {
      var head := if a[0].TraceStep? then [a[0]] else [];
      assert (a + b)[0] == a[0];
      assert (a + b)[1..] == a[1..] + b;
      StepsAppend(a[1..], b);
      assert Steps(a + b) == head + Steps(a[1..] + b);
      assert Steps(a) == head + Steps(a[1..]);
    } else {
      assert a + b == b;
    }
  }

  lemma {:induction false} StepsOfStepsOnly(cells: seq<Cell>)
    requires forall i :: 0 <= i < |cells| ==> cells[i].TraceStep?
    ensures Steps(cells) == cells
    decreases |cells|
  {
    if |cells| > 0 {
      StepsOfStepsOnly(cells[1..]);
    }
  }

  lemma {:induction false} StepsOfFillersOnly(cells: seq<Cell>)
    requires forall i :: 0 <= i < |cells| ==> cells[i].Filler?
    ensures Steps(cells) == []
    decreases |cells|
  {
    if |cells| > 0 {
      StepsOfFillersOnly(cells[1..]);
    }
  }

  /** One pass has `RowsPerPass(s, g)` rows, every row exactly `g` cells wide,
      and read row after row it is the steps `0..s-1` in order followed by
      fillers only. */
  lemma PassRowsShape(s: nat, g: nat)
    requires g >= 1
    ensures |PassRows(s, g)| == RowsPerPass(s, g)
    ensures forall k :: 0 <= k < |PassRows(s, g)| ==> |PassRows(s, g)[k]| == g
    ensures Flatten(PassRows(s, g)) == TraceSteps(s) + Fillers(RowsPerPass(s, g) * g - s)
  {
    var cells := PassCells(s, g);
    ChunksAt(cells, g, RowsPerPass(s, g));
    FlattenChunks(cells, g, RowsPerPass(s, g));
  }

  /** Short case (`strokeCount <= gridCount`): a pass is the single row of all
      steps followed by `g - s` fillers; with no strokes the row is all fillers. */
  lemma ShortPass(s: nat, g: nat)
    requires 1 <= g && s <= g
    ensures PassRows(s, g) == [TraceSteps(s) + Fillers(g - s)]
    ensures s == 0 ==> PassRows(s, g) == [Fillers(g)]
  {
    if s > 0 {
      DivModUnique(s + g - 1, g, 1);
    }
    assert RowsPerPass(s, g) == 1;
    var cells := PassCells(s, g);
    assert cells == TraceSteps(s) + Fillers(g - s);
    assert cells[..g] == cells && cells[g..] == [];
    assert PassRows(s, g) == [cells[..g]] + Chunks(cells[g..], g, 0);
    assert s == 0 ==> TraceSteps(s) + Fillers(g - s) == Fillers(g);
  }

  /** Long case (`strokeCount > gridCount`): a pass takes `ceil(s / g)` rows,
      and fillers are added only when `s mod g != 0`, exactly `g - s mod g`
      of them. */
  lemma LongPass(s: nat, g: nat)
    requires 1 <= g < s
    ensures RowsPerPass(s, g) == (s + g - 1) / g
    ensures |PassRows(s, g)| == (s + g - 1) / g
    ensures RowsPerPass(s, g) * g - s == if s % g == 0 then 0 else g - s % g
  {
    PassRowsShape(s, g);
    CeilDivPadding(s, g);
  }

  /** Rounding `s` up to whole rows of `g` adds `g - s mod g` cells, or none
      when `g` divides `s`. */
  lemma CeilDivPadding(s: nat, g: nat)
    requires 1 <= g
    ensures (s + g - 1) / g * g - s == if s % g == 0 then 0 else g - s % g
  {
    var q, r := s / g, s % g;
    assert s == q * g + r && 0 <= r < g;
    if r == 0 {
      DivModUnique(s + g - 1, g, q);
    } else {
      assert (q + 1) * g == q * g + g;
      DivModUnique(s + g - 1, g, q + 1);
    }
  }

  /** In one pass, stroke `k` is the step of exactly one cell, the `k`-th in
      reading order, for every stroke; no other stroke index appears. */
  lemma PassCoversEachStrokeOnce(s: nat, g: nat, k: nat)
    requires g >= 1
    ensures forall p :: 0 <= p < |Flatten(PassRows(s, g))| ==>
      (Flatten(PassRows(s, g))[p] == TraceStep(k) <==> p == k && k < s)
  {
    PassRowsShape(s, g);
  }

  /** The non-filler cells of a pass, in reading order, are exactly
      `TraceStep(0), …, TraceStep(s - 1)`. */
  lemma PassStepsInOrder(s: nat, g: nat)
    requires g >= 1
    ensures Steps(Flatten(PassRows(s, g))) == TraceSteps(s)
  {
    PassRowsShape(s, g);
    var f := RowsPerPass(s, g) * g - s;
    StepsAppend(TraceSteps(s), Fillers(f));
    StepsOfStepsOnly(TraceSteps(s));
    StepsOfFillersOnly(Fillers(f));
  }

  /** What a practice cell draws for a character with `strokes`: a step
      cell is a `TracingCharacterGrid` with `highlightStroke` set to its
      index, a filler one with `isTracing`. */
  function DrawCell(cell: Cell, strokes: seq<string>): TracingCharacterGrid.Drawing {
    match cell
    case TraceStep(i) => TracingCharacterGrid.Render(strokes, i, false, false)
    case Filler => TracingCharacterGrid.Render(strokes, -1, true, false)
  }

  /** Read in order, one pass is the stroke-order animation: the cell at
      position `p < s` shows strokes `0..p-1` as completed and stroke `p` as
      current (when its path is non-empty), and every later cell shows the
      whole character for tracing. */
  lemma PassAnimatesStrokeOrder(strokes: seq<string>, g: nat)
    requires g >= 1
    ensures var cells := Flatten(PassRows(|strokes|, g));
      && |cells| == RowsPerPass(|strokes|, g) * g
      && (forall p :: 0 <= p < |strokes| ==>
            DrawCell(cells[p], strokes)
              == TracingCharacterGrid.StrokeByStroke(strokes, strokes[..p],
                   if strokes[p] != "" then Some(strokes[p]) else None))
      && (forall p :: |strokes| <= p < |cells| ==>
            DrawCell(cells[p], strokes)
              == TracingCharacterGrid.WholeCharacter(TracingCharacterGrid.JoinStrokes(strokes),
                                                     TracingCharacterGrid.FadedTracingColor))
  {
    PassRowsShape(|strokes|, g);
  }

  // ---------------------------------------------------------------------------
  // Repetition

  lemma MulMonotone(a: int, b: int, m: nat)
    ensures a <= b ==> a * m <= b * m
  {
  }

  /** Euclidean division has one quotient and one remainder. */
  lemma DivModUnique(k: nat, m: nat, q: nat)
    requires m >= 1 && q * m <= k < q * m + m
    ensures k / m == q && k % m == k - q * m
  {
    var d, r := k / m, k % m;
    assert k == d * m + r && 0 <= r < m;
    MulMonotone(d, q - 1, m);
    MulMonotone(q + 1, d, m);
    assert (q - 1) * m == q * m - m;
    assert (q + 1) * m == q * m + m;
  }

  /** `n` repetitions of `rows` hold `n * |rows|` rows, and row `k` is row
      `k mod |rows|` of the pass: every repetition is the same. */
  lemma {:induction false} RepeatAt(rows: seq<Row>, n: nat)
    requires |rows| >= 1
    ensures |Repeat(rows, n)| == n * |rows|
    ensures forall k :: 0 <= k < |Repeat(rows, n)| ==> Repeat(rows, n)[k] == rows[k % |rows|]
    decreases n
  {
    if n > 0 {
      RepeatAt(rows, n - 1);
      var m := |rows|;
      assert (n - 1) * m == n * m - m;
      forall k | (n - 1) * m <= k < n * m
        ensures Repeat(rows, n)[k] == rows[k % m]
      {
        DivModUnique(k, m, n - 1);
      }
    }
  }

  /** A practice block is `RowsPerPass(s, g) * max(1, tracingRows)` rows of
      width `g`, and each of its rows is the matching row of the one pass. */
  lemma BlockShape(s: nat, g: nat, tracingRows: int)
    requires g >= 1
    ensures |PassRows(s, g)| == RowsPerPass(s, g)
    ensures |Block(s, g, tracingRows)| == EffectiveRows(tracingRows) * RowsPerPass(s, g)
    ensures forall k :: 0 <= k < |Block(s, g, tracingRows)| ==>
      Block(s, g, tracingRows)[k] == PassRows(s, g)[k % RowsPerPass(s, g)]
    ensures forall k :: 0 <= k < |Block(s, g, tracingRows)| ==> |Block(s, g, tracingRows)[k]| == g
  {
    PassRowsShape(s, g);
    RepeatAt(PassRows(s, g), EffectiveRows(tracingRows));
  }

  /** A character whose stroke fetch failed still gets its practice block:
      one row of `g` fillers per tracing pass. Other characters' data is not
      involved. */
  lemma FailedFetchGivesFillerRows(details: CharacterDetails, outcome: Actions.FetchOutcome, g: nat, tracingRows: int)
    requires g >= 1 && !outcome.Ok?
    ensures var data := CharacterData(details, Actions.GetCharacterStrokeSVGs(outcome));
      Block(StrokeCount(data), g, tracingRows) == Repeat([Fillers(g)], EffectiveRows(tracingRows))
  {
    ShortPass(0, g);
  }

  // ---------------------------------------------------------------------------
  // The imperative builder

  /** `createStrokePracticeSequence`: one step cell per stroke, in order. */
  method CreateStrokePracticeSequence(strokeCount: nat) returns (sequence: seq<Cell>)
    ensures |sequence| == strokeCount
    ensures forall i :: 0 <= i < strokeCount ==> sequence[i] == TraceStep(i)
  {
    sequence := [];
    var i := 0;
    while i < strokeCount
      invariant 0 <= i <= strokeCount
      invariant |sequence| == i
      invariant forall j :: 0 <= j < i ==> sequence[j] == TraceStep(j)
    {
      sequence := sequence + [TraceStep(i)];
      i := i + 1;
    }
  }

  /** The source's filler loop: `count` filler cells pushed onto `sequence`. */
  method PushFillers(sequence: seq<Cell>, count: nat) returns (padded: seq<Cell>)
    ensures |padded| == |sequence| + count
    ensures padded[..|sequence|] == sequence
    ensures forall i :: |sequence| <= i < |padded| ==> padded[i] == Filler
  {
    padded := sequence;
    var i := 0;
    while i < count
      invariant 0 <= i <= count
      invariant padded == sequence + Fillers(i)
    {
      padded := padded + [Filler];
      i := i + 1;
    }
  }

  function Min(a: int, b: int): int {
    if a <= b then a else b
  }

  /** Case 1 of `renderPracticeSheet` (`strokeCount <= gridsPerRow`): one row
      of all steps padded with fillers, pushed `tracingRows` times. */
  method RenderSingleRowCharacter(strokeCount: nat, gridsPerRow: nat, tracingRows: nat)
    returns (allRows: seq<Row>)
    requires 1 <= gridsPerRow && strokeCount <= gridsPerRow
    ensures allRows == Repeat(PassRows(strokeCount, gridsPerRow), tracingRows)
  {
    ghost var pass := PassRows(strokeCount, gridsPerRow);
    allRows := [];
    var singleRowSequence := CreateStrokePracticeSequence(strokeCount);
    assert singleRowSequence == TraceSteps(strokeCount);
    var fillerCount := gridsPerRow - strokeCount;
    singleRowSequence := PushFillers(singleRowSequence, fillerCount);
    assert singleRowSequence == TraceSteps(strokeCount) + Fillers(fillerCount);
    ShortPass(strokeCount, gridsPerRow);
    var row := 0;
    while row < tracingRows
      invariant 0 <= row <= tracingRows
      invariant allRows == Repeat(pass, row)
    {
      allRows := allRows + [singleRowSequence];
      row := row + 1;
    }
  }

  /** Case 2 of `renderPracticeSheet` (`strokeCount > gridsPerRow`): the steps
      padded to whole rows, sliced into `ceil(strokeCount / gridsPerRow)` rows
      with `Math.min` bounding each slice, the block pushed `tracingRows` times. */
  method RenderMultiRowCharacter(strokeCount: nat, gridsPerRow: nat, tracingRows: nat)
    returns (allRows: seq<Row>)
    requires 1 <= gridsPerRow < strokeCount
    ensures allRows == Repeat(PassRows(strokeCount, gridsPerRow), tracingRows)
  {
    ghost var pass := PassRows(strokeCount, gridsPerRow);
    allRows := [];
    var fullSequence := CreateStrokePracticeSequence(strokeCount);
    assert fullSequence == TraceSteps(strokeCount);
    var rowsPerBlock := (strokeCount + gridsPerRow - 1) / gridsPerRow;
    var lastRowGridCount := strokeCount % gridsPerRow;
    if lastRowGridCount > 0 {
      var fillerCount := gridsPerRow - lastRowGridCount;
      fullSequence := PushFillers(fullSequence, fillerCount);
      assert fullSequence == TraceSteps(strokeCount) + Fillers(fillerCount);
    }
    LongPass(strokeCount, gridsPerRow);
    assert fullSequence == PassCells(strokeCount, gridsPerRow);
    var block := 0;
    while block < tracingRows
      invariant 0 <= block <= tracingRows
      invariant allRows == Repeat(pass, block)
    {
      allRows := PushBlockRows(allRows, fullSequence, gridsPerRow, rowsPerBlock);
      block := block + 1;
    }
  }

  /** The inner loop of case 2: row `row` of the block is the slice
      `[row * g, min(row * g + g, length))`, pushed in order. */
  method PushBlockRows(allRows: seq<Row>, fullSequence: seq<Cell>, gridsPerRow: nat, rowsPerBlock: nat)
    returns (extended: seq<Row>)
    requires 1 <= gridsPerRow && |fullSequence| == rowsPerBlock * gridsPerRow
    ensures extended == allRows + Chunks(fullSequence, gridsPerRow, rowsPerBlock)
  {
    ghost var rows := Chunks(fullSequence, gridsPerRow, rowsPerBlock);
    ChunksAt(fullSequence, gridsPerRow, rowsPerBlock);
    extended := allRows;
    var row := 0;
    while row < rowsPerBlock
      invariant 0 <= row <= rowsPerBlock
      invariant extended == allRows + rows[..row]
    {
      var startIndex := row * gridsPerRow;
      var endIndex := Min(startIndex + gridsPerRow, |fullSequence|);
      assert endIndex == startIndex + gridsPerRow;
      extended := extended + [fullSequence[startIndex..endIndex]];
      assert rows[..row + 1] == rows[..row] + [rows[row]];
      row := row + 1;
    }
    assert rows[..rowsPerBlock] == rows;
  }

  /** `renderPracticeSheet`: the practice rows of character `c`, or nothing
      while its data is missing. */
  method RenderPracticeSheet(c: char, characterData: map<char, CharacterData>, settings: Settings)
    returns (sheet: Option<seq<Row>>)
    requires settings.gridCount >= 1
    ensures c !in characterData ==> sheet == None
    ensures c in characterData ==>
      sheet == Some(Block(StrokeCount(characterData[c]), settings.gridCount, settings.tracingRows))
  {
    if c !in characterData {
      return None;
    }
    var strokeCount := StrokeCount(characterData[c]);
    var gridsPerRow := settings.gridCount;
    var tracingRows := EffectiveRows(settings.tracingRows);
    var allRows;
    if strokeCount <= gridsPerRow {
      allRows := RenderSingleRowCharacter(strokeCount, gridsPerRow, tracingRows);
    } else {
      allRows := RenderMultiRowCharacter(strokeCount, gridsPerRow, tracingRows);
    }
    return Some(allRows);
  }
}
