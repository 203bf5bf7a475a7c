/** What one grid cell draws (src/components/TracingCharacterGrid.tsx): the
    grid pattern, and the character either whole or stroke by stroke. */
module TracingCharacterGrid {
  import opened Wrappers
  import opened Types

  /** The three pattern components of `GridComponents`. */
  datatype GridPattern = TianZiGePattern | MiZiGePattern | HuiGongGePattern

  /** `GridComponents[gridType]`. */
  function GridPatternFor(gridType: GridType): GridPattern {
    match gridType
    case TianZiGe => TianZiGePattern
    case MiZiGe => MiZiGePattern
    case HuiGongGe => HuiGongGePattern
  }

  /** Each grid type has its own pattern. */
  lemma GridPatternLookupIsInjective(a: GridType, b: GridType)
    ensures GridPatternFor(a) == GridPatternFor(b) ==> a == b
  {
  }

  /** The fill of a whole-character path: the tracing colour at reduced
      opacity (`tracingColor + "40"`), or `characterColor`. */
  datatype WholeFill = FadedTracingColor | CharacterColor

  /** What the cell's SVG group holds. In `StrokeByStroke` the `base` paths
      are filled with the faint tracing colour, the `completed` paths with
      `completedStrokeColor` and the `current` path with `strokeColor`, drawn
      in that order. */
  datatype Drawing =
    | WholeCharacter(path: string, fill: WholeFill)
    | StrokeByStroke(base: seq<string>, completed: seq<string>, current: Option<string>)

  /** `strokes.join(' ')`. */
  function JoinStrokes(strokes: seq<string>): string
    decreases |strokes|
  {
    if |strokes| == 0 then ""
    else if |strokes| == 1 then strokes[0]
    else strokes[0] + " " + JoinStrokes(strokes[1..])
  }

  /** The end index `Array.prototype.slice(0, end)` uses: a negative end
      counts back from the length, and the result is clamped to `[0, len]`. */
  function SliceEnd(len: nat, end: int): (e: nat)
    ensures e <= len
  {
    if end < 0 then (if len + end >= 0 then len + end else 0)
    else if end <= len then end else len
  }

  /** `strokes[highlightStroke] && …`: the current stroke is drawn only when
      the index is in range and its path string is non-empty (truthy). */
  function CurrentStroke(strokes: seq<string>, highlightStroke: int): Option<string> {
    if 0 <= highlightStroke < |strokes| && strokes[highlightStroke] != "" then Some(strokes[highlightStroke])
    else None
  }

  /** The cell drawing for the component's props; `highlightStroke` defaults
      to -1 in the source. Tracing mode is tested first, then example mode. */
  function Render(strokes: seq<string>, highlightStroke: int, isTracing: bool, isExample: bool): Drawing {
    if isTracing then WholeCharacter(JoinStrokes(strokes), FadedTracingColor)
    else if isExample then WholeCharacter(JoinStrokes(strokes), CharacterColor)
    else StrokeByStroke(strokes, strokes[..SliceEnd(|strokes|, highlightStroke)],
                        CurrentStroke(strokes, highlightStroke))
  }

  /** Joining puts exactly one space between consecutive paths. */
  lemma {:induction false} JoinStrokesLength(strokes: seq<string>)
    ensures |strokes| == 0 ==> JoinStrokes(strokes) == ""
    ensures |strokes| > 0 ==> |JoinStrokes(strokes)| == TotalLength(strokes) + |strokes| - 1
    decreases |strokes|
  {
    if |strokes| > 1 {
      JoinStrokesLength(strokes[1..]);
    }
  }

  /** Appending a stroke appends a space and its path: the joined path is
      the strokes in order, one space between neighbours. */
  lemma {:induction false} JoinStrokesSnoc(strokes: seq<string>, stroke: string)
    ensures |strokes| == 0 ==> JoinStrokes(strokes + [stroke]) == stroke
    ensures |strokes| > 0 ==> JoinStrokes(strokes + [stroke]) == JoinStrokes(strokes) + " " + stroke
    decreases |strokes|
  {
    if |strokes| == 0 {
      assert strokes + [stroke] == [stroke];
    } else {
      assert (strokes + [stroke])[1..] == strokes[1..] + [stroke];
      JoinStrokesSnoc(strokes[1..], stroke);
    }
  }

  function TotalLength(strokes: seq<string>): nat
    decreases |strokes|
  {
    if |strokes| == 0 then 0 else |strokes[0]| + TotalLength(strokes[1..])
  }

  /** Tracing mode draws the whole character in the faded tracing colour,
      whatever the other flags say. */
  lemma TracingModeTakesPrecedence(strokes: seq<string>, highlightStroke: int, isExample: bool)
    ensures Render(strokes, highlightStroke, true, isExample) == WholeCharacter(JoinStrokes(strokes), FadedTracingColor)
  {
  }

  /** Example mode (not tracing) draws the whole character in `characterColor`. */
  lemma ExampleModeDrawsWholeCharacter(strokes: seq<string>, highlightStroke: int)
    ensures Render(strokes, highlightStroke, false, true) == WholeCharacter(JoinStrokes(strokes), CharacterColor)
  {
  }

  /** Step mode with `h >= 0`: every stroke is in the base layer, the
      completed strokes are exactly those before `h`, the current one is stroke
      `h` when it exists and is non-empty, it is not among the completed ones,
      and completed plus current is the prefix up to and including `h`. */
  lemma StepModeLayers(strokes: seq<string>, h: int)
    requires h >= 0
    ensures var d := Render(strokes, h, false, false);
      && d.StrokeByStroke?
      && d.base == strokes
      && d.completed == strokes[..if h <= |strokes| then h else |strokes|]
      && (d.current.Some? <==> h < |strokes| && strokes[h] != "")
      && (d.current.Some? ==> d.current.value == strokes[h] && |d.completed| == h
                              && d.completed + [d.current.value] == strokes[..h + 1])
  {
    var d := Render(strokes, h, false, false);
    if d.current.Some? {
      assert strokes[..h + 1] == strokes[..h] + [strokes[h]];
    }
  }

  /** The default `highlightStroke = -1` in step mode marks every stroke but
      the last as completed and highlights none. */
  lemma DefaultHighlightInStepMode(strokes: seq<string>)
    requires |strokes| > 0
    ensures Render(strokes, -1, false, false) == StrokeByStroke(strokes, strokes[..|strokes| - 1], None)
  {
  }
}
