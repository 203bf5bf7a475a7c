/** The records shared by the worksheet generator (src/lib/types.ts). */
module Types {
  import opened Wrappers

  /** The three grid styles a practice cell can be drawn on. */
  datatype GridType = TianZiGe | MiZiGe | HuiGongGe

  /** The user's worksheet settings; colours are CSS colour strings. */
  datatype Settings = Settings(
    name: string,
    gridCount: int,
    tracingRows: int,
    gridType: GridType,
    showPinyin: bool,
    gridColor: string,
    characterColor: string,
    tracingColor: string,
    strokeColor: string,
    completedStrokeColor: string)

  /** The ranges the settings sliders allow: 4 to 16 cells per row, 0 to 12 tracing rows. */
  predicate WithinSliderBounds(s: Settings) {
    4 <= s.gridCount <= 16 && 0 <= s.tracingRows <= 12
  }

  /** Settings the sliders allow always give a grid at least one cell wide
      and between 1 and 12 tracing passes. */
  lemma SliderSettingsAreRenderable(s: Settings)
    requires WithinSliderBounds(s)
    ensures s.gridCount >= 1
    ensures 1 <= EffectiveRows(s.tracingRows) <= 12
  {
  }

  /** Pronunciation and shape metadata of one character. */
  datatype CharacterDetails = CharacterDetails(
    character: string,
    pinyin: seq<string>,
    radical: string,
    structure: string)

  /** Stroke outlines (SVG path strings) and stroke medians of one character;
      a field the stroke-data JSON leaves out is `None`. */
  datatype StrokeData = StrokeData(
    strokes: Option<seq<string>>,
    medians: Option<seq<seq<seq<real>>>>)

  /** Everything the worksheet keeps per character. */
  datatype CharacterData = CharacterData(details: CharacterDetails, strokesData: StrokeData)

  /** The stroke list the worksheet draws: `strokesData?.strokes || []`. */
  function Strokes(data: CharacterData): seq<string> {
    data.strokesData.strokes.GetOr([])
  }

  function StrokeCount(data: CharacterData): nat {
    |Strokes(data)|
  }

  /** `Math.max(1, tracingRows)`: at least one tracing pass is always laid out. */
  function EffectiveRows(tracingRows: int): (r: nat)
    ensures r >= 1 && r >= tracingRows
    ensures r == tracingRows || r == 1
  {
    if tracingRows < 1 then 1 else tracingRows
  }
}
