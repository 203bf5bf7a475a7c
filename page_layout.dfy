/** The page planner of the worksheet (`calculatePageLayout`, `allCharsLoaded`
    and `pageLayout` in src/components/WorksheetPreview.tsx): either every
    character on one page, or one page per character. */
module PageLayout {
  import opened Types

  /** `{ canFitInOnePage, pages }`: each page lists the characters it shows. */
  datatype PageLayout = PageLayout(canFitInOnePage: bool, pages: seq<seq<char>>)

  /** The layout shown while there is nothing to lay out. */
  const NoPages := PageLayout(false, [])

  /** The most tracing passes that still fit on one A4 page, by character
      count and by whether some character needs more than one row per pass.
      Counts missing from the table (none, or four and more) never fit. */
  const OnePageRowLimits: map<(nat, bool), nat> := map[
    (1, false) := 8, (2, false) := 4, (3, false) := 2,
    (1, true) := 6, (2, true) := 3, (3, true) := 1]

  function MaxRowsOnOnePage(charCount: nat, complex: bool): nat {
    if (charCount, complex) in OnePageRowLimits then OnePageRowLimits[(charCount, complex)] else 0
  }

  /** A character is complex when its strokes do not fit one row of the grid. */
  predicate IsComplex(data: CharacterData, gridCount: int) {
    StrokeCount(data) > gridCount
  }

  /** Some character with loaded data is complex; characters without data are skipped. */
  predicate HasComplexCharacter(chars: seq<char>, characterData: map<char, CharacterData>, gridCount: int) {
    exists i :: 0 <= i < |chars| && chars[i] in characterData && IsComplex(characterData[chars[i]], gridCount)
  }

  /** The one-page decision, looked up in the table. */
  predicate FitsOnOnePage(chars: seq<char>, characterData: map<char, CharacterData>, gridCount: int, tracingRows: int) {
    EffectiveRows(tracingRows) <= MaxRowsOnOnePage(|chars|, HasComplexCharacter(chars, characterData, gridCount))
  }

  /** `uniqueChars.map(char => [char])`. */
  function SingletonPages(chars: seq<char>): (pages: seq<seq<char>>)
    ensures |pages| == |chars|
    ensures forall i :: 0 <= i < |chars| ==> pages[i] == [chars[i]]
  {
    seq(|chars|, i requires 0 <= i < |chars| => [chars[i]])
  }

  /** The pages laid side by side, in order. */
  function Concat(pages: seq<seq<char>>): seq<char>
    decreases |pages|
  {
    if |pages| == 0 then [] else pages[0] + Concat(pages[1..])
  }

  /** Every character with its data, in the sense of `allCharsLoaded`. */
  predicate AllCharsLoaded(chars: seq<char>, characterData: map<char, CharacterData>) {
    forall i :: 0 <= i < |chars| ==> chars[i] in characterData
  }

  // ---------------------------------------------------------------------------
  // The planner as the source writes it

  /** `calculatePageLayout`: the base rule by character count, then, while the
      flag is still set, one scan of the characters for a complex one and the
      tighter rule. */
  method CalculatePageLayout(chars: seq<char>, characterData: map<char, CharacterData>, settings: Settings)
    returns (layout: PageLayout)
    ensures layout.canFitInOnePage == FitsOnOnePage(chars, characterData, settings.gridCount, settings.tracingRows)
    ensures layout.canFitInOnePage ==> layout.pages == [chars]
    ensures !layout.canFitInOnePage ==> layout.pages == SingletonPages(chars)
    ensures Concat(layout.pages) == chars
  {
    if |chars| == 0 {
      assert SingletonPages(chars) == [];
      return NoPages;
    }
    var tracingRows := EffectiveRows(settings.tracingRows);
    var charCount := |chars|;
    var canFitInOnePage := false;
    if charCount == 3 {
      canFitInOnePage := tracingRows <= 2;
    } else if charCount == 2 {
      canFitInOnePage := tracingRows <= 4;
    } else if charCount == 1 {
      canFitInOnePage := tracingRows <= 8;
    } else if charCount >= 4 {
      canFitInOnePage := false;
    }
    assert canFitInOnePage == (tracingRows <= MaxRowsOnOnePage(charCount, false));

    if canFitInOnePage {
      var hasComplexCharacter := false;
      var i := 0;
      while i < |chars|
        invariant 0 <= i <= |chars|
        invariant hasComplexCharacter <==>
          exists j :: 0 <= j < i && chars[j] in characterData && IsComplex(characterData[chars[j]], settings.gridCount)
      {
        var c := chars[i];
        if c in characterData {
          var strokeCount := StrokeCount(characterData[c]);
          var gridsPerRow := settings.gridCount;
          if strokeCount > gridsPerRow {
            hasComplexCharacter := true;
          }
        }
        i := i + 1;
      }
      if hasComplexCharacter {
        if charCount == 3 && tracingRows > 1 {
          canFitInOnePage := false;
        } else if charCount == 2 && tracingRows > 3 {
          canFitInOnePage := false;
        } else if charCount == 1 && tracingRows > 6 {
          canFitInOnePage := false;
        }
      }
      assert hasComplexCharacter == HasComplexCharacter(chars, characterData, settings.gridCount);
    } else {
      ComplexOnlyTightens(charCount);
    }

    if canFitInOnePage {
      layout := PageLayout(true, [chars]);
      assert Concat([chars]) == chars + Concat([]);
    } else {
      layout := PageLayout(false, SingletonPages(chars));
      ConcatSingletonPages(chars);
    }
  }

  /** `pageLayout`: nothing to lay out for an empty name, nor while some
      character's data is missing; otherwise the planner's layout. */
  method PageLayoutFor(chars: seq<char>, characterData: map<char, CharacterData>, settings: Settings)
    returns (layout: PageLayout)
    ensures |chars| == 0 || !AllCharsLoaded(chars, characterData) ==> layout == NoPages
    ensures |chars| > 0 && AllCharsLoaded(chars, characterData) ==>
      && layout.canFitInOnePage == FitsOnOnePage(chars, characterData, settings.gridCount, settings.tracingRows)
      && (layout.canFitInOnePage ==> layout.pages == [chars])
      && (!layout.canFitInOnePage ==> layout.pages == SingletonPages(chars))
      && Concat(layout.pages) == chars
  {
    if |chars| == 0 || !AllCharsLoaded(chars, characterData) {
      return NoPages;
    }
    layout := CalculatePageLayout(chars, characterData, settings);
  }

  // ---------------------------------------------------------------------------
  // Properties of the rule

  /** The base rule: with no complex character, 1 character fits for at most
      8 passes, 2 for at most 4, 3 for at most 2, and none or 4 or more never. */
  lemma BaseFitRule(chars: seq<char>, characterData: map<char, CharacterData>, gridCount: int, tracingRows: int)
    requires !HasComplexCharacter(chars, characterData, gridCount)
    ensures FitsOnOnePage(chars, characterData, gridCount, tracingRows) <==>
      var r := EffectiveRows(tracingRows);
      || (|chars| == 1 && r <= 8)
      || (|chars| == 2 && r <= 4)
      || (|chars| == 3 && r <= 2)
  {
  }

  /** The tightened rule: with a complex character, 1 character fits for at
      most 6 passes, 2 for at most 3, 3 for at most 1. */
  lemma ComplexFitRule(chars: seq<char>, characterData: map<char, CharacterData>, gridCount: int, tracingRows: int)
    requires HasComplexCharacter(chars, characterData, gridCount)
    ensures FitsOnOnePage(chars, characterData, gridCount, tracingRows) <==>
      var r := EffectiveRows(tracingRows);
      || (|chars| == 1 && r <= 6)
      || (|chars| == 2 && r <= 3)
      || (|chars| == 3 && r <= 1)
  {
  }

  /** A complex character can only lower the limit. */
  lemma ComplexOnlyTightens(charCount: nat)
    ensures MaxRowsOnOnePage(charCount, true) <= MaxRowsOnOnePage(charCount, false)
  {
  }

  /** Fewer tracing passes never turn a one-page layout into a paginated one. */
  lemma FitMonotoneInRows(chars: seq<char>, characterData: map<char, CharacterData>, gridCount: int, rows: int, fewerRows: int)
    requires fewerRows <= rows
    requires FitsOnOnePage(chars, characterData, gridCount, rows)
    ensures FitsOnOnePage(chars, characterData, gridCount, fewerRows)
  {
  }

  /** A wider grid never turns a one-page layout into a paginated one: every
      character complex on the wider grid is complex on the narrower one. */
  lemma FitMonotoneInGrid(chars: seq<char>, characterData: map<char, CharacterData>, gridCount: int, widerGrid: int, tracingRows: int)
    requires gridCount <= widerGrid
    requires FitsOnOnePage(chars, characterData, gridCount, tracingRows)
    ensures FitsOnOnePage(chars, characterData, widerGrid, tracingRows)
  {
    if HasComplexCharacter(chars, characterData, widerGrid) {
      var i :| 0 <= i < |chars| && chars[i] in characterData && IsComplex(characterData[chars[i]], widerGrid);
      assert IsComplex(characterData[chars[i]], gridCount);
    }
  }

  lemma {:induction false} ConcatSingletonPages(chars: seq<char>)
    ensures Concat(SingletonPages(chars)) == chars
    decreases |chars|
  {
    if |chars| > 0 {
      ConcatSingletonPages(chars[1..]);
      assert SingletonPages(chars)[1..] == SingletonPages(chars[1..]);
    }
  }

  /** The pages partition the characters: read in order they give the
      character list back, every page holds at least one character, and a
      paginated layout has one page per character. */
  lemma PagesPartitionChars(chars: seq<char>, fit: bool)
    requires fit ==> |chars| > 0
    ensures var pages := if fit then [chars] else SingletonPages(chars);
      && Concat(pages) == chars
      && (forall p :: 0 <= p < |pages| ==> |pages[p]| >= 1)
      && |pages| == (if fit then 1 else |chars|)
  {
    if fit {
      assert Concat([chars]) == chars + Concat([]);
    } else {
      ConcatSingletonPages(chars);
    }
  }

  // ---------------------------------------------------------------------------
  // Worked scenarios

  /** One character of 20 strokes on a grid of 8 with 8 tracing rows is
      complex, so the limit is 6 and it gets a page of its own. */
  lemma ScenarioOneComplexCharacter(c: char, data: CharacterData)
    requires StrokeCount(data) == 20
    ensures !FitsOnOnePage([c], map[c := data], 8, 8)
  {
    assert HasComplexCharacter([c], map[c := data], 8) by {
      assert [c][0] == c;
    }
  }

  /** Three characters, one of them complex, with 2 tracing rows: the limit
      drops from 2 to 1 and every character gets its own page. */
  lemma ScenarioThreeCharactersOneComplex(chars: seq<char>, characterData: map<char, CharacterData>, gridCount: int, k: nat)
    requires |chars| == 3 && k < 3
    requires chars[k] in characterData && StrokeCount(characterData[chars[k]]) > gridCount
    ensures !FitsOnOnePage(chars, characterData, gridCount, 2)
  {
  }

  /** Five characters never share a page, whatever the settings. */
  lemma ScenarioFiveCharacters(chars: seq<char>, characterData: map<char, CharacterData>, gridCount: int, tracingRows: int)
    requires |chars| == 5
    ensures !FitsOnOnePage(chars, characterData, gridCount, tracingRows)
  {
  }
}
