/** The per-character data cache of the worksheet (the fetch effect of
    src/components/WorksheetPreview.tsx): which characters are requested, and
    how the answers are merged into a fresh copy of the map. */
module CharacterCache {
  import opened Wrappers
  import opened Types
  import PageLayout

  /** `uniqueChars.filter(char => !characterDataMap.has(char))`. */
  function NewChars(chars: seq<char>, cache: map<char, CharacterData>): (requested: seq<char>)
    ensures forall c :: c in requested <==> c in chars && c !in cache
    ensures |requested| <= |chars|
    decreases |chars|
  {
    if |chars| == 0 then []
    else (if chars[0] in cache then [] else [chars[0]]) + NewChars(chars[1..], cache)
  }

  /** Filtering keeps distinct characters distinct. */
  lemma {:induction false} NewCharsDistinct(chars: seq<char>, cache: map<char, CharacterData>)
    requires forall i, j :: 0 <= i < j < |chars| ==> chars[i] != chars[j]
    ensures forall i, j :: 0 <= i < j < |NewChars(chars, cache)| ==> NewChars(chars, cache)[i] != NewChars(chars, cache)[j]
    decreases |chars|
  {
    if |chars| > 0 {
      NewCharsDistinct(chars[1..], cache);
      assert chars[0] !in chars[1..];
    }
  }

  /** The characters whose answer is non-null. */
  function Answered(chars: seq<char>, results: seq<Option<CharacterData>>): set<char>
    requires |results| == |chars|
  {
    set i | 0 <= i < |chars| && results[i].Some? :: chars[i]
  }

  /** The state-update callback: copy the previous map and store every
      non-null answer under the character it was requested for
      (`results[i]` answers `newChars[i]`, as `Promise.all` keeps order). */
  method MergeResults(prevMap: map<char, CharacterData>, newChars: seq<char>, results: seq<Option<CharacterData>>)
    returns (newMap: map<char, CharacterData>)
    requires |results| == |newChars|
    ensures newMap.Keys == prevMap.Keys + Answered(newChars, results)
    ensures forall c :: c in prevMap && c !in Answered(newChars, results) ==> newMap[c] == prevMap[c]
    ensures (forall i, j :: 0 <= i < j < |newChars| ==> newChars[i] != newChars[j]) ==>
      forall i :: 0 <= i < |newChars| && results[i].Some? ==> newMap[newChars[i]] == results[i].value
  {
    newMap := prevMap;
    var index := 0;
    while index < |results|
      invariant 0 <= index <= |results|
      invariant newMap.Keys == prevMap.Keys + Answered(newChars[..index], results[..index])
      invariant forall c :: c in prevMap && c !in Answered(newChars[..index], results[..index]) ==> newMap[c] == prevMap[c]
      invariant (forall i, j :: 0 <= i < j < |newChars| ==> newChars[i] != newChars[j]) ==>
        forall i :: 0 <= i < index && results[i].Some? ==> newMap[newChars[i]] == results[i].value
    {
      var data := results[index];
      if data.Some? {
        newMap := newMap[newChars[index] := data.value];
      }
      assert Answered(newChars[..index + 1], results[..index + 1])
          == Answered(newChars[..index], results[..index]) + (if data.Some? then {newChars[index]} else {});
      index := index + 1;
    }
    assert newChars[..index] == newChars && results[..index] == results;
  }

  /** Once every requested character has been answered, every character of the
      name has data, which is what lets the page planner run. */
  lemma MergeLoadsEveryCharacter(chars: seq<char>, prevMap: map<char, CharacterData>,
                                 results: seq<Option<CharacterData>>, newMap: map<char, CharacterData>)
    requires |results| == |NewChars(chars, prevMap)|
    requires forall i :: 0 <= i < |results| ==> results[i].Some?
    requires newMap.Keys == prevMap.Keys + Answered(NewChars(chars, prevMap), results)
    ensures PageLayout.AllCharsLoaded(chars, newMap)
  {
    var requested := NewChars(chars, prevMap);
    forall i | 0 <= i < |chars|
      ensures chars[i] in newMap
    {
      if chars[i] !in prevMap {
        var k :| 0 <= k < |requested| && requested[k] == chars[i];
        assert chars[i] in Answered(requested, results);
      }
    }
  }
}
