/** The server actions of src/lib/actions.ts: character metadata from the
    pinyin/radical library with a dictionary fallback, and stroke data from the
    stroke-data service. The library calls and the fetch are not modelled:
    their outcomes are inputs. */
module Actions {
  import opened Wrappers
  import opened Types

  /** The sentinel for an unknown field. */
  const NotAvailable: string := "N/A"

  /** `/^[一-龥]$/.test(character)`: exactly one character, in the
      CJK Unified Ideographs range U+4E00 to U+9FA5. */
  predicate IsHanCharacter(character: string) {
    |character| == 1 && '\U{4E00}' <= character[0] <= '\U{9FA5}'
  }

  /** JavaScript truthiness of an optional string: present and non-empty. */
  predicate Truthy(s: Option<string>) {
    s.Some? && s.value != ""
  }

  /** `s || 'N/A'`. */
  function OrNotAvailable(s: Option<string>): (r: string)
    ensures Truthy(s) ==> r == s.value
    ensures !Truthy(s) ==> r == NotAvailable
  {
    if Truthy(s) then s.value else NotAvailable
  }

  /** One entry of the fallback dictionary (`Partial<CharacterDetails>`). */
  datatype DictionaryEntry = DictionaryEntry(
    pinyin: Option<seq<string>>,
    radical: Option<string>,
    structure: Option<string>)

  /** The fallback dictionary, keyed by character. */
  type Dictionary = map<string, DictionaryEntry>

  /** Every pinyin list the dictionary gives is non-empty (true of each
      entry the source's dictionary lists). */
  predicate WellFormedDictionary(dict: Dictionary) {
    forall c :: c in dict && dict[c].pinyin.Some? ==> |dict[c].pinyin.value| > 0
  }

  /** What `cnchar.spell(character, 'tone', 'array')` gave: an array, a
      string, anything else, or an exception. */
  datatype SpellResult = SpellArray(items: seq<string>) | SpellString(text: string) | SpellOther | SpellThrows

  /** One element of `cnchar.radical(character)`; `None` for a null element. */
  datatype RadicalEntry = RadicalEntry(radical: Option<string>, struct: Option<string>)

  /** What `cnchar.radical(character)` gave: an array, anything else, or an exception. */
  datatype RadicalResult = RadicalArray(entries: seq<Option<RadicalEntry>>) | RadicalOther | RadicalThrows

  /** The record for a character nothing is known about. */
  function Unknown(character: string): CharacterDetails {
    CharacterDetails(character, [NotAvailable], NotAvailable, NotAvailable)
  }

  /** The pinyin the library gives: a non-empty array as is, a non-empty
      string as a one-element list, otherwise `['N/A']`. */
  function LibraryPinyin(spell: SpellResult): (pinyin: seq<string>)
    ensures |pinyin| > 0
  {
    match spell
    case SpellArray(items) => if |items| > 0 then items else [NotAvailable]
    case SpellString(text) => if text != "" then [text] else [NotAvailable]
    case _ => [NotAvailable]
  }

  /** The radical the library gives: from the first entry, `'N/A'` when
      absent, empty or on exception. */
  function LibraryRadical(radicals: RadicalResult): string {
    match radicals
    case RadicalArray(entries) =>
      if |entries| > 0 && entries[0].Some? then OrNotAvailable(entries[0].value.radical) else NotAvailable
    case _ => NotAvailable
  }

  /** The structure the library gives, read like the radical. */
  function LibraryStructure(radicals: RadicalResult): string {
    match radicals
    case RadicalArray(entries) =>
      if |entries| > 0 && entries[0].Some? then OrNotAvailable(entries[0].value.struct) else NotAvailable
    case _ => NotAvailable
  }

  /** A library field that is still `'N/A'` takes the dictionary's value
      when that value is truthy. */
  function FillField(value: string, fallback: Option<string>): (r: string)
    ensures value != NotAvailable ==> r == value
    ensures value == NotAvailable ==> r == OrNotAvailable(fallback)
  {
    if value == NotAvailable && Truthy(fallback) then fallback.value else value
  }

  /** The details of a character, as a value: the script gate, then either
      the dictionary alone (after an exception reached the outer handler) or
      the library answers with the dictionary filling the fields still
      `'N/A'`. */
  function CharacterDetailsFor(character: string, spell: SpellResult, radicals: RadicalResult,
                               unhandledFailure: bool, dict: Dictionary): (details: CharacterDetails)
    ensures details.character == character
    ensures !IsHanCharacter(character) ==> details == Unknown(character)
    ensures WellFormedDictionary(dict) ==> |details.pinyin| > 0
    ensures IsHanCharacter(character) && character !in dict ==>
      details == if unhandledFailure then Unknown(character)
                 else CharacterDetails(character, LibraryPinyin(spell), LibraryRadical(radicals), LibraryStructure(radicals))
  {
    if !IsHanCharacter(character) then Unknown(character)
    else if character !in dict then
      if unhandledFailure then Unknown(character)
      else CharacterDetails(character, LibraryPinyin(spell), LibraryRadical(radicals), LibraryStructure(radicals))
    else
      var entry := dict[character];
      if unhandledFailure then
        CharacterDetails(character, entry.pinyin.GetOr([NotAvailable]),
                         OrNotAvailable(entry.radical), OrNotAvailable(entry.structure))
      else
        var pinyin := LibraryPinyin(spell);
        CharacterDetails(character,
                         if pinyin[0] == NotAvailable && entry.pinyin.Some? then entry.pinyin.value else pinyin,
                         FillField(LibraryRadical(radicals), entry.radical),
                         FillField(LibraryStructure(radicals), entry.structure))
  }

  /** Without an outer failure, a library value other than `'N/A'` is kept,
      and a dictionary entry fills only the fields the library left `'N/A'`. */
  lemma LibraryValuesWinOverDictionary(character: string, spell: SpellResult, radicals: RadicalResult, dict: Dictionary)
    requires IsHanCharacter(character) && character in dict
    ensures var details := CharacterDetailsFor(character, spell, radicals, false, dict);
      var entry := dict[character];
      && (LibraryPinyin(spell)[0] != NotAvailable ==> details.pinyin == LibraryPinyin(spell))
      && (LibraryPinyin(spell)[0] == NotAvailable ==> details.pinyin == entry.pinyin.GetOr(LibraryPinyin(spell)))
      && (LibraryRadical(radicals) != NotAvailable ==> details.radical == LibraryRadical(radicals))
      && (LibraryRadical(radicals) == NotAvailable ==> details.radical == OrNotAvailable(entry.radical))
      && (LibraryStructure(radicals) != NotAvailable ==> details.structure == LibraryStructure(radicals))
      && (LibraryStructure(radicals) == NotAvailable ==> details.structure == OrNotAvailable(entry.structure))
  {
  }

  /** `getCharacterDetailsFromCnchar`. `unhandledFailure` stands for an
      exception that escapes the two inner handlers and reaches the outer
      one, which then answers from the dictionary alone. */
  method GetCharacterDetailsFromCnchar(character: string, spell: SpellResult, radicals: RadicalResult,
                                       unhandledFailure: bool, dict: Dictionary)
    returns (details: CharacterDetails)
    ensures details == CharacterDetailsFor(character, spell, radicals, unhandledFailure, dict)
    ensures details.character == character
    ensures !IsHanCharacter(character) ==> details == Unknown(character)
    ensures WellFormedDictionary(dict) ==> |details.pinyin| > 0
    // the library answer, with the dictionary filling only fields still 'N/A'
    ensures IsHanCharacter(character) && !unhandledFailure ==>
      var entry := if character in dict then Some(dict[character]) else None;
      && (LibraryPinyin(spell)[0] != NotAvailable ==> details.pinyin == LibraryPinyin(spell))
      && (LibraryPinyin(spell)[0] == NotAvailable ==>
            details.pinyin == if entry.Some? && entry.value.pinyin.Some? then entry.value.pinyin.value
                              else LibraryPinyin(spell))
      && (LibraryRadical(radicals) != NotAvailable ==> details.radical == LibraryRadical(radicals))
      && (LibraryRadical(radicals) == NotAvailable ==>
            details.radical == if entry.Some? then OrNotAvailable(entry.value.radical) else NotAvailable)
      && (LibraryStructure(radicals) != NotAvailable ==> details.structure == LibraryStructure(radicals))
      && (LibraryStructure(radicals) == NotAvailable ==>
            details.structure == if entry.Some? then OrNotAvailable(entry.value.structure) else NotAvailable)
    // the outer handler: dictionary fields with 'N/A' defaults, or all 'N/A'
    ensures IsHanCharacter(character) && unhandledFailure ==>
      details == if character in dict then
                   CharacterDetails(character, dict[character].pinyin.GetOr([NotAvailable]),
                                    OrNotAvailable(dict[character].radical),
                                    OrNotAvailable(dict[character].structure))
                 else Unknown(character)
  {
    if !IsHanCharacter(character) {
      return Unknown(character);
    }

    if !unhandledFailure {
      var pinyin: seq<string> := [NotAvailable];
      var radical := NotAvailable;
      var structure := NotAvailable;

      match spell {
        case SpellArray(items) =>
          if |items| > 0 {
            pinyin := items;
          }
        case SpellString(text) =>
          if text != "" {
            pinyin := [text];
          }
        case _ =>
      }

      match radicals {
        case RadicalArray(entries) =>
          if |entries| > 0 {
            var first := entries[0];
            radical := if first.Some? then OrNotAvailable(first.value.radical) else NotAvailable;
            structure := if first.Some? then OrNotAvailable(first.value.struct) else NotAvailable;
          }
        case _ =>
      }

      if character in dict {
        var fallbackData := dict[character];
        if pinyin[0] == NotAvailable && fallbackData.pinyin.Some? {
          pinyin := fallbackData.pinyin.value;
        }
        if radical == NotAvailable && Truthy(fallbackData.radical) {
          radical := fallbackData.radical.value;
        }
        if structure == NotAvailable && Truthy(fallbackData.structure) {
          structure := fallbackData.structure.value;
        }
      }

      return CharacterDetails(character, pinyin, radical, structure);
    } else {
      if character in dict {
        var fallbackData := dict[character];
        return CharacterDetails(character, fallbackData.pinyin.GetOr([NotAvailable]),
                                OrNotAvailable(fallbackData.radical), OrNotAvailable(fallbackData.structure));
      }
      return Unknown(character);
    }
  }

  // ---------------------------------------------------------------------------
  // Stroke data

  /** The body of a successful stroke-data response; a field the JSON lacks is `None`. */
  datatype StrokeJson = StrokeJson(strokes: Option<seq<string>>, medians: Option<seq<seq<seq<real>>>>)

  /** How the request to the stroke-data service ended: the request threw, the
      response was not ok, its body was not JSON, or it was. */
  datatype FetchOutcome =
    | RequestFailed
    | NotOk(status: int)
    | MalformedBody
    | Ok(body: StrokeJson)

  /** `{ strokes: [], medians: [] }`. */
  const EmptyStrokeData := StrokeData(Some([]), Some([]))

  /** `getCharacterStrokeSVGs`: a failed request, a non-ok response or an
      unreadable body give empty stroke data (never an error); a readable body
      is passed through. */
  function GetCharacterStrokeSVGs(outcome: FetchOutcome): (data: StrokeData)
    ensures !outcome.Ok? ==> data == EmptyStrokeData && data.strokes == Some([])
    ensures outcome.Ok? ==> data.strokes == outcome.body.strokes && data.medians == outcome.body.medians
  {
    match outcome
    case Ok(body) => StrokeData(body.strokes, body.medians)
    case _ => EmptyStrokeData
  }

  /** `getCharacterData`: the stroke data and the details of one character. */
  method GetCharacterData(character: string, outcome: FetchOutcome, spell: SpellResult,
                          radicals: RadicalResult, unhandledFailure: bool, dict: Dictionary)
    returns (data: CharacterData)
    ensures data.details == CharacterDetailsFor(character, spell, radicals, unhandledFailure, dict)
    ensures data.details.character == character
    ensures data.strokesData == GetCharacterStrokeSVGs(outcome)
    ensures !outcome.Ok? ==> StrokeCount(data) == 0
    ensures WellFormedDictionary(dict) ==> |data.details.pinyin| > 0
  {
    var strokesData := GetCharacterStrokeSVGs(outcome);
    var details := GetCharacterDetailsFromCnchar(character, spell, radicals, unhandledFailure, dict);
    data := CharacterData(details, strokesData);
  }
}
