# StreetComplete element-filter scanner and building-entrance quest, in Dafny

This project models two pieces of StreetComplete's map-data querying:

* `StringWithCursor`, the forward-only scanner the element-filter parser is written on.
  It holds an immutable text and one mutable cursor position. The position starts at 0,
  only moves forward and never leaves `0..|text|`. Queries look at the text at the cursor
  (next character or string, with or without case, next regex match, distance to the
  next occurrence, the previous character). The remaining operations consume text.
* The `AddEntrance` quest type. It selects the nodes to ask about by joining node-id sets
  built from three way filters with a fourth, per-node filter. It also writes the user's
  answer into a node's tag map.

Files and modules:

| file | module | what it holds |
|---|---|---|
| `wrappers.dfy` | `Wrappers` | `Option`, for Kotlin's nullable results |
| `kotlin_text.dfy` | `KotlinText` | the library string operations the scanner uses: `startsWith` at an index, `indexOf` of a character or a string from an index (Java's clamping of the start index included), ASCII `lowercase`/`uppercase` |
| `string_with_cursor.dfy` | `ElementFilter` | the class `StringWithCursor`; a lemma about a series of `advanceBy` calls; a lemma that mixed-case strings are not matched ignoring case |
| `osm_map_data.dfy` | `OsmMapData` | nodes, ways, relations, map data, a filter as `ElementMatcher = Element -> bool`, and `MutableTags`, a tag map changed in place |
| `add_entrance.dfy` | `BuildingEntrance` | candidate selection, `isApplicableTo`, and the answer's tag update |

The scanner is a class. `text` is a `const`, `cursorPos` a `var nat`, and `Valid()` is
`cursorPos <= |text|`. Every read-only operation is a function with `reads this`, so no
query can move the cursor. Every consuming operation is a method with `modifies this`.
Its postcondition gives the new position in terms of the old one, says what was returned,
and re-establishes `Valid()`. The private `toDelta` is `ToDelta`: a "not found" (-1)
becomes the distance to the end. Both `FindNext` contracts state its effect on a search.

The three ways the source can throw are preconditions here. They are `advance` at the end,
`advanceBy` with a negative length, and `previousIs` at position 0. Each is an index out
of bounds in the string access or `substring` call. The doc comments of `advance` and
`advanceBy` name that exception. `previousIs` has no doc comment; it reads `string[cursorPos - 1]`.

The quest's four filter expressions (`withoutEntranceFilter`, `buildingWaysFilter`,
`incomingWaysFilter`, `excludedWaysFilter`) are parameters of type `Element -> bool`.
Nothing is assumed about what they match. The three `flatMapTo` passes become
`CollectNodeIds`, a loop over the ways, proved against the ghost predicate `OnMatchingWay`.
The final node filter is a loop over the nodes, proved against the ghost specification
`Candidates` / `IsCandidate`.

Three points about the source:
* `nextMatchesAndAdvance` advances by `|value|` through `advanceBy`. The model assumes
  nothing about the `Finder`. So its contract clamps the advance to the end of the text.
  It gives the exact consumed text only when `value` is what the text holds at the cursor.
* `findNext(c, offs)` with a negative `offs` can return a negative distance, because the
  library search clamps its start to 0.
* `nextIsIgnoreCase` tests only `str.lowercase()` and `str.uppercase()`. The doc comment
  above `nextIsAndAdvanceIgnoreCase` says "str or str.uppercase()". The model follows the
  code, so a mixed-case `str` does not match even the same text at the cursor
  (`MixedCaseDoesNotMatchItself`).

## Model

| member | source | states |
|---|---|---|
| `ElementFilter.StringWithCursor.constructor` | app/src/main/java/de/westnordost/streetcomplete/data/elementfilter/StringWithCursor.kt:6-7 | the scanner starts at position 0 on the given text, inside its bounds |
| `ElementFilter.StringWithCursor.CharAtCursor` | app/src/main/java/de/westnordost/streetcomplete/data/elementfilter/StringWithCursor.kt:10-11 | no character exactly at the end; otherwise the character under the cursor |
| `ElementFilter.StringWithCursor.NextIsAndAdvance` | app/src/main/java/de/westnordost/streetcomplete/data/elementfilter/StringWithCursor.kt:15-19 | true iff the rest of the text starts with `str`; on true the cursor moves by `|str|` past exactly `str`, on false nothing changes |
| `ElementFilter.StringWithCursor.NextIsAndAdvanceChar` | app/src/main/java/de/westnordost/streetcomplete/data/elementfilter/StringWithCursor.kt:21-25 | true iff `c` is under the cursor; on true the cursor moves by one and the previous character is then `c`, on false nothing changes |
| `ElementFilter.StringWithCursor.NextIsAndAdvanceIgnoreCase` | app/src/main/java/de/westnordost/streetcomplete/data/elementfilter/StringWithCursor.kt:31-35 | true iff the rest starts with the lower- or upper-case form of `str`; on true the cursor moves by `|str|`, on false nothing changes |
| `ElementFilter.StringWithCursor.IsAtEnd` | app/src/main/java/de/westnordost/streetcomplete/data/elementfilter/StringWithCursor.kt:38 | true iff at most `x` characters remain; with `x = 0`, true iff there is no character under the cursor |
| `ElementFilter.StringWithCursor.FindNext` | app/src/main/java/de/westnordost/streetcomplete/data/elementfilter/StringWithCursor.kt:39 | distance in `0..|text| - cursorPos` to the first occurrence of `str` at or after the cursor; no occurrence before it; the distance to the end when there is none |
| `ElementFilter.StringWithCursor.FindNextChar` | app/src/main/java/de/westnordost/streetcomplete/data/elementfilter/StringWithCursor.kt:40 | distance to the first `c` at or after `cursorPos + offs` (start clamped to 0), or to the end when there is none; in `0..|text| - cursorPos` when `offs >= 0` |
| `ElementFilter.StringWithCursor.Advance` | app/src/main/java/de/westnordost/streetcomplete/data/elementfilter/StringWithCursor.kt:46-50 | needs a character under the cursor; returns it, moves the cursor by one, and that character is then the previous one |
| `ElementFilter.StringWithCursor.AdvanceBy` | app/src/main/java/de/westnordost/streetcomplete/data/elementfilter/StringWithCursor.kt:58-69 | needs `x >= 0`; new position `min(old + x, |text|)`; returns exactly the text between old and new position, of length `min(x, |text| - old)`; overrunning the end is no error |
| `ElementFilter.PositionAfterIsSum` | app/src/main/java/de/westnordost/streetcomplete/data/elementfilter/StringWithCursor.kt:58-69 | a series of advances by `x1, x2, …` ends at `min(start + Σxi, |text|)`, the same as one advance by the sum |
| `ElementFilter.StringWithCursor.PreviousIs` | app/src/main/java/de/westnordost/streetcomplete/data/elementfilter/StringWithCursor.kt:71 | needs position > 0; true iff the last consumed character is `c` |
| `ElementFilter.StringWithCursor.NextIsChar` | app/src/main/java/de/westnordost/streetcomplete/data/elementfilter/StringWithCursor.kt:72 | true iff the rest of the text starts with `c`; always false at the end |
| `ElementFilter.StringWithCursor.NextIs` | app/src/main/java/de/westnordost/streetcomplete/data/elementfilter/StringWithCursor.kt:73 | true iff `str` is a prefix of the rest of the text |
| `ElementFilter.StringWithCursor.NextIsIgnoreCase` | app/src/main/java/de/westnordost/streetcomplete/data/elementfilter/StringWithCursor.kt:74-75 | true iff the rest of the text starts with the all-lower-case or the all-upper-case form of `str` |
| `ElementFilter.MixedCaseDoesNotMatchItself` | app/src/main/java/de/westnordost/streetcomplete/data/elementfilter/StringWithCursor.kt:74-75 | a `str` with both an upper- and a lower-case ASCII letter is not matched ignoring case, even where the text at the cursor starts with `str` itself |
| `ElementFilter.StringWithCursor.NextMatches` | app/src/main/java/de/westnordost/streetcomplete/data/elementfilter/StringWithCursor.kt:77-81 | a match is returned iff the search from the cursor finds one starting exactly at the cursor, and then it is that match |
| `ElementFilter.StringWithCursor.NextMatchesAndAdvance` | app/src/main/java/de/westnordost/streetcomplete/data/elementfilter/StringWithCursor.kt:83-87 | returns what `NextMatches` returned before; no match leaves the cursor alone; a match moves it by the match's length, clamped to the end, and past exactly the matched text when that text is at the cursor |
| `ElementFilter.StringWithCursor.ToString` | app/src/main/java/de/westnordost/streetcomplete/data/elementfilter/StringWithCursor.kt:93-94 | one character longer than the text; the marker `►` sits at the cursor position; removing it gives back the text |
| `ElementFilter.StringWithCursor.ToDelta` | app/src/main/java/de/westnordost/streetcomplete/data/elementfilter/StringWithCursor.kt:89-90 | a search result -1 becomes the distance to the end of the text, any other index the distance from the cursor to it; the `FindNext` and `FindNextChar` contracts state what this means for a search |
| `ElementFilter.IndexOfStringAsPrefix` | app/src/main/java/de/westnordost/streetcomplete/data/elementfilter/StringWithCursor.kt:39 | the string search from `from` finds a place where the needle is a prefix of the rest, and there is no such place before it |
| `KotlinText.StartsWithAt` | app/src/main/java/de/westnordost/streetcomplete/data/elementfilter/StringWithCursor.kt:73 | `startsWith(prefix, at)` holds iff `at` is inside the text and `prefix` is a prefix of `text[at..]` |
| `KotlinText.Lowercase` | app/src/main/java/de/westnordost/streetcomplete/data/elementfilter/StringWithCursor.kt:75 | `lowercase()` on ASCII: same length, each upper-case ASCII letter lowered, every other character kept |
| `KotlinText.Uppercase` | app/src/main/java/de/westnordost/streetcomplete/data/elementfilter/StringWithCursor.kt:75 | `uppercase()` on ASCII: same length, each lower-case ASCII letter raised, every other character kept |
| `KotlinText.IndexOfChar` | app/src/main/java/de/westnordost/streetcomplete/data/elementfilter/StringWithCursor.kt:40 | `indexOf(c, from)`: -1 or the first index at or after `max(from, 0)` holding `c` |
| `KotlinText.IndexOfString` | app/src/main/java/de/westnordost/streetcomplete/data/elementfilter/StringWithCursor.kt:39 | `indexOf(t, from)`: -1 or the first index at or after the clamped `from` where `t` starts |
| `BuildingEntrance.CollectNodeIds` | app/src/main/java/de/westnordost/streetcomplete/quests/building_entrance/AddEntrance.kt:39-52 | the collected set holds exactly the ids on some way the filter accepts; only ways contribute |
| `BuildingEntrance.GetApplicableElements` | app/src/main/java/de/westnordost/streetcomplete/quests/building_entrance/AddEntrance.kt:38-59 | the result is a node iff that node is in the map data, lies on an accepted building way and on an accepted incoming way, lies on no excluded way, and passes the node filter; it keeps the map data's order; relations are never read |
| `BuildingEntrance.CandidatesExactly` | app/src/main/java/de/westnordost/streetcomplete/quests/building_entrance/AddEntrance.kt:54-58 | a node is selected iff it is among the nodes and meets all four conditions (soundness and completeness) |
| `BuildingEntrance.CandidatesInOrder` | app/src/main/java/de/westnordost/streetcomplete/quests/building_entrance/AddEntrance.kt:54-58 | the selected nodes are a subsequence of the nodes, in their original order |
| `BuildingEntrance.IsApplicableTo` | app/src/main/java/de/westnordost/streetcomplete/quests/building_entrance/AddEntrance.kt:61-62 | false exactly when the node filter rejects the element, unknown otherwise, never true |
| `BuildingEntrance.CandidatesNotRuledOut` | app/src/main/java/de/westnordost/streetcomplete/quests/building_entrance/AddEntrance.kt:61-62 | a node the quest selects is never answered `false` by `isApplicableTo` |
| `BuildingEntrance.WithAnswer` | app/src/main/java/de/westnordost/streetcomplete/quests/building_entrance/AddEntrance.kt:66-71 | a dead end sets `noexit=yes`, an entrance sets `entrance=<osmValue>`; the key set only gains that key; every other key keeps its value |
| `BuildingEntrance.WithAnswerIdempotent` | app/src/main/java/de/westnordost/streetcomplete/quests/building_entrance/AddEntrance.kt:66-71 | giving the same answer twice leaves the same tags as giving it once |
| `BuildingEntrance.ApplyAnswerTo` | app/src/main/java/de/westnordost/streetcomplete/quests/building_entrance/AddEntrance.kt:66-71 | the tag map is changed in place to the map `WithAnswer` describes and nothing else is modified |
| `OsmMapData.MutableTags.Set` | app/src/main/java/de/westnordost/streetcomplete/quests/building_entrance/AddEntrance.kt:68-69 | `tags[key] = value` sets that one key and leaves every other entry as it was |

## Left out

- Regular expressions: `Regex.find` and `MatchResult` are library code. A pattern is a `Finder`, a function `(text, startIndex) -> Option<RegexMatch(first, value)>`. Nothing is assumed about it, so the match text need not be what the text holds at `first`.
- Unicode case mapping: `lowercase()`/`uppercase()` are modelled for ASCII letters only. In full Unicode a case mapping can change the length of a string. The source then still advances by `|str|`, and this model cannot show that.
- 32-bit `Int` arithmetic: positions and offsets are unbounded integers. Wrap-around of `cursorPos + x` in `isAtEnd`, `advanceBy` and `findNext` is not modelled. It depends on the argument, not on the length of the text: `isAtEnd(Int.MAX_VALUE)` at position 1 wraps and answers false on any text, where the model answers true.
- ElementFilter.StringWithCursor.AdvanceBy: for an `x` so large that `cursorPos + x` overflows, the source computes a negative end and throws. The model clamps to the end instead.
- UTF-16 code units: a Kotlin `String` is a sequence of UTF-16 code units, while a Dafny `string` is a sequence of Unicode scalar values, so the model has no surrogate halves. For text outside the Basic Multilingual Plane the source's `string.length` and every cursor position differ from the model's; there `advance()` can return a lone surrogate and `toString()` can put `►` between the two halves of a pair, which the model cannot show.
- The filter-expression parser, evaluator and compiled-filter cache (`toElementFilterExpression`, `matches`): their sources are not part of this model. The four filters stay uninterpreted predicates.
- Kotlin `by lazy` initialisation of the filters: its point is thread-safe deferred construction, which is concurrency. The filters are plain parameters here.
- Android and presentation members of `AddEntrance`: `changesetComment`, `wikiLink`, `icon`, `questTypeAchievements`, `getTitle` and `createForm`. They are resource lookups and UI with no logic.
- Geometry: `MapDataWithGeometry` is modelled as plain sequences of nodes, ways and relations. The quest never reads positions.
- `EntranceAnswer.kt` and the list of entrance kinds are not part of this model. An entrance answer is represented only by the `osmValue` string it writes.
- `timestampEdited` is accepted by `ApplyAnswerTo` and unused, as in the source.
