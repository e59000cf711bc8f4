# varsomdata observation client, string helpers and column-test summary, in Dafny

This project models three groups of pure logic from the varsomdata
repository (NVE's tools for the Regobs and Varsom services).

- **Building observations for Regobs** (`varsomdata/submitobservations.py`):
  - the validated value objects `Position`, `Elevation` and `Expositions`;
  - the observation builders `DangerSign`, `AvalancheObs`,
    `AvalancheActivity`, `Weather`, `SnowCover`, `Incident`, `Note` and
    `Url`. Each builder refuses an empty record, converts a few values and
    drops the `None` entries;
  - the `SnowRegistration` record with its add/set methods;
  - the part of `Connection.submit` that runs before any network call. It
    refuses a registration without observations and drops the falsy
    top-level entries.
- **String helpers** (`utilities/fencoding.py`): `remove_norwegian_letters`,
  `make_standard_file_name`, `text_cleanup` and `make_str`.
- **Column-test summaries** (`varsomscripts/testsandprofiles.py`):
  - `_str`;
  - the test kind and the propagation class read from a result name;
  - the lookup of the stratigraphy layer a fracture ran in, with its
    neighbours;
  - the 22-column dictionary and its `;`-separated CSV row.

Each Python class becomes an immutable datatype and each constructor a pure
function. A constructor that can raise returns a `Result`, and an exception
becomes a `Failure` with an `Errors` member; `AvalancheObs`, `Note`, `Url`
and `SnowRegistration` cannot fail and return their value directly. A JSON dictionary becomes `map<Key, Value>`. `Key` is an
enumeration of the wire names, because the client never writes any other
key. Strings are `seq<char>`. The Python `str` methods that the code calls
(`strip`, `replace`, `split`, `join`, `in`, `endswith`) are defined in
module `Strings` and given contracts there.

The model keeps these behaviours of the code as written:

- `Elevation` rounds `max(elev, elev)`, so the first exported height is
  `elev` rounded to hundreds whatever the secondary value is.
- Python's `round(x, -2)` rounds halves to the even hundred.
- `AvalancheActivity` counts `quantity` among the attributes checked
  against NO_ACTIVITY, so reporting NO_ACTIVITY always fails.
- `AvalancheActivity` reads `expositions.exp` without a check for `None`,
  so a missing `expositions` fails with an `AttributeError`.
- In `text_cleanup` the final `strip()` is indented into the period branch,
  so a text without a period keeps its leading whitespace.

The modules follow the source:

- `Wrappers` and `Errors`: Option, Result and the exception classes.
- `Strings`: the Python string methods.
- `Payload`: keys, values, `Observation`'s `None` filter and the truthiness
  filter of `submit`.
- `ValueObjects`: position, elevation, expositions and directions.
- `DangerSigns`, `AvalancheObservations`, `AvalancheActivities`,
  `WeatherObservations`, `SnowCovers`, `Incidents` and `Notes`: one builder
  each.
- `Registrations`: `SnowRegistration` and `submit`.
- `Fencoding`: the string helpers.
- `TestsAndProfiles`: the column-test summary.

## Model

| member | source | states |
|---|---|---|
| ValueObjects.NewPosition | varsomdata/submitobservations.py:520-526 | succeeds exactly when -90 ≤ lat ≤ 90 and -180 ≤ lon ≤ 180 (bounds included) and keeps both values unchanged; otherwise fails with SpatialError |
| ValueObjects.RoundHundreds | varsomdata/submitobservations.py:546-547 | `round(x, -2)`: the result is a multiple of 100 within 50 of x, and a tie goes to the even hundred |
| ValueObjects.RoundHundredsMonotone | varsomdata/submitobservations.py:546-548 | rounding to hundreds preserves order, which is why the second height never rises above the first |
| ValueObjects.NewElevation | varsomdata/submitobservations.py:536-557 | fails with ElevationError exactly when a value is outside 0..2500, ABOVE/BELOW get a secondary value or SANDWICH/MIDDLE lack one; without a secondary value the heights are (elev, None); with one, both are multiples of 100, the second is strictly below the first, the first is `elev` rounded, and the second is the lower of the two values rounded, less 100 when it equals the first |
| ValueObjects.ElevationIgnoresHigherSecondary | varsomdata/submitobservations.py:545-548 | because of `max(elev, elev)`, a secondary value above `elev` gives heights round(elev) and round(elev) - 100; SANDWICH 500..1500 exports 500 and 400 |
| ValueObjects.ExpositionBits | varsomdata/submitobservations.py:560-564 | the bit string has 8 slots, and slot i is '1' exactly when some given direction has value i, otherwise '0' |
| ValueObjects.ExpositionsIgnoreOrder | varsomdata/submitobservations.py:560-575 | two direction lists with the same members give the same bit string, whatever their order or repetitions |
| ValueObjects.NorthSouthExpositions | varsomdata/submitobservations.py:560-575 | N and S give "10001000" |
| Payload.Observe | varsomdata/submitobservations.py:170-172 | `Observation`: exactly the entries whose value is not `None` remain, with their values, so 0 and `[]` survive |
| Payload.ObserveKeeps | varsomdata/submitobservations.py:170-172 | an entry given to `Observation` is carried over as it is, or dropped if it is `None` |
| Payload.Filter | varsomdata/submitobservations.py:69 | the dictionary comprehension keeps exactly the entries whose value passes the test, with their values |
| Payload.FilterShrinks | varsomdata/submitobservations.py:69 | filtering never adds entries, and leaves unchanged a dictionary whose values all pass |
| Payload.AppendTo | varsomdata/submitobservations.py:485-487 | `d[k].append(item)`: the list under k grows by the item at its end, the keys stay the same and every other entry is unchanged |
| Payload.Code | varsomdata/submitobservations.py:175-197 | a given enumeration member becomes exactly its code, and the value is `None` exactly when the member is absent |
| DangerSigns.NewDangerSign | varsomdata/submitobservations.py:187-197 | fails with NoObservationError exactly when sign and comment are both missing; a missing sign is exported as DangerSignTID 0 and kept; the comment is kept when given; no entry is `None` and no other key appears |
| AvalancheObservations.NewAvalancheObs | varsomdata/submitobservations.py:245-276 | never fails; the release time is always exported; a start/stop position exports its latitude and longitude, and a direction exports its one-slot exposition bit string; the fracture height is kept when given; no entry is `None` |
| AvalancheActivities.TimeframeTimes | varsomdata/submitobservations.py:328-334 | each window starts before it ends and lies within the day; a given timeframe spans at most six hours |
| AvalancheActivities.QuarterTimes | varsomdata/submitobservations.py:329-333 | each row of the table for a token starts before it ends and spans at most six hours |
| AvalancheActivities.TimeframesTileTheDay | varsomdata/submitobservations.py:328-334 | the four windows follow each other without gap or overlap from 00:00 to 23:59, which is the window used without a timeframe; 6-12 is 06:00–12:00 and 12-18 ends at 18:00 |
| AvalancheActivities.NewAvalancheActivity | varsomdata/submitobservations.py:314-351 | quantity NO_ACTIVITY always fails with NoObservationError; otherwise a missing `expositions` fails with AttributeError; it succeeds exactly when neither happens, with the activity's fields |
| AvalancheActivities.ActivityFields | varsomdata/submitobservations.py:328-351 | the start and end times are the timeframe's window on the given date; the exposition bits, the quantity and type codes and the elevation heights are kept; no entry is `None` |
| WeatherObservations.NewWeather | varsomdata/submitobservations.py:364-384 | fails with NoObservationError when every argument is missing, otherwise with PercentError when the cloud cover is outside 0..100, and succeeds exactly when neither applies; the wind direction becomes 45 × its octant; cloud cover, temperature, wind speed, precipitation and comment are kept when given; no entry is `None` and no key outside those six appears |
| SnowCovers.NewSnowCover | varsomdata/submitobservations.py:415-440 | fails with NoObservationError exactly when every argument is missing; otherwise the exported dictionary is the fields below |
| SnowCovers.SnowCoverFields | varsomdata/submitobservations.py:429-440 | the new snow and snow depths are present exactly when given, exported in metres (100 × value = centimetres); the snow lines and layered-snow limit are kept when given; no entry is `None` |
| Incidents.NewIncident | varsomdata/submitobservations.py:470-483 | fails with NoObservationError exactly when activity, extent and comment are all missing; otherwise starts with an empty list of links and keeps the activity and extent codes and the comment when given; no entry is `None` and no key outside those four appears |
| Incidents.IncidentAddUrl | varsomdata/submitobservations.py:485-487 | the link is appended to IncidentURLs; the keys and every other entry are unchanged |
| Notes.NewUrl | varsomdata/submitobservations.py:503-508 | the link dictionary holds exactly the url and its description |
| Notes.NewNote | varsomdata/submitobservations.py:491-496 | a note holds exactly its comment and an empty list of links |
| Notes.NoteAddUrl | varsomdata/submitobservations.py:498-500 | the link is appended to Urls; the keys and every other entry are unchanged |
| Registrations.Objs | varsomdata/submitobservations.py:126-139 | a list of observation dictionaries becomes a JSON list of the same length, item by item |
| Registrations.ObjsAppend | varsomdata/submitobservations.py:126-139 | appending an observation appends its dictionary to the JSON list |
| Registrations.OptObj | varsomdata/submitobservations.py:131-167 | a set slot holds exactly its observation, and the slot is `None` exactly when unset |
| Registrations.Reg | varsomdata/submitobservations.py:100-124 | the top-level dictionary has exactly the seventeen keys, each holding its slot |
| Registrations.NewRegistration | varsomdata/submitobservations.py:96-124 | a fresh registration has no observation and is consistent; the danger sign and activity lists are empty, the single slots `None`, the hazard 10 (snow) and the observation time as given; the location holds the latitude, the longitude and the precision's code (`None` without one), and SourceTID the source's code (`None` without one) |
| Registrations.AddDangerSign | varsomdata/submitobservations.py:126-129 | `any_obs` becomes true; DangerObs grows by exactly the sign at its end; every other top-level entry is unchanged; consistency is kept |
| Registrations.SetAvalancheObs | varsomdata/submitobservations.py:131-134 | `any_obs` becomes true; AvalancheObs holds the observation; every other top-level entry is unchanged; consistency is kept |
| Registrations.AddAvalancheActivity | varsomdata/submitobservations.py:136-139 | `any_obs` becomes true; AvalancheActivityObs2 grows by exactly the activity at its end; every other entry is unchanged; consistency is kept |
| Registrations.SetWeather | varsomdata/submitobservations.py:141-144 | `any_obs` becomes true; WeatherObservation holds the weather; every other entry is unchanged; consistency is kept |
| Registrations.SetSnowCover | varsomdata/submitobservations.py:146-149 | `any_obs` becomes true; SnowSurfaceObservation holds the snow cover; every other entry is unchanged; consistency is kept |
| Registrations.SetIncident | varsomdata/submitobservations.py:159-162 | `any_obs` becomes true; Incident holds the incident; every other entry is unchanged; consistency is kept |
| Registrations.SetNote | varsomdata/submitobservations.py:164-167 | `any_obs` becomes true; GeneralObservation holds the note; every other entry is unchanged; consistency is kept |
| Registrations.SubmitPayload | varsomdata/submitobservations.py:63-69 | fails with NoObservationError exactly when `any_obs` is false; otherwise the payload holds exactly the top-level keys whose slot is truthy, each with its slot's value |
| Registrations.SubmitRefusesEmpty | varsomdata/submitobservations.py:63-64 | for a registration built through the constructor and add/set, submitting fails exactly when no observation was added |
| Registrations.FreshWithDangerSign | varsomdata/submitobservations.py:96-129 | a fresh registration with one danger sign added holds only that sign and keeps its source |
| Registrations.OneDangerSignPayload | varsomdata/submitobservations.py:63-69 | such a registration posts exactly DangerObs, DtObsTime, GeoHazardTID and ObsLocation, plus SourceTID when a source was given; the empty lists and `None` slots are dropped |
| Registrations.OneDangerSignPosted | varsomdata/submitobservations.py:63-69 | the posted DangerObs list holds exactly the one sign |
| Registrations.OneDangerSignSlots | varsomdata/submitobservations.py:100-124 | for a registration holding one danger sign, a top-level slot is truthy exactly when its key is among the posted keys |
| Strings.ContainsOccurs | utilities/fencoding.py:41 | the `in` test holds exactly when the substring occurs at some position |
| Strings.ContainsSuffix | varsomscripts/testsandprofiles.py:72-74 | containing a string means containing each of its suffixes |
| Strings.ContainsPrefix | varsomscripts/testsandprofiles.py:81-84 | containing a string means containing each of its prefixes |
| Strings.ShortLacks | varsomscripts/testsandprofiles.py:72-74 | a string shorter than the substring does not contain it |
| Strings.RStrip | utilities/fencoding.py:147 | `rstrip` removes a whitespace suffix: the result is a prefix of the input that does not end in whitespace, and the removed part is all whitespace |
| Strings.LStrip | utilities/fencoding.py:91 | the left-hand strip removes a whitespace prefix: the result is a suffix of the input that does not start with whitespace, and the removed part is all whitespace |
| Strings.Strip | utilities/fencoding.py:91 | `strip` removes exactly a whitespace prefix and a whitespace suffix: the result is a contiguous slice of the input, everything before and after it is whitespace, and the result itself is trimmed |
| Strings.StripNonSpace | utilities/fencoding.py:165 | `strip` keeps every non-whitespace character, in order |
| Strings.RStripNonSpace | utilities/fencoding.py:147 | `rstrip` keeps every non-whitespace character, in order |
| Strings.JoinNonSpace | utilities/fencoding.py:166 | joins of pieces that agree piece by piece on their non-whitespace characters, with separators that agree too, agree on theirs |
| Strings.StripFacts | utilities/fencoding.py:91 | `strip` gives a trimmed string of input characters, empty exactly when the input is all whitespace, and leaves a trimmed string unchanged |
| Strings.StripChars | utilities/fencoding.py:91 | `strip` adds no character |
| Strings.StripUnchanged | utilities/fencoding.py:91 | `strip` leaves a trimmed string unchanged |
| Strings.StripTrimmed | utilities/fencoding.py:91 | the result of `strip` is trimmed |
| Strings.StripAllSpace | utilities/fencoding.py:176 | `strip` gives the empty string exactly when the input is all whitespace |
| Strings.StripKeeps | utilities/fencoding.py:165 | `strip` keeps every non-whitespace character |
| Strings.RStripKeeps | utilities/fencoding.py:147 | `rstrip` keeps every non-whitespace character |
| Strings.LStripKeeps | utilities/fencoding.py:172 | the left-hand strip keeps every non-whitespace character |
| Strings.ReplaceAll | utilities/fencoding.py:42 | `replace` adds only characters of the replacement, and a one-character target absent from the replacement is gone afterwards |
| Strings.ReplaceAllNonSpace | utilities/fencoding.py:149-158 | replacing a pattern by text with the same non-whitespace characters keeps the non-whitespace characters of the whole, in order |
| Strings.ReplaceAbsent | utilities/fencoding.py:41-42 | replacing a target that does not occur changes nothing |
| Strings.ReplaceCharAppend | utilities/fencoding.py:42 | replacing a single character distributes over concatenation |
| Strings.ReplaceKeeps | utilities/fencoding.py:149-158 | a character that is not in the target survives `replace` |
| Strings.ReplaceCharByNothing | utilities/fencoding.py:92-93 | replacing one character by nothing deletes it |
| Strings.Join | varsomscripts/testsandprofiles.py:197-199 | the joined string's characters come from the pieces and the separator |
| Strings.Split | utilities/fencoding.py:162 | `split` gives at least one piece, no piece holds the separator, and every piece is made of characters of the input |
| Strings.StripEach | utilities/fencoding.py:164-165 | one piece out per piece in, and piece i is the strip of input piece i |
| Strings.JoinConsHead | varsomscripts/testsandprofiles.py:197-199 | joining a list is its head, then the separator, then the joined rest |
| Strings.SplitJoin | utilities/fencoding.py:162-166 | joining the pieces of a split with the same separator gives the text back |
| Strings.JoinSplit | varsomscripts/testsandprofiles.py:197-199 | splitting a join at its separator gives the pieces back, when no piece holds the separator |
| Strings.ReplaceCharIsSplitJoin | utilities/fencoding.py:161-166 | replacing a character is splitting at it and joining with the replacement |
| Strings.DeleteChars | utilities/fencoding.py:133 | deleting a set of characters keeps exactly the others |
| Strings.ContainsChar | utilities/fencoding.py:41 | the one-character `in` test is membership |
| Strings.DeleteAppend | utilities/fencoding.py:133 | deleting distributes over concatenation |
| Strings.DeleteDelete | utilities/fencoding.py:133 | deleting two sets one after the other deletes their union |
| Strings.SplitKeeps | utilities/fencoding.py:162 | a character other than the separator lands in some piece |
| Strings.JoinKeeps | utilities/fencoding.py:166 | a character of a piece is in the joined string |
| Fencoding.SubstitutionsWellFormed | utilities/fencoding.py:41-88 | each replaced letter lies outside ASCII and each substitute is made of ASCII letters |
| Fencoding.SubstituteAll | utilities/fencoding.py:41-88 | the replacements add only characters of the substitutes |
| Fencoding.Transliterate | utilities/fencoding.py:41-88 | a letter becomes the substitute of the first entry replacing it (no earlier entry replaces it); any other character stays |
| Fencoding.SubstituteIsReplace | utilities/fencoding.py:41-42 | the `in` guard only skips a replacement that would change nothing |
| Fencoding.SubstituteAppend | utilities/fencoding.py:41-42 | one guarded replacement distributes over concatenation |
| Fencoding.SubstituteAllAppend | utilities/fencoding.py:41-88 | all the replacements distribute over concatenation |
| Fencoding.SubstituteAllFree | utilities/fencoding.py:41-88 | a text without any replaced letter passes through unchanged |
| Fencoding.SubstituteAllChar | utilities/fencoding.py:41-88 | on one character the replacements give its transliteration |
| Fencoding.SubstituteAllIsTransliteration | utilities/fencoding.py:41-88 | the sequence of replacements is the character-by-character transliteration |
| Fencoding.SubstituteAllRemoves | utilities/fencoding.py:41-88 | no replaced letter is left after the replacements |
| Fencoding.DeleteSpaceKeepsTrimmed | utilities/fencoding.py:91-93 | deleting '\n' or '\t' from a stripped text leaves it stripped |
| Fencoding.DropBreaks | utilities/fencoding.py:92-93 | after deleting '\n' and '\t' none is left, nothing else is added, and a trimmed text stays trimmed |
| Fencoding.Clean | utilities/fencoding.py:38-95 | after the replacements, `strip` and the deletions, no replaced letter, '\n' or '\t' is left, the text is trimmed, and it holds only input characters and ASCII letters |
| Fencoding.RemoveNorwegianLetters | utilities/fencoding.py:28-95 | `None` exactly for `None`; otherwise no replaced letter, no '\n' or '\t', no surrounding whitespace, only input characters and ASCII letters |
| Fencoding.CleanTransliterates | utilities/fencoding.py:38-95 | cleaning is the transliteration, stripped, with '\n' and '\t' deleted |
| Fencoding.RemoveNorwegianLettersTransliterates | utilities/fencoding.py:41-93 | every occurrence of a letter becomes its listed substitute: the result is the transliteration, stripped, with '\n' and '\t' deleted |
| Fencoding.CleanFixpoint | utilities/fencoding.py:38-95 | a clean text is its own cleanup |
| Fencoding.RemoveNorwegianLettersFixpoint | utilities/fencoding.py:41-95 | a text with no replaced letter, no '\n' or '\t' and no surrounding whitespace comes back unchanged |
| Fencoding.RemoveNorwegianLettersIdempotent | utilities/fencoding.py:28-95 | cleaning twice is cleaning once |
| Fencoding.DropSeparatorsDeletes | utilities/fencoding.py:133 | the three `replace` calls delete commas, slashes and double quotes |
| Fencoding.MakeStandardFileName | utilities/fencoding.py:126-136 | no comma, slash or double quote is left, and the result is `remove_norwegian_letters` of the input with those three deleted |
| Fencoding.RemoveNorwegianLettersAdds | utilities/fencoding.py:41-93 | a character that is neither in the input nor an ASCII letter does not appear in the output |
| Fencoding.SpacingTame | utilities/fencoding.py:151-158 | every spacing pattern is non-empty and no replacement holds '\n' or '\t' |
| Fencoding.SpacingSparesPeriods | utilities/fencoding.py:151-158 | no spacing pattern holds a period |
| Fencoding.ReplaceEachNoBreaks | utilities/fencoding.py:151-158 | the spacing replacements bring back no '\n' or '\t' |
| Fencoding.ReplaceEachKeeps | utilities/fencoding.py:151-158 | a character that no pattern mentions survives the replacements |
| Fencoding.ReplaceEachAbsent | utilities/fencoding.py:151-158 | a text holding none of the patterns passes through unchanged |
| Fencoding.Collapse | utilities/fencoding.py:147-158 | after `rstrip`, the deletions and the spacing rules, no '\n' or '\t' is left |
| Fencoding.CollapseNonSpace | utilities/fencoding.py:147-158 | on a text without '<' the collapsing steps keep every non-whitespace character, in order |
| Fencoding.DeletionsNonSpace | utilities/fencoding.py:147-150 | `rstrip` and deleting '\n' and '\t' keep every non-whitespace character and bring in no '<' |
| Fencoding.SpacingNonSpace | utilities/fencoding.py:151-158 | without '<' the "<br/><br/>" rule finds nothing and the other six rules keep every non-whitespace character |
| Fencoding.SpacingKeepsNonSpace | utilities/fencoding.py:153-158 | each of the six space and dash rules has a pattern and a replacement with the same non-whitespace characters |
| Fencoding.ReplaceEachNonSpace | utilities/fencoding.py:153-158 | rules whose pattern and replacement agree on non-whitespace characters keep a text's non-whitespace characters |
| Fencoding.Respace | utilities/fencoding.py:161-173 | re-spacing adds only the separator and spaces; every separator is then followed by exactly one space, and whitespace stands before a separator only as the space of an earlier one; every non-whitespace character, separators included, is kept in order |
| Fencoding.RespaceNonSpace | utilities/fencoding.py:161-173 | splitting, stripping each piece and joining with the separator and a space keeps every non-whitespace character in order |
| Fencoding.JoinSpaced | utilities/fencoding.py:161-173 | joining trimmed pieces free of the separator with the separator and a space spaces every separator exactly once and starts without whitespace |
| Fencoding.RespaceSpaced | utilities/fencoding.py:161-173 | the stripped pieces of a split meet the premises of that join, so the re-spaced text is spaced |
| Fencoding.StripSpacedAfter | utilities/fencoding.py:175-176 | `strip` of a spaced text leaves every separator but a final one followed by exactly one space |
| Fencoding.StripTightBefore | utilities/fencoding.py:175-176 | `strip` keeps whitespace away from the front of every separator |
| Fencoding.Commas | utilities/fencoding.py:161-166 | the comma branch brings back no '\n' or '\t', keeps a period, follows every comma by exactly one space, leaves no stray whitespace before a comma, and keeps every non-whitespace character in order |
| Fencoding.Periods | utilities/fencoding.py:168-176 | the period branch brings back no '\n' or '\t', leaves a text with a period trimmed, follows every period but a final one by exactly one space, leaves no stray whitespace before a period, and keeps every non-whitespace character in order |
| Fencoding.PeriodsFacts | utilities/fencoding.py:168-176 | the re-spacing at periods followed by `strip` keeps the spacing after periods, the tightness before them and every non-whitespace character |
| Fencoding.Punctuate | utilities/fencoding.py:179-180 | the result ends in '.' or '!'; no '\n' or '\t' and trimming are kept; the non-whitespace characters are the input's, with at most a '.' added at the end |
| Fencoding.Cleaned | utilities/fencoding.py:147-180 | a non-empty text comes out without '\n' or '\t', ending in '.' or '!', and trimmed when it held a period; without '<', its non-whitespace characters are the input's, in order, with at most a '.' added |
| Fencoding.TextCleanup | utilities/fencoding.py:139-182 | `None` and the empty string come back unchanged; any other text ends in '.' or '!' and holds no '\n' or '\t'; without '<', it keeps the input's non-whitespace characters in order, with at most a '.' added |
| Fencoding.CollapseKeepsPeriod | utilities/fencoding.py:147-158 | a period survives the collapsing steps, so the period branch still runs |
| Fencoding.RespaceKeeps | utilities/fencoding.py:161-166 | a non-whitespace character other than the separator survives the re-spacing |
| Fencoding.NotContainsFirst | utilities/fencoding.py:151-158 | a text lacking a pattern's first character does not contain the pattern |
| Fencoding.SpacingAbsent | utilities/fencoding.py:151-158 | a text of ASCII letters and carriage returns matches no spacing pattern |
| Fencoding.CollapseLeavesWord | utilities/fencoding.py:147-158 | "\rok" passes the collapsing steps unchanged |
| Fencoding.CleanedWord | utilities/fencoding.py:147-180 | "\rok" is cleaned to "\rok." |
| Fencoding.WordFacts | utilities/fencoding.py:161-179 | "\rok" holds no comma or period and ends in neither '.' nor '!' |
| Fencoding.TextCleanupKeepsLeadingSpace | utilities/fencoding.py:168-180 | the strip runs only in the period branch: "\rok" keeps its leading carriage return and gains a period |
| Fencoding.MakeStr | utilities/fencoding.py:185-194 | the result is empty exactly for `None`, "Not given", "Ikke gitt" and the empty string; any other string is returned as it is |
| Fencoding.MakeStrIdempotent | utilities/fencoding.py:185-194 | normalising twice is normalising once |
| TestsAndProfiles.Wash | varsomscripts/testsandprofiles.py:13-25 | `None`, "Ikke gitt" and "Ikke spesifisert" become the empty string, any other string is kept, and a number is written by `str` |
| TestsAndProfiles.WashIdempotent | varsomscripts/testsandprofiles.py:13-25 | washing a washed value changes nothing more, unless a number's text is itself a marker |
| TestsAndProfiles.TestOf | varsomscripts/testsandprofiles.py:71-75 | "ECT" exactly when the name contains "ECT"; "CT" exactly when it contains "CT" but not "ECT"; nothing exactly when it does not contain "CT" |
| TestsAndProfiles.PnxOf | varsomscripts/testsandprofiles.py:77-84 | "X" exactly for "ECTX" and "CTN"; otherwise "P" exactly when the name contains "ECTP", then "N" exactly when it contains "ECTN", else nothing |
| TestsAndProfiles.PnxImpliesTest | varsomscripts/testsandprofiles.py:71-84 | a "P" or "N" class comes only with an extended column test; "ECTX" is an ECT and "CTN" a CT |
| TestsAndProfiles.Resolve | varsomscripts/testsandprofiles.py:99-110 | the chosen layer is the hit layer, or the layer just above it when the hit is on its top boundary and the layer above has the lower hardness code |
| TestsAndProfiles.SelectLayer | varsomscripts/testsandprofiles.py:86-133 | nothing is chosen exactly when no layer is hit; otherwise the first hit decides: a boundary hit keeps the layer when its hardness code is at most the one above, else steps back one, and an interior hit keeps the layer |
| TestsAndProfiles.FirstHitUnique | varsomscripts/testsandprofiles.py:92-112 | there is at most one first hit, so later layers never matter |
| TestsAndProfiles.Summarise | varsomscripts/testsandprofiles.py:30-133 | the result, test kind, class, depth, taps, fracture, region and observation time are copied or derived from the test, and the URL is the base followed by the registration id; without a non-zero depth and a profile, or without a hit, every layer field stays empty; otherwise the chosen layer and its neighbours above (when not the first) and below (when not the last) are read |
| TestsAndProfiles.LayerCells | varsomscripts/testsandprofiles.py:144-155 | each layer contributes four columns: thickness, grain form, grain size and hardness name, in that order |
| TestsAndProfiles.Values | varsomscripts/testsandprofiles.py:135-162 | one value per key, in the key order: the result; test kind, class, depth, taps and fracture; the chosen, above and below layers in columns 7-10, 11-14 and 15-18; region name, region id and observation time; the URL last |
| TestsAndProfiles.ValuesFollowHeader | varsomscripts/testsandprofiles.py:137-160 | for every one of the 22 columns, the key in `Header` and the summary field in `Values` are the pair the ordered dictionary lists |
| TestsAndProfiles.WashAll | varsomscripts/testsandprofiles.py:197-199 | every value is washed, in order |
| TestsAndProfiles.RowFields | varsomscripts/testsandprofiles.py:199 | splitting a row at ';' gives back the 22 washed values when none contains a ';' |
| TestsAndProfiles.HeaderFields | varsomscripts/testsandprofiles.py:197 | the header line splits back into the 22 keys |
| TestsAndProfiles.HeaderPlain | varsomscripts/testsandprofiles.py:137-160 | no key contains a ';' or is a washed-out marker |

## Left out

- Network and session: `Connection.authenticate`, the POST and GET calls and their status checks, the expiry check against the clock and the re-authentication branch of `submit`. Submitting is modelled up to the payload it would post.
- Timestamps: `isoformat()` text and timezone localisation are library formatting, kept opaque as `Value.Stamp` of a date and clock time.
- Numbers as text: Python's `str` of an int or float is the `show` parameter of `TestsAndProfiles.Wash`; the registration URL base is the `base` parameter of `TestsAndProfiles.Summarise`.
- Floating point: temperatures, wind speeds, depths and the centimetre-to-metre divisions are exact `real`s; float rounding is not modelled.
- Dictionary order: a payload is a map, so the insertion order seen only in the JSON text is not modelled; the CSV column order is kept as the `Header` sequence.
- Object aliasing: Python appends the very dictionary of an observation, so a later `add_url` on an incident already set would show in the registration; the model copies values.
- `unix_time_2_normal`: depends on the local timezone.
- `add_norwegian_letters`: calls `.decode` on `str`, which only Python 2 has.
- `get_tests_and_layer_info_to_gustav`: loads pickled observations through modules that are not part of this model and writes a file; only its row format (the `;`-join of washed values) is modelled.
- The `__main__` demo blocks and `setup.py`.
- `make_str` of a non-string value: only strings and `None` are modelled.
- `Note(None)`: a note's comment is modelled as a string.
- `TestsAndProfiles.Layer`: a missing hardness code, which the comparison would reject with a TypeError, is not modelled; the code is an `int`.
- `TestsAndProfiles.Summarise`: a profile whose layer list is `None` is modelled as an empty list.
- `ValueObjects.NewPosition`: NaN coordinates are not modelled.
- `Fencoding.MakeStandardFileName`: a `None` name, on which `replace` raises AttributeError, is not modelled; the name is a string.
- `Fencoding.CollapseNonSpace`: a text holding '<' is not covered, since a "<br/><br/>" there becomes a space and takes its non-whitespace characters with it; `Cleaned` and `TextCleanup` state their non-whitespace property under the same condition.
- `TestsAndProfiles.Layer`: a missing DepthTop or Thickness, which the comparison would reject with a TypeError, is not modelled; both are `real`s.
- `TestsAndProfiles.Summarise`: the registration id is taken as text, since its f-string conversion is Python's `str`.
- `AvalancheObservations.NewAvalancheObs`: the contract names the time, positions, exposition and fracture height; the other eight entries (codes, width, path name, comment) are built the same way but not listed in the contract.
- `AvalancheActivities.ActivityFields`: the contract omits the distribution, sensitivity, size, elevation format and comment entries, which are built the same way.
- `SnowCovers.SnowCoverFields`: the contract omits the drift, surface, moisture and comment codes, which are built the same way.
