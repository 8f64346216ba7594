# mods_generator, modelled in Dafny

mods_generator turns a spreadsheet into metadata records. Its second row, the
*control row*, says for each column where the cell's text goes. A location
such as `<mods:name type="personal"><mods:namePart>#<mods:role><mods:roleTerm>`
names a MODS element and its sub-parts; a `<dwc:...>` tag names a Darwin Core
term. For every data row the `DataHandler` collects the mapped cells into an
`XmlRecord` (group id, xml id, field data, data files). A `Mapper` then writes
each field into a MODS record or a Darwin Core record.

The repository holds two copies of this core that have drifted apart:

- the package `mods_generator/__init__.py`: its core (`DataHandler`, `XmlRecord`,
  `LocationParser`, `Mapper`, `process_text_date`);
- the older script `generate_mods.py`.

A `Variant` value (`Package` or `Script`) selects the few branches where the
script behaves differently. Everything else is shared.

Modules, one file each:

- `Common` (`common.dfy`): `Option`, the errors the source raises (an
  `IndexError` on an empty stripped location among them), `Result` and the
  `Variant`.
- `Text` (`text.dfy`): Python's `str.find`, `split`, `strip`, `lower`,
  `replace` and `join` on `seq<char>`, with their laws.
- `Location` (`location.dfy`): `LocationParser`. There are spec functions and
  the parser's while loops as methods proved equal to them, plus the
  write-then-parse round trip.
- `Divisions` (`divisions.dfy`): `Mapper._get_data_divs`, the `#` splitting
  with `\#` escapes. There is a character-level spec and the loop method, and
  the divisions joined back give the data with the escapes removed.
- `Dates` (`dates.dfy`): the package's `process_text_date`.
- `ScriptDates` (`script_dates.dfy`): the script's `process_text_date`. It has
  no `M/YYYY` rewrite and formats with `strftime`.
- `Document` (`document.dfy`): the parts of a MODS record the mapper writes,
  as values.
- `Mapping` (`mapping.dfy`): one pure step function per branch of
  `_process_mods_element` and `_process_dwc_element`, plus `add_data` and the
  field loop. A step's outcome is a `Run`: `Done`, `Raised(error)` for a
  Python `raise`, or `Undefined` for a Python crash such as an `IndexError`
  or a loop that never ends.
- `MappingLaws` (`mapping_laws.dfy`): laws about those steps:
  - what each step may touch;
  - list growth and clearing on first use;
  - last write wins;
  - which elements raise;
  - the differences between the package and the script.
- `Mappers` (`mapper.dfy`): the `Mapper` class. Its methods update its state
  in place. Each is proved to leave exactly the state its step function gives.
- `Assembly` (`assembly.dfy`): the `DataHandler` class:
  - the CSV rows;
  - `get_row` with its date rewrite;
  - column lookup;
  - id generation;
  - the taxon fields added for Darwin Core;
  - the `get_xml_records` loop.

Where the description of the system and the code disagree, the model follows
the code:

- Child ids of a group are `g_1`, `g_2`, … and parent ids are `g`, `g_1`, `g_2`,
  …, as the counter in `get_xml_records` produces them. The lemma
  `Assembly.GeneratedIdExamples` states these.
- The control row is the fixed `ctrl_row` passed to the constructor. It is not
  searched for.

## Model

| member | source | states |
|---|---|---|
| Location.ParseLocation | mods_generator/__init__.py:846-901 | the `_parse` loop returns exactly `Parse(raw)`: the base element, the non-empty sections and whether the data is sectioned, or the error the loop raises |
| Location.Parse | mods_generator/__init__.py:846-901 | the definition the parser is proved against: an empty stripped text is the `IndexError` of `data[0]`; otherwise it must start with '<' and hold '>'; the base tag runs to the first '>'; what follows is split at '#' into sections of elements, empty ones dropped; sectioned exactly when there is more than one piece (its laws: ParseErrors, ParseShape, PathRoundTrip) |
| Location.ParseAttributesLoop | mods_generator/__init__.py:903-917 | the `_parse_attributes` loop returns exactly `ParseAttributes(data)`, raising on an unmatched quote |
| Location.ParseAttributes | mods_generator/__init__.py:903-917 | the definition of `_parse_attributes`: `key="value"` pairs read left to right into a map on the stripped text, an unmatched quote raising (its laws: AttributesFrom, LastWins, PairsRoundTrip) |
| Location.ParseTagText | mods_generator/__init__.py:835-841 | splitting a tag at its first space gives `ParseTag(tag)`: the name, then attributes parsed from the rest |
| Location.ParseTag | mods_generator/__init__.py:826-842 | a tag's name and attributes: a parsed name starts with the tag's second character, and the only failure is the attributes error |
| Location.ParseSectionLoop | mods_generator/__init__.py:861-898 | the inner while loop over one section gives `ParseSection(section)`: closing tags skipped, text up to the next '<' kept as the element's data |
| Location.AttributesFrom | mods_generator/__init__.py:906-916 | parsing attributes fails only with the attributes error |
| Location.ParseSection | mods_generator/__init__.py:863-898 | every parsed element is well formed; failures are only section or attribute errors |
| Location.ParseSections | mods_generator/__init__.py:861-900 | empty sections are dropped; every element is well formed |
| Location.ParseErrors | mods_generator/__init__.py:849-852 | the parse fails with EmptyLocation (the `IndexError` of `data[0]`) exactly when the stripped text is empty, with NotALocation exactly when it is non-empty and does not start with '<', and with UnclosedTag exactly when it starts with '<' but has no '>'; no other errors occur |
| Location.ParseShape | mods_generator/__init__.py:855-860 | a successful parse has a base element without data and non-empty, well-formed sections; it is sectioned exactly when a '#' follows the base tag |
| Location.LastWins | mods_generator/__init__.py:913 | a repeated attribute key keeps the value of its last occurrence; other keys are untouched |
| Location.PairsRoundTrip | mods_generator/__init__.py:903-917 | writing attribute pairs as `k="v"` joined by spaces and parsing them back gives the pairs' map |
| Location.TagRoundTrip | mods_generator/__init__.py:826-842 | a written tag parses back to its name and attributes |
| Location.SectionRoundTrip | mods_generator/__init__.py:863-898 | a written section parses back to its elements, texts included |
| Location.SectionsRoundTrip | mods_generator/__init__.py:858-900 | written non-empty sections parse back to their elements, none dropped |
| Location.PathRoundTrip | mods_generator/__init__.py:846-901 | a written location (base tag and '#'-joined sections) parses back to its base element, its sections and sectioned-ness |
| Location.ClosingTagDropped | mods_generator/__init__.py:871-872 | a closing tag at the head of a section contributes nothing |
| Location.LeadingJunkDropped | mods_generator/__init__.py:865-870 | text before a section's first tag is skipped |
| Location.FirstTagAtStart | mods_generator/__init__.py:828-830 | a text starting with '<' has a first tag exactly when it contains '>' |
| Location.NoteExample | tests.py:16-22 | `<mods:note>` is a single base element with no sections |
| Location.InvalidExample | tests.py:34-42 | `asdf1234` is rejected as not a location |
| Location.NameExample | mods_generator/__init__.py:807-808 | the class's own example location parses into the named base element and its two sections |
| Divisions.GetDataDivs | mods_generator/__init__.py:685-707 | the loop returns exactly `DataDivs(data, sectioned)`: the whole data when not sectioned, else the '#'-separated divisions with `\#` unescaped |
| Divisions.DataDivs | mods_generator/__init__.py:685-707 | the definition of `_get_data_divs`: the value itself when not sectioned, else its divisions cut one at a time by `FirstDiv` (its laws: DivsRejoin, JoinDivs, TrailingCut) |
| Divisions.DropEscapes | mods_generator/__init__.py:691-700 | the inner loop drops the `\` before each escaped '#' and stops at an unescaped '#' or at none; the first division of what remains equals the first division of the text it was given |
| Divisions.DivsRejoin | mods_generator/__init__.py:689-707 | the divisions joined with '#' give the data with every `\#` replaced by '#' (for data that does not start or end with '#' or '\\') |
| Divisions.JoinDivs | mods_generator/__init__.py:690-706 | the same rejoining law, stated against the character-level unescape |
| Divisions.UnescapeReplace | mods_generator/__init__.py:696-700 | removing the '\\' before each escaped '#' is `replace("\\#", "#")` |
| Divisions.DefinedWithoutTrailingEscape | mods_generator/__init__.py:696 | data not ending in '\\' never reaches the negative-index case, so the loop is defined |
| Divisions.TrailingCut | mods_generator/__init__.py:705-706 | a trailing '#' adds no empty division |
| Divisions.EscapeExample | generate_mods.py:719-741 | `part\#1#part2#part\#3` divides into `part#1`, `part2`, `part#3` |
| Divisions.SplitDivs | mods_generator/__init__.py:689-706 | the divisions of a sectioned value as intended, a '#' at index 0 ending an empty division; where the source returns they are its result (its laws: JoinDivs, IntendedRejoin, HangExample) |
| Divisions.EscapeLoopNeverEnds | mods_generator/__init__.py:696-700 | on a text starting with '#' and ending in `\`, the loop's test holds at index 0 and its pass gives a longer such text where the search lands at 0 again |
| Divisions.HangExample | mods_generator/__init__.py:696-700 | `#\` is such a text, and read as intended its divisions are "" and `\` |
| Divisions.IntendedRejoin | mods_generator/__init__.py:689-707 | read as intended, the divisions of any value not ending in '#' joined with '#' give the value with `\#` replaced by '#' |
| Dates.DaysInMonth | mods_generator/__init__.py:315-358 | the calendar `strptime` checks: 28 to 31 days, 29 exactly for February of a leap year |
| Dates.CenturyYear | mods_generator/__init__.py:315 | `%y` maps 69-99 to 1969-1999 and 00-68 to 2000-2068, keeping the last two digits |
| Dates.BranchOf | mods_generator/__init__.py:304-361 | a text takes the day-month-year or month-year branch only when it matches that pattern, and is kept exactly when it matches none |
| Dates.ProcessText | mods_generator/__init__.py:302-377 | the definition of `process_text_date` on a text: read by the branch `BranchOf` picks, kept when none (its laws: RewriteRule, ResultShape, ProcessTextIdempotent) |
| Dates.ProcessTextDate | mods_generator/__init__.py:292-301 | a value that is not a text is returned as it is, a text goes to `ProcessText` (its law: ProcessTextDateIdempotent) |
| Dates.RewriteRule | mods_generator/__init__.py:312-377 | kept when no pattern matches; `M/YYYY` becomes `YYYY-MM`; a valid day-month-year date is written `YYYY-MM-DD` unless it is ambiguous (day at most 12 and not equal to the month) or has a two-digit year, in which case it is written only when forced |
| Dates.ResultShape | mods_generator/__init__.py:335-377 | the result is the input or a text that matches no date pattern |
| Dates.ProcessTextIdempotent | mods_generator/__init__.py:292-377 | processing a date twice gives what processing it once gives |
| Dates.ProcessTextDateIdempotent | mods_generator/__init__.py:298-301 | the same for non-text cell values, which pass through |
| Dates.ForceWidens | mods_generator/__init__.py:364-377 | forcing never changes a date that is rewritten anyway, and a date kept when forced is kept without forcing |
| Dates.DayAbove12Symmetric | mods_generator/__init__.py:312-332 | with a day above 12, month-first and day-first spellings give the same date |
| Dates.BothOrders | mods_generator/__init__.py:313-332 | month-first is tried before day-first, and both spellings read the same date |
| Dates.TwoDigitYearKept | mods_generator/__init__.py:371-375 | a two-digit-year date is never rewritten without forcing |
| Dates.ForcedMonthFirst | mods_generator/__init__.py:364-377 | when forced, a valid month-first date is always written `YYYY-MM-DD` |
| Dates.MonthYearRewritten | mods_generator/__init__.py:333-338 | `M/YYYY` and `M-YYYY` become `YYYY-MM`, even for a month above 12 |
| Dates.NoPatternUnchanged | mods_generator/__init__.py:360-361 | a text matching no pattern comes back unchanged |
| Dates.SlashExample | tests.py:106-108 | `5/14/2000` and `14/5/2000` become `2000-05-14` |
| Dates.DashExample | tests.py:109-111 | `3-17-2013` and `17-3-2013` become `2013-03-17` |
| Dates.AmbiguousExample | tests.py:113-131 | `5/4/99` is kept, and becomes `1999-05-04` when forced |
| Dates.TwoDigitExample | tests.py:122-125 | `3-3-03` and `05-14-12` are kept |
| Dates.MonthYearExample | mods_generator/__init__.py:333-338 | `6/1912` becomes `1912-06` and `13/2000` becomes `2000-13` |
| Dates.PassThroughExample | tests.py:126-128 | None, a number and the empty text pass through |
| ScriptDates.ScriptBranchOf | generate_mods.py:342-410 | the script has no month-year branch; a text is kept exactly when it matches no day-month-year pattern |
| ScriptDates.ScriptProcessTextAsWritten | generate_mods.py:342-428 | the script's `process_text_date` as written, its `strftime` able to raise (its laws: AsWrittenRaisesBefore1900, Before1900Example) |
| ScriptDates.ScriptProcessText | generate_mods.py:342-428 | the script's `process_text_date` with every valid date written out: the day-month-year branch only (its laws: ScriptAgreesWithPackage, ScriptIdempotent) |
| ScriptDates.ScriptProcessTextDate | generate_mods.py:348-351 | a value that is not a text is returned as it is (its law: ScriptDateIdempotent) |
| ScriptDates.Strftime | generate_mods.py:414-428 | `strftime` fails exactly for years before 1900, and otherwise writes the year, month and day fields |
| ScriptDates.ScriptAgreesWithPackage | generate_mods.py:342-428 | the script equals the package version except on month-year texts, which it keeps |
| ScriptDates.ScriptBranchAgrees | generate_mods.py:350-407 | the script picks the package's branch except on month-year texts |
| ScriptDates.ScriptIdempotent | generate_mods.py:342-428 | the corrected script date processing is idempotent |
| ScriptDates.ScriptDateIdempotent | generate_mods.py:348-351 | the same for non-text cell values |
| ScriptDates.AsWrittenRaisesBefore1900 | generate_mods.py:412-428 | as written, the script raises exactly when it would write a date whose year is before 1900, and otherwise agrees with the corrected version |
| ScriptDates.TwoDigitYearsNeverRaise | generate_mods.py:350-370 | two-digit years read as 1969-2068, so they never hit the `strftime` limit |
| ScriptDates.RewrittenYear | generate_mods.py:410-428 | every date the script rewrites came from the day-month-year branch |
| ScriptDates.Before1900Example | generate_mods.py:414 | as written, `7/13/1899` raises; the corrected version gives `1899-07-13` |
| ScriptDates.ScriptMonthYearKept | generate_mods.py:342-410 | `M/YYYY` is kept by the script |
| ScriptDates.SharedExamples | tests.py:104-131 | the package's test dates give the same results in the script |
| Mapping.Touch | mods_generator/__init__.py:491-494 | clearing a group on its first use changes only that group's parts and marks it; a second use changes nothing |
| Mapping.Kept | mods_generator/__init__.py:418-420 | filtering the stripped pieces keeps at most as many pieces as given, none of them empty |
| Mapping.Divided | mods_generator/__init__.py:420 | each kept piece is divided by `_get_data_divs`, one list per piece |
| Mapping.NamesOf | mods_generator/__init__.py:710-748 | one name per value, built from the sections and that value's divisions |
| Mapping.TitlesOf | mods_generator/__init__.py:666-683 | one titleInfo per value |
| Mapping.LanguagesOf | mods_generator/__init__.py:511-519 | one language per value, typed and authorised by the first section's tag |
| Mapping.GenresOf | mods_generator/__init__.py:524-528 | one genre per value, its text the first division, its authority the base tag's |
| Mapping.NotesOf | mods_generator/__init__.py:574-580 | one note per value with the base tag's type and label |
| Mapping.IdentifiersOf | mods_generator/__init__.py:614-620 | one identifier per value with the base tag's type and label |
| Mapping.SubjectsOf | mods_generator/__init__.py:585-609 | one subject per value, its topics, temporals and geography taken section by section |
| Mapping.LocationsOf | mods_generator/__init__.py:625-648 | one location per value, url, physical location and holding note by section |
| Mapping.RelatedOf | mods_generator/__init__.py:653-662 | one related item per value |
| Mapping.IdStep | mods_generator/__init__.py:487-489 | the id step changes only the id |
| Mapping.NamesStep | mods_generator/__init__.py:490-494 | changes only the names. If names were cleared before, one name per value is appended to the existing list; otherwise the list is reset first |
| Mapping.NamePartStep | mods_generator/__init__.py:495-501 | changes only the names, and does not mark them cleared |
| Mapping.TitlesStep | mods_generator/__init__.py:502-506 | changes only the titles; one titleInfo appended per value after the first-use reset |
| Mapping.LanguagesStep | mods_generator/__init__.py:507-519 | changes only the languages; one appended per value |
| Mapping.GenresStep | mods_generator/__init__.py:520-528 | changes only the genres; one appended per value |
| Mapping.OriginStep | mods_generator/__init__.py:529-534 | changes only the originInfo and marks it cleared |
| Mapping.PhysicalStep | mods_generator/__init__.py:535-551 | changes only the physicalDescription and marks it cleared |
| Mapping.ResourceTypeStep | mods_generator/__init__.py:552-556 | changes only the typeOfResource |
| Mapping.AudienceStep | mods_generator/__init__.py:557-562 | changes only the target audiences and the typeOfResource it resets |
| Mapping.AbstractStep | mods_generator/__init__.py:563-569 | changes only the abstract |
| Mapping.NotesStep | mods_generator/__init__.py:570-580 | changes only the notes; one appended per value |
| Mapping.SubjectsStep | mods_generator/__init__.py:581-609 | changes only the subjects; one appended per value |
| Mapping.IdentifiersStep | mods_generator/__init__.py:610-620 | changes only the identifiers; one appended per value |
| Mapping.LocationsStep | mods_generator/__init__.py:621-648 | changes only the locations; one appended per value |
| Mapping.RelatedStep | mods_generator/__init__.py:649-662 | changes only the related items; one appended per value |
| Mapping.OriginWalk | mods_generator/__init__.py:753-794 | the for-loop over an originInfo's sections: empty divisions skipped, dates and places appended, the publisher set, any other element raising (its laws: OriginWalkGrows, OriginWalkRaises) |
| Mapping.PhysicalWalk | mods_generator/__init__.py:542-551 | the for-loop over a physicalDescription's sections with the first value's divisions (its laws: PhysicalWalkNeverRaises, DigitalOriginFallback) |
| Mapping.ModsStep | mods_generator/__init__.py:485-664 | the definition of `_process_mods_element`: route by the base element's name, raising for an unhandled one (its laws: ModsStepFrame, UnknownModsRaises) |
| Mapping.RouteStep | mods_generator/__init__.py:485-662 | one branch of `_process_mods_element` per route (its laws: RouteStepFrame, ListGrowth, RouteStepRaises) |
| Mapping.HandledDwc | mods_generator/__init__.py:423-483 | the Darwin Core terms each copy stores; the script lacks recordNumber, locality and municipality (its law: ScriptDwcFields) |
| Mapping.DwcStore | mods_generator/__init__.py:423-483 | the definition of `_process_dwc_element`: store the text under a handled term, raise for any other (its laws: DwcStoreFrame, DwcLastWriteWins) |
| Mapping.StoreStep | mods_generator/__init__.py:414-421 | `add_data` after the parse: the package's Darwin Core text with `||` turned into `|`; otherwise the values `Divided(Pieces(data))`, `Undefined` when `_get_data_divs` would not return, then the script's first division stored or the MODS step run (its laws: StoreDivided, NotesPerPiece, DwcPackageText, DwcScriptText) |
| Mapping.AddDataStep | mods_generator/__init__.py:405-421 | `add_data`: a location that does not parse raises its error, else `StoreStep` (its law: AddDataFrame) |
| Mapping.RunFields | mods_generator/__init__.py:399-400 | the field loop of the constructor: the fields in order, the first error ending the run (its laws: RunFieldsFrame, RunFieldsAppend, ParentKept) |
| Mapping.Initial | mods_generator/__init__.py:384-398 | a new mapper's state: the parent's MODS record for a MODS mapper that has one, else an empty record, nothing cleared |
| Mapping.ValuesNonEmpty | mods_generator/__init__.py:418-421 | every value handed to the element steps has at least one division |
| MappingLaws.RouteStepFrame | mods_generator/__init__.py:485-664 | each handled element writes only its own parts of the record and marks only its own group |
| MappingLaws.ModsStepFrame | mods_generator/__init__.py:485-664 | `_process_mods_element` changes only the parts of the record named by the element |
| MappingLaws.ListGrowth | mods_generator/__init__.py:490-662 | a list-valued element appends one item per value, after resetting the list on the element's first use |
| MappingLaws.TwoNoteColumns | mods_generator/__init__.py:570-580 | two note columns give the notes of the first followed by the notes of the second |
| MappingLaws.AudienceRule | mods_generator/__init__.py:557-562 | a targetAudience appends the first value and, on its first use, resets the typeOfResource |
| MappingLaws.LastResourceTypeWins | mods_generator/__init__.py:552-556 | of two typeOfResource columns the second wins |
| MappingLaws.PhysicalFirstValueOnly | mods_generator/__init__.py:541 | the physicalDescription reads only the first value |
| MappingLaws.DigitalOriginFallback | mods_generator/__init__.py:545-549 | with no division, the package falls back to the tag's text for digitalOrigin; the script crashes |
| MappingLaws.RouteStepRaises | mods_generator/__init__.py:750-794 | the only handled element that can raise is originInfo, with the originInfo error |
| MappingLaws.OriginWalkGrows | mods_generator/__init__.py:753-794 | adding originInfo data only appends dates and places and keeps the label |
| MappingLaws.OriginWalkRaises | mods_generator/__init__.py:790-794 | an unknown originInfo part raises the originInfo error |
| MappingLaws.OriginValuesGrows | mods_generator/__init__.py:753 | the same over all values |
| MappingLaws.OriginValuesRaises | mods_generator/__init__.py:753-794 | the same error over all values |
| MappingLaws.PhysicalWalkNeverRaises | mods_generator/__init__.py:542-551 | the physicalDescription never raises |
| MappingLaws.UnknownModsRaises | mods_generator/__init__.py:663-664 | an element raises the not-handled error exactly when it is not handled; a handled element raises only for originInfo |
| MappingLaws.ScriptHasNoAudience | generate_mods.py:527-698 | the script does not handle targetAudience; the package does |
| MappingLaws.RoleLiteralWins | mods_generator/__init__.py:733-745 | a roleTerm with text in the location ignores the data division and appends its role |
| MappingLaws.EmptyRoleSkipped | mods_generator/__init__.py:733-745 | a roleTerm with no text and no division adds nothing |
| MappingLaws.GeographyCountryFromLiteral | mods_generator/__init__.py:595-607 | a hierarchicalGeographic takes its country from the location's text, and has a state exactly when a state tag follows |
| MappingLaws.KeptClean | mods_generator/__init__.py:418-420 | every kept piece is non-empty and stripped |
| MappingLaws.KeptAppend | mods_generator/__init__.py:418-420 | filtering the pieces of a concatenation is filtering each part: every piece is kept or dropped on its own, in order |
| MappingLaws.KeptOne | mods_generator/__init__.py:420 | one piece is kept, stripped, exactly when it is not blank (with KeptAppend this fixes `Kept` on every input) |
| MappingLaws.PiecesOfPlain | mods_generator/__init__.py:418-420 | data without `||` is one piece, or none when blank |
| MappingLaws.NotesPerPiece | mods_generator/__init__.py:405-421 | via `add_data`, a note cell appends one note per `||` piece, with the piece's first division as text |
| MappingLaws.AddDataFrame | mods_generator/__init__.py:405-421 | `add_data` needs a valid location, and changes only the parts that location names |
| MappingLaws.RunFieldsFrame | mods_generator/__init__.py:399-400 | the field loop changes only the parts the fields name |
| MappingLaws.ParentKept | mods_generator/__init__.py:395-400 | a child built on a parent record keeps every part of the parent its fields do not name |
| MappingLaws.RunFieldsAppend | mods_generator/__init__.py:399-400 | running two field lists is running the first and then the second; an error stops the run |
| MappingLaws.DwcLastWriteWins | mods_generator/__init__.py:423-483 | setting the same Darwin Core term twice keeps the second value |
| MappingLaws.DwcStoreFrame | mods_generator/__init__.py:423-483 | a Darwin Core term raises exactly when it is unhandled, and otherwise sets only that term |
| MappingLaws.ScriptDwcFields | generate_mods.py:471-525 | the script handles a subset of the package's terms, missing exactly recordNumber, locality and municipality |
| MappingLaws.DwcPackageText | mods_generator/__init__.py:414-416 | the package stores the Darwin Core text with `||` replaced by `|` |
| MappingLaws.DwcScriptText | generate_mods.py:456-469 | the script stores in the element's term the first division of the first piece: the first non-blank `||` piece, stripped, cut at unescaped '#' when sectioned; the element is one the script handles and the data has a piece |
| MappingLaws.DwcScriptPlainText | generate_mods.py:456-469 | in particular unsectioned data without `||` is stored stripped |
| Mappers.KeepPieces | mods_generator/__init__.py:418-420 | the loop keeps exactly `Kept(parts)` |
| Mappers.DividePieces | mods_generator/__init__.py:420 | the loop gives exactly `Divided(pieces)` |
| Mappers.DataValues | mods_generator/__init__.py:418-420 | split, strip, filter and divide give `Divided(Pieces(data))` |
| Mappers.BuildName | mods_generator/__init__.py:710-748 | the name built by the section loop is `NameItem` |
| Mappers.BuildTitle | mods_generator/__init__.py:666-683 | the titleInfo built by the section loop is `TitleItem` |
| Mappers.BuildSubject | mods_generator/__init__.py:585-609 | the subject built by the section loop is `SubjectItem` |
| Mappers.BuildLocation | mods_generator/__init__.py:625-648 | the location built by the section loop is the spec's |
| Mappers.Mapper.constructor | mods_generator/__init__.py:384-398 | a new mapper holds an empty record, or the parent record, with nothing cleared |
| Mappers.Mapper.ClearOnce | mods_generator/__init__.py:491-494 | the state after clearing is `Touch` of the state before |
| Mappers.Mapper.AddNames | mods_generator/__init__.py:490-494 | the state after is `NamesStep` of the state before |
| Mappers.Mapper.AddNamePart | mods_generator/__init__.py:495-501 | the state after is `NamePartStep` of the state before |
| Mappers.Mapper.AddTitles | mods_generator/__init__.py:502-506 | the state after is `TitlesStep` of the state before |
| Mappers.Mapper.AddLanguages | mods_generator/__init__.py:507-519 | the state after is `LanguagesStep` of the state before |
| Mappers.Mapper.AddGenres | mods_generator/__init__.py:520-528 | the state after is `GenresStep` of the state before |
| Mappers.Mapper.AddNotes | mods_generator/__init__.py:570-580 | the state after is `NotesStep` of the state before |
| Mappers.Mapper.AddIdentifiers | mods_generator/__init__.py:610-620 | the state after is `IdentifiersStep` of the state before |
| Mappers.Mapper.AddSubjects | mods_generator/__init__.py:581-609 | the state after is `SubjectsStep` of the state before |
| Mappers.Mapper.AddLocations | mods_generator/__init__.py:621-648 | the state after is `LocationsStep` of the state before |
| Mappers.Mapper.AddRelated | mods_generator/__init__.py:649-662 | the state after is `RelatedStep` of the state before |
| Mappers.Mapper.AddOriginInfo | mods_generator/__init__.py:750-794 | the state after is `OriginStep` of the state before, or the originInfo error |
| Mappers.Mapper.AddPhysical | mods_generator/__init__.py:535-551 | the state after is `PhysicalStep` of the state before |
| Mappers.Mapper.ProcessModsElement | mods_generator/__init__.py:485-664 | the outcome and the state after are `ModsStep`'s |
| Mappers.Mapper.FollowRoute | mods_generator/__init__.py:485-662 | dispatching on the element gives `RouteStep`'s outcome and state |
| Mappers.Mapper.ProcessDwcElement | mods_generator/__init__.py:423-483 | the outcome and the state after are `DwcStore`'s |
| Mappers.Mapper.Store | mods_generator/__init__.py:414-421 | a MODS mapper processes the divided values; a Darwin Core mapper stores the text |
| Mappers.Mapper.StoreValues | mods_generator/__init__.py:417-421 | outside the package's Darwin Core branch the text is split on `||`, empty pieces are dropped and each piece is divided; the new state or the error is `StoreStep`'s |
| Mappers.Mapper.AddData | mods_generator/__init__.py:405-421 | the outcome and the state after are `AddDataStep`'s |
| Mappers.Mapper.AddFields | mods_generator/__init__.py:399-400 | the outcome and the state after are `RunFields`'s |
| Mappers.NewMapper | mods_generator/__init__.py:384-400 | a mapper built from field data holds `RunFields` of the initial state |
| Assembly.FindCellFirst | mods_generator/__init__.py:174-176 | gives the first cell from `k` whose lowercase is a key, or None when there is none |
| Assembly.ColFromIdNames | mods_generator/__init__.py:171-182 | the definition of `_get_col_from_id_names`: the control row first, then row 1 (its law: ColumnLookup) |
| Assembly.ColumnLookup | mods_generator/__init__.py:171-182 | the first matching column of the control row, else the first matching column of row 1, else None; names are lowercased in the package and not in the script |
| Assembly.RowReadTwice | mods_generator/__init__.py:212-268 | reading a row twice gives what reading it once gives |
| Assembly.ScriptRowBefore1900 | generate_mods.py:305-312 | in the script, the data row `7/13/1899` under a `date` header reads as `1899-07-13` with the corrected date function, while the date function as written fails on that cell |
| Assembly.RowRead | mods_generator/__init__.py:212-268 | the definition of `get_row` on the stored rows: rows after the control row have their date cells rewritten (its laws: RowReadTwice, OnlyDateColumnsChange, VerbatimDatesDiffer) |
| Assembly.ReadStep | mods_generator/__init__.py:162-165 | reading the data rows in order is reading them one at a time |
| Assembly.OnlyDateColumnsChange | mods_generator/__init__.py:261-268 | only cells under a date column are rewritten |
| Assembly.VerbatimDatesDiffer | mods_generator/__init__.py:263 | the package skips verbatim date columns; the script rewrites them |
| Assembly.NextIdCounts | mods_generator/__init__.py:100-110 | the generated xml id is the group id with its occurrence count (parent: `g`, `g_1`, …; child: `g_1`, `g_2`, …) and the counters keep tracking the groups seen |
| Assembly.NextId | mods_generator/__init__.py:100-110 | the generated xml id and the `xml_ids` counters after it (its law: NextIdCounts) |
| Assembly.GeneratedId | mods_generator/__init__.py:100-110 | the xml id of a group's record with `k` records of the group before it (its laws: XmlIdsPerGroup, GeneratedIdExamples) |
| Assembly.GroupFromXmlId | mods_generator/__init__.py:112-113 | the group id is the xml id up to its first '_', or all of it |
| Assembly.MappedInOrder | mods_generator/__init__.py:114-117 | the field data holds exactly the non-empty mapped cells, in column order, each with its column's location |
| Assembly.MappedCells | mods_generator/__init__.py:114-117 | the field data of a row's first cells, one per non-empty mapped cell (its law: MappedInOrder) |
| Assembly.MappedFromHeaders | mods_generator/__init__.py:199-210 | a field's location is the stripped control-row header of its column, which starts with '<' |
| Assembly.PackageTaxonRule | mods_generator/__init__.py:126-160 | a variety or subspecies adds its epithet and rank; the authorship comes from the rank's author column when set; the accepted name comes last when non-blank |
| Assembly.PackageTaxonFields | mods_generator/__init__.py:126-160 | the fields `_dwc_dynamic_fields` appends in the package (its laws: PackageTaxonRule, VarietyBeforeSubspecies, RankAuthorOverrides, InnerSpacesKept) |
| Assembly.VarietyBeforeSubspecies | mods_generator/__init__.py:136-150 | with a variety, the subspecies columns are never read |
| Assembly.RankAuthorOverrides | mods_generator/__init__.py:140-150 | the rank's author replaces the species author |
| Assembly.InnerSpacesKept | mods_generator/__init__.py:130-159 | only the ends of the accepted name are stripped: genus `Acer`, no species, author `L.` gives `Acer  L.` |
| Assembly.ScriptTaxonRule | generate_mods.py:174-205 | on a row that holds the cells the taken branch reads (the genus cell only when a variety, subspecies or species is present), the accepted name comes first; the epithet and rank follow exactly when a variety or subspecies is present |
| Assembly.ScriptTaxonFields | generate_mods.py:174-205 | the fields the script's `_dwc_dynamic_fields` appends, reading the genus and author cells only inside the branch taken (its laws: ScriptTaxonRule, ScriptColumnZeroAbsent, ScriptShortRowNoTaxon) |
| Assembly.ScriptShortRowNoTaxon | generate_mods.py:174-205 | a row shorter than the genus column whose variety cell is empty, with no other taxon column, fits the script's rule and gets no taxon field |
| Assembly.ScriptColumnZeroAbsent | generate_mods.py:177 | a variety column at index 0 counts as absent, since `if variety_col` is false for 0 |
| Assembly.MakeRecord | mods_generator/__init__.py:11-23 | empty field data raises in the package and crashes in the script; otherwise a Darwin Core record exactly when the first field's path contains `<dc` or `<dwc` |
| Assembly.IdsOf | mods_generator/__init__.py:93-113 | a given xml id is kept and no counter moves; a missing group id is derived from the xml id; a missing xml id is generated; at least one id is non-empty |
| Assembly.EmitRow | mods_generator/__init__.py:114-123 | an emitted record carries the row's ids and its mapped cells as a prefix of its fields; a raise happens only in the package, on a row without field data |
| Assembly.ScriptShortRowEmitted | generate_mods.py:174-205 | in the script, the row `["id", "", "text"]` with genus column 3, variety column 1 and column 2 mapped to a note is emitted, with the note as its only field |
| Assembly.RowStep | mods_generator/__init__.py:89-123 | a row is skipped exactly when neither id cell is truthy, keeping the counters; the only error is the package's empty-field-data error |
| Assembly.SetupRaises | mods_generator/__init__.py:75-87 | no id column raises the id error; in the package, no mapped column raises the mapping error; no other error occurs |
| Assembly.SetupOf | mods_generator/__init__.py:75-88 | the columns `get_xml_records` looks up before the data rows |
| Assembly.RecordsFrom | mods_generator/__init__.py:89-124 | the definition of the row loop of `get_xml_records`, each row read through `get_row` (its laws: RecordsRaise, RecordsHaveIds, XmlIdsPerGroup) |
| Assembly.XmlRecordsOf | mods_generator/__init__.py:73-124 | the definition of `get_xml_records`: the setup error if any, else the records of the rows after the control row (its laws: SetupRaises, RecordsHaveIds) |
| Assembly.RecordsRaise | mods_generator/__init__.py:89-123 | the row loop raises only the package's empty-field-data error |
| Assembly.XmlIdsPerGroup | mods_generator/__init__.py:99-110 | without an xml id column, every record's xml id is its group id with the group's running count |
| Assembly.GeneratedIdExamples | mods_generator/__init__.py:100-110 | parent ids are `g`, then `g_1`, `g_2`; the first child id is `g_1` |
| Assembly.RecordsHaveIds | mods_generator/__init__.py:97-123 | every record has a non-empty group id or xml id, and non-empty field data |
| Assembly.NonEmptyRows | mods_generator/__init__.py:66-69 | the rows kept are no more than those read, and none is empty |
| Assembly.NonEmptyRowsAppend | mods_generator/__init__.py:66-69 | dropping empty rows from a concatenation is dropping them from each part: each row is kept or dropped on its own, in order |
| Assembly.NonEmptyRowsOne | mods_generator/__init__.py:68-69 | one row is kept exactly when it is not empty |
| Assembly.NonEmptyRowsMembers | mods_generator/__init__.py:66-69 | a row is kept exactly when it was read and is not empty |
| Assembly.DataFiles | mods_generator/__init__.py:120-122 | the data-file cell gives one file name per ','-separated part, so at least one |
| Assembly.DataFilesClean | mods_generator/__init__.py:122 | no file name holds a ',' or starts or ends with white space |
| Assembly.DataFilesRoundTrip | mods_generator/__init__.py:122 | names without ',' and not padded with white space, joined by ',', read back as those names |
| Assembly.DataHandler.constructor | mods_generator/__init__.py:55-69 | the handler keeps the non-empty CSV rows |
| Assembly.DataHandler.GetRow | mods_generator/__init__.py:212-268 | the row read is `RowRead`: date cells after the control row are rewritten, and the stored row is replaced by it |
| Assembly.DataHandler.CollectFields | mods_generator/__init__.py:114-117 | the loop collects exactly `MappedCells` |
| Assembly.DataHandler.DwcDynamicFields | mods_generator/__init__.py:126-160 | appends exactly the variant's taxon fields, on any row holding the cells the variant's branch reads |
| Assembly.DataHandler.PackageDynamicFields | mods_generator/__init__.py:126-160 | appends exactly `PackageTaxonFields` |
| Assembly.DataHandler.ScriptDynamicFields | generate_mods.py:174-205 | appends exactly `ScriptTaxonFields`, on any row holding the cells the taken branch reads (the genus cell need not exist when no taxon is present) |
| Assembly.DataHandler.RowRecord | mods_generator/__init__.py:91-123 | the outcome and counters are `RowStep`'s |
| Assembly.DataHandler.RowIdsOf | mods_generator/__init__.py:93-113 | the ids and counters are `IdsOf`'s |
| Assembly.DataHandler.MakeRowRecord | mods_generator/__init__.py:114-123 | the record is `EmitRow`'s |
| Assembly.DataHandler.FindColumns | mods_generator/__init__.py:75-88 | the columns found are `SetupOf` the control row and row 1, with the setup error if any |
| Assembly.DataHandler.ReadRecords | mods_generator/__init__.py:89-124 | the records are `RecordsFrom`'s, and every data row has been read |
| Assembly.DataHandler.ReadRow | mods_generator/__init__.py:90-123 | one pass reads data row `i` through `get_row`, then emits its record, skips it or raises, as `RecordsFrom` does at that row |
| Assembly.DataHandler.GetXmlRecords | mods_generator/__init__.py:73-124 | the records or the error are `XmlRecordsOf`'s, and every data row has been read through `get_row` |

## Left out

- Reading files is left out: `xlrd` workbooks, the float and Excel-date cell
  branch of `get_row`, `csv.Sniffer` and the file encoding. The CSV reader's
  rows are a constructor parameter.
- XML serialisation and the `bdrxml` objects are left out. The record is the
  value in `Document`, holding what the mapper writes and no XML.
- `process()` is left out: writing files, copying parents to children, file
  names and the existence check. So are logging, `OptionParser`,
  `validate.py` and `setup.py`, which are I/O.
- Python's Unicode whitespace, digits and case mapping are modelled on ASCII
  only. The regex `$` matching before a trailing newline is not modelled.
- After a raise, the model says nothing about the state. The source leaves a
  partly updated object that its callers throw away.
- A `ctrl_row` below 1 is excluded by precondition. Python would index from
  the end of the list.
- Assembly.DataHandler.GetXmlRecords: the model looks up the taxon columns
  once per sheet. The source looks them up again for every row, which gives
  the same columns, since the control row and row 1 are not rewritten.
- An abstract with no text and the wrapper types of `physicalLocation` are
  not modelled. Only the text the mapper sets is kept.
- Divisions.GetDataDivs: sectioned data on which the escape loop meets a
  '#' at index 0 of a text ending in `\` is excluded by precondition,
  because the source loops forever there (see "## Findings"). At the
  `add_data` level, Mapping.StoreStep gives `Undefined` for such data.
- Assembly.RowRead: the script's `get_row` (generate_mods.py:305-312) is
  modelled with the corrected date function ScriptDates.ScriptProcessText. As
  written, the script raises `ValueError` from `strftime` on a date before
  1900 in a date column (see "## Findings"). The model rewrites that date
  instead, and Assembly.DataHandler.GetRow, Assembly.RecordsFrom,
  Assembly.XmlRecordsOf and Assembly.DataHandler.GetXmlRecords inherit this.
  Assembly.ScriptRowBefore1900 shows the difference on one row.
- Assembly.DataHandler.GetRow: it reads through Assembly.RowRead, so for the
  script it does not raise on a date before 1900 either.
- Assembly.ColsToMap has no contract of its own. Its properties are stated by
  Assembly.MappedFromHeaders.

## Findings

| source | as written | input that shows it | evidently intended | confidence | as-written member | corrected member |
|---|---|---|---|---|---|---|
| generate_mods.py:414 | the script formats dates with `strftime` (Python 2), which raises for years before 1900 | `7/13/1899` | the date is written `1899-07-13`, as the package does | not executed | ScriptDates.ScriptProcessTextAsWritten (lemmas ScriptDates.AsWrittenRaisesBefore1900, ScriptDates.Before1900Example) | ScriptDates.ScriptProcessText |
| mods_generator/__init__.py:696-700 | the escape test reads `data[ind-1]`; for a '#' at index 0 that is the last character, and when it is a `\` the pass `data[:ind-1] + data[ind:]` regrows the text with a '#' at index 0 again, so the loop never ends (generate_mods.py:730 has the same loop) | `#\` | a '#' with nothing before it is not escaped: `#\` has the divisions "" and `\` | not executed | Divisions.EscapeLoopNeverEnds (with Divisions.HangExample; Mapping.StoreStep reads the hang as `Undefined`) | Divisions.SplitDivs (law Divisions.IntendedRejoin) |
