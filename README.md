# Birthday roster — a Dafny model

The application keeps a roster of union members ("đoàn viên") and helps write
birthday greetings for them. This project models its core in `src/App.jsx`:

- **The `Member` record.** Its constructor classifies free text (a form field
  or a spreadsheet cell) into gender, position and marital status. It also
  trims the name and the unit.
- **Derived values.** Age, "birthday today" and the form of address
  (Anh / Chị / Em / Bạn) come from the date of birth and the current day.
  The position label comes from the position.
- **`GreetingFactory.generateWishes`.** It builds the three greeting texts.
- **`handleImport`.** It finds the columns in the header row, then reads each
  later row into a member. The date of birth can be an Excel serial number,
  a `dd/mm/yyyy` text or any other text. Any `TypeError` abandons the whole
  import.
- **The dashboard.** It shows today's birthdays, and the birthdays of the next
  30 days sorted soonest first.
- **The member list.** It searches by name or unit and deletes by id.

Modules, one file each:

| file | module | what it holds |
|---|---|---|
| `text.dfy` | `Text` | `trim`, `toLowerCase`, `includes`, `split` and integer `toString` as the code uses them |
| `dates.dfy` | `Dates` | proleptic Gregorian days, day numbers from 1970-01-01, `setFullYear` |
| `members.dfy` | `Members` | cells, the classifiers, the `Member` record and its derived values |
| `greetings.dfy` | `Greetings` | the greeting texts and the method that builds them |
| `ingest.dfy` | `Ingest` | column search, date-of-birth resolution, the import loop |
| `roster.dfy` | `Roster` | filter, sort, the birthday lists, search and removal |

How the model represents the source:

- **Cells.** A raw value is a `Cell`: `Empty` (JavaScript `undefined`), a
  string, or an integer. `Falsy` is JavaScript truthiness on cells.
- **Outcomes.** An operation that can throw returns an `Outcome`, either
  `Done(value)` or `TypeError`.
- **The classifiers.** Each classifier is written in two layers. A function of
  (truthiness, key) carries the rules. The cell-level function feeds it
  `Key(c)`, which is `toString().toLowerCase().trim()`.
- **Dates.** A JavaScript `Date` becomes a `Dob`: a valid calendar `Day` or
  `Invalid` (time value NaN).
- **Inputs from outside.** The current day (`new Date()`), the clock
  (`Date.now()`) and the engine's date-string parser (`new Date(text)`) are
  parameters.
- **Loops and in-place updates.**
  - `generateWishes` builds its strings by appending and pushes onto a list.
    `GenerateWishes` is a method that does the same.
  - The import loop is the method `ReadRows`, proved against `Collect`.
  - The dashboard projects a date by updating a copy in place. That is the
    method `ProjectBirthday`, proved against `NextBirthday`.
- **The React state.** The roster is a value, `seq<Member>`. Search and delete
  are filters over it.

Two behaviours of the code that are easy to misread:

- **Projected birthday.** The upcoming list moves the projected birthday to next
  year when `dob < today`. `today` is the current instant, later than that
  day's midnight, so a projection that lands on today's date moves to next
  year too. This matters for a 29 February birth on 1 March of a common year:
  that member is not upcoming.
- **The form's codes.** The entry form and the initial data pass the codes
  `"manager"`, `"leader"` and `"married"`. The code's classifiers do not
  recognise them (see Findings).

## Model

| member | source | states |
|---|---|---|
| Text.Trim | src/App.jsx:22 | the result neither starts nor ends with white space; it is empty exactly when the input is all white space |
| Text.TrimPadded | src/App.jsx:22 | trim forgets any white space added at either end |
| Text.TrimIdempotent | src/App.jsx:22 | trimming twice is trimming once |
| Text.LowerIdempotent | src/App.jsx:22 | lower-casing twice is lower-casing once |
| Text.JoinSplit | src/App.jsx:220 | joining the parts of `split('/')` with `/` gives back the text |
| Text.SplitJoin | src/App.jsx:220-221 | splitting the join of separator-free parts gives back exactly those parts |
| Text.NumberText | src/App.jsx:22 | an integer's `toString()` is non-empty and made only of digits and `-` |
| Dates.FromEpochDay | src/App.jsx:217 | the day built from day number `n` has day number `n` |
| Dates.FromEpochDayInverse | src/App.jsx:217 | from days to day numbers and back is the identity, so each day has one number |
| Dates.EpochDayOrder | src/App.jsx:382 | comparing dates (`dob < today`) agrees with comparing day numbers, both ways, and equal numbers mean equal days |
| Dates.WithYear | src/App.jsx:381 | `setFullYear` keeps month and day, except that 29 February in a common year becomes 1 March |
| Members.TrimOr | src/App.jsx:11 | a falsy name or unit takes the default; anything else is trimmed; the result is empty exactly for non-empty all-white-space text |
| Members.NormalizeGender | src/App.jsx:20-25 | a falsy gender cell is male (the whole rule is `GenderRule`) |
| Members.ClassifyPosition | src/App.jsx:27-33 | `normalizePosition` as written: a falsy cell is staff (the whole rule is `LeaderRule` and `ManagerExactly`) |
| Members.ClassifyMarital | src/App.jsx:35-40 | `normalizeMarital` as written: a falsy cell is single (the whole rule is `MaritalRule`) |
| Members.NormalizePosition | src/App.jsx:27-33 | the corrected position rule: a falsy cell is staff; the result is the as-written class unless the key is that position's own code |
| Members.NormalizeMarital | src/App.jsx:35-40 | the corrected marital rule: a falsy cell is single; the result is the as-written class unless the key is that status's own code |
| Members.FalsyKeyIsNoCode | src/App.jsx:20-40 | the key of a falsy cell (`""` or `"0"`) is none of the codes `manager`, `leader` and `married` |
| Members.NewMember | src/App.jsx:9-17 | the constructor (with the corrected classifiers) throws exactly when the name or the unit is a non-zero number; otherwise it keeps id and date of birth; a falsy name or unit takes its default and any other is trimmed; the member is female exactly when the gender key is truthy and holds a female token; leader exactly for the code `leader` or a truthy key with a leader token (and not the code `manager`); manager exactly for the code `manager` or a truthy key with a manager token and no leader token (and not the code `leader`); married exactly for the code `married` or a truthy key with a marriage token |
| Members.NewMemberAsWritten | src/App.jsx:9-17 | the constructor with `normalizePosition` and `normalizeMarital` as written: it throws in the same cases; leader exactly for a truthy key with a leader token, manager exactly for a truthy key with a manager token and no leader token, married exactly for a truthy key with a marriage token |
| Members.ConstructorsAgree | src/App.jsx:9-40 | the two constructors throw alike and build the same member except for position and marital status, and those agree too unless the cell holds one of the codes |
| Members.KeyIgnoresPadding | src/App.jsx:22 | white space around the raw text does not change the text the classifiers look at |
| Members.KeyIgnoresCase | src/App.jsx:22 | capitals in the raw text do not change the text the classifiers look at |
| Members.SameKeySameClasses | src/App.jsx:20-40 | two cells with the same key classify alike under both the as-written and the corrected rules, unless they differ in truthiness while the key is non-blank |
| Members.BlankTextDefaults | src/App.jsx:20-40 | text of white space alone classifies as male, staff and single, like the empty string, under both the as-written and the corrected rules |
| Members.ClassifiersIgnorePadding | src/App.jsx:20-40 | gender, position and marital status ignore surrounding white space, under both the as-written and the corrected rules |
| Members.ClassifiersIgnoreCase | src/App.jsx:20-40 | gender, position and marital status ignore letter case, under both the as-written and the corrected rules |
| Members.NumbersClassifyAsDefaults | src/App.jsx:20-40 | a numeric cell classifies as male, staff and single under both the as-written and the corrected rules: its digits hold no token |
| Members.GenderRule | src/App.jsx:20-25 | the gender is female exactly when the text is truthy and its key holds "nữ" or "female" or is "f"; male otherwise |
| Members.LeaderRule | src/App.jsx:27-33 | as written, the position is leader exactly when the text is truthy and its key holds "chủ tịch", "giám đốc", "lãnh đạo" or "phó" |
| Members.MaritalRule | src/App.jsx:35-40 | as written, the status is married exactly when the text is truthy and its key holds "kết hôn", "gia đình", "có vợ" or "có chồng"; single otherwise |
| Members.CorrectionOnlyForCodes | src/App.jsx:27-40 | the corrected classifiers agree with the ones as written on every key except the codes `manager`, `leader` and `married` |
| Members.PositionPrecedence | src/App.jsx:30-31 | truthy text holding "phó phòng" is a leader's, because "phó" is tried first |
| Members.ManagerExactly | src/App.jsx:30-31 | the result is manager exactly when the text is truthy, holds no leader token, and holds "trưởng" or "quản lý"; the "phó phòng" test never decides |
| Members.GenderCodeRoundTrip | src/App.jsx:20-25 | each gender code (`male`, `female`) classifies back as itself |
| Members.LatinWordMisread | src/App.jsx:27-40 | as written, any plain lower-case ASCII word classifies as staff and single |
| Members.PositionCodeMisread | src/App.jsx:27-33 | as written, the codes `manager` and `leader` classify as staff |
| Members.MarriedCodeMisread | src/App.jsx:35-40 | as written, the code `married` classifies as single |
| Members.PositionCodeRoundTrip | src/App.jsx:27-33 | with the corrected rule, each position code classifies back as itself |
| Members.MaritalCodeRoundTrip | src/App.jsx:35-40 | with the corrected rule, each marital code classifies back as itself |
| Members.Member.Age | src/App.jsx:42-51 | an invalid date of birth gives 0; otherwise the age-th anniversary is on or before today and the next one is after today |
| Members.Member.GetAge | src/App.jsx:42-51 | the method with its local decrement computes `Age` |
| Members.AgeUnique | src/App.jsx:42-51 | exactly one count of years satisfies the anniversary bounds, and it is the age |
| Members.BirthdayIsAnniversary | src/App.jsx:53-58 | `isBirthdayToday`: a birthday today is exactly today being the anniversary of the age just reached |
| Members.BirthdayIgnoresYear | src/App.jsx:53-58 | whether today is the birthday does not depend on the year |
| Members.Member.Pronoun | src/App.jsx:60-65 | `getPronoun`: an invalid date of birth gives Em, and Em is given exactly below the reference age 40 |
| Members.AddressFor | src/App.jsx:60-65 | Anh or Chị (by gender) above 40, Em below 40, Bạn at 40, each as an if-and-only-if |
| Members.InvalidDobIsJunior | src/App.jsx:42-65 | an invalid date of birth counts as age 0, which is addressed as Em |
| Members.PositionLabelsDistinct | src/App.jsx:67-74 | `getPositionLabel` tells positions apart: two members have the same position label exactly when they have the same position |
| Greetings.GenerateWishes | src/App.jsx:81-116 | the appending method yields `Wishes`, the greetings as a value: three options tagged Công việc, Tình cảm and Ngắn gọn, in that order |
| Greetings.LoweredAddresses | src/App.jsx:88 | the in-sentence forms of address are anh, chị, em and bạn |
| Greetings.WishesNameMember | src/App.jsx:86-112 | every greeting contains the member's name |
| Greetings.WishesNameUnit | src/App.jsx:86-112 | the work greeting and the short greeting contain the member's unit |
| Greetings.WorkWishTellsPosition | src/App.jsx:86-93 | with the same address, name and unit, the work greetings are equal exactly when the positions are |
| Greetings.LifeWishTellsGenderAndMarital | src/App.jsx:97-108 | with the same address and name, the life greetings are equal exactly when gender and marital status both are |
| Ingest.FindColumn | src/App.jsx:201-206 | the index found is the first header marking the column, or -1 when none does; it throws only when it reaches an empty header cell before any header marking the column |
| Ingest.FindColumnsAgree | src/App.jsx:201-206 | `FindColumns` returns the six searches' answers, and it throws exactly when one of the six searches throws |
| Ingest.FullHeaderFindsColumns | src/App.jsx:198-206 | a header row without empty cells never throws |
| Ingest.FromSerial | src/App.jsx:217 | a serial gives a valid date exactly within the JavaScript time range, and that date's day number is the serial minus 25569 |
| Ingest.SerialRoundTrip | src/App.jsx:217 | every day in range is the date of its day number plus 25569 |
| Ingest.SerialOfEpoch | src/App.jsx:217 | serial 25569 is 1970-01-01 |
| Ingest.SerialIn2020 | src/App.jsx:217 | serial 44000 is 18 June 2020, counted through the closed form of the days before a year |
| Dates.DaysBeforeYearClosed | src/App.jsx:217 | the days before a year are 365 per year since 1970 plus one per Gregorian leap year in between |
| Ingest.DayMonthYear | src/App.jsx:218-221 | a `dd/mm/yyyy` text is parsed as `yyyy-mm-dd` |
| Ingest.ResolveDobCases | src/App.jsx:213-223 | `ResolveDob`: a number is read as an Excel serial, a text without exactly two `/` goes to the parser unchanged, and a missing cell keeps today |
| Ingest.RowMember | src/App.jsx:208-233 | a row is skipped exactly when its name cell is falsy; it throws exactly when a truthy name or unit is a number; a built member has the id and the resolved date of birth; cells are read with `CellAt`, where an index out of range, including -1, reads as undefined |
| Ingest.MissingFieldsDefault | src/App.jsx:225-233 | in a member built from a row, every field whose column is missing holds that field's default |
| Ingest.NoDobBornToday | src/App.jsx:213-223 | a row without a date of birth gives a member with a birthday today, aged 0 |
| Ingest.Import | src/App.jsx:195-234 | the import yields `Imported`: nothing for fewer than two rows, a failure when the header search throws, otherwise the collected rows |
| Ingest.ReadRows | src/App.jsx:208-234 | the loop yields `Collect` of the row results: the built members in row order, or a failure at the first row that throws |
| Ingest.FailureSticks | src/App.jsx:208-234 | once a row has thrown, the import fails whatever rows follow |
| Ingest.CollectFails | src/App.jsx:208-234 | the import fails exactly when some row throws |
| Ingest.CollectBuilt | src/App.jsx:225-233 | without a failure, there is one member per built row, in row order |
| Ingest.ReadFromNamedRows | src/App.jsx:208-234 | each imported member is the member its row builds, in row order, and there are at most as many as data rows |
| Ingest.NamedRowsBuilt | src/App.jsx:210 | without a failure, a row gives a member exactly when its name cell is truthy |
| Ingest.RowResultIds | src/App.jsx:226 | the member from row i has id `Date.now() + i` |
| Ingest.ReadIdsIncrease | src/App.jsx:226 | while the clock does not go back, imported ids strictly increase in row order |
| Ingest.NoNameColumnReadsNothing | src/App.jsx:201-210 | without a name column no row gives a member, and nothing fails |
| Ingest.RowResultDefaults | src/App.jsx:225-233 | in every built row, the fields of missing columns take their defaults |
| Ingest.MissingColumnsDefault | src/App.jsx:225-233 | every imported member has the defaults for the fields whose columns are missing |
| Ingest.ImportedReadsRows | src/App.jsx:195-234 | `Imported`: fewer than two rows import nothing; a header that throws fails the import; otherwise the rows are read with the columns found |
| Roster.FilterCounts | src/App.jsx:375 | a filter keeps each passing element as often as it occurs, and nothing else |
| Roster.FilterInOrder | src/App.jsx:375 | a filter keeps the elements it passes in the order of its input |
| Roster.SortBy | src/App.jsx:385-392 | the sort is ascending by key and a permutation of its input |
| Roster.TodayBirthdaysSpec | src/App.jsx:375 | a member is in `TodayBirthdays` exactly when it is in the roster, has a valid date of birth, and shares today's month and day |
| Roster.NextBirthday | src/App.jsx:380-382 | the projected birthday falls after today, this year or next; it moves to next year exactly when this year's projection is not after today; month and day are kept except 29 February into 1 March, and a 29 February birthday stays in February exactly when it falls this year and this year is a leap year |
| Roster.ProjectBirthday | src/App.jsx:380-382 | the in-place projection yields `NextBirthday` |
| Roster.DaysUntil | src/App.jsx:383 | the days to the projected birthday are at least one |
| Roster.UpcomingMembers | src/App.jsx:376-384 | `Upcoming` holds each upcoming member as often as the roster does, and no one else |
| Roster.UpcomingOrdered | src/App.jsx:385-392 | the upcoming list is ordered by the day of the coming birthday |
| Roster.UpcomingWithinMonth | src/App.jsx:376-384 | an upcoming birthday is 1 to 30 days away, and is never one of today's birthdays |
| Roster.Search | src/App.jsx:489-492 | the search keeps each matching member as often as the roster holds it, and no one else, in roster order; matching is the lower-cased query occurring in the lower-cased name or unit |
| Roster.EmptyQueryKeepsAll | src/App.jsx:489-492 | the empty query shows the whole roster |
| Roster.SearchIgnoresCase | src/App.jsx:489-492 | the search result does not depend on the case of the query |
| Roster.NarrowingQuery | src/App.jsx:489-492 | a member that matches a query matches every part of it |
| Roster.Remove | src/App.jsx:541 | no remaining member has the deleted id, and every member with another id keeps its count and its place in roster order |
| Roster.RemoveIdempotent | src/App.jsx:541 | deleting twice is deleting once, and deletions commute |

## Left out

- The user interface is left out: React state, tabs, modals, the clipboard, alerts and the rendering.
- Loading the spreadsheet library and decoding a workbook (`loadLibrary`, `parseFile`, `downloadTemplate`) are I/O. The import starts from the decoded rows.
- The clock and the current day are parameters: `Date.now()` is `clock` and `new Date()` is `now`.
- The engine's parsing of date text (`new Date(text)`) is the parameter `parse`.
- Time zones are not modelled. Dates are calendar days in UTC.
- Time of day is not modelled: `today` is taken to be later than its own midnight. At exactly midnight, `dob < today` and the rounding up of the day count would differ by one day.
- Cells hold integers only. A fractional Excel serial, which `Math.round` brings to a whole millisecond, is not modelled.
- Numbers whose `toString()` uses exponent notation (magnitude 10^21 and above) are not modelled.
- Excel's 1900 leap-year bug is not modelled. The serial is converted exactly as the code computes it.
- Cells are empty, text or integers. Other cell types, such as booleans or dates, are not modelled. An empty header cell is a hole, which makes `findIndex`'s callback throw.
- Text.Lower: covers ASCII, Latin-1 and the precomposed Vietnamese capitals only. Other Unicode case mappings, including ones that change the length, are not modelled.
- Roster.SortBy: stable insertion by key. `Array.prototype.sort` with a subtracting comparator may order members with the same projected birthday differently. Only order by key and the multiset of members are promised.
- Ingest.ReadRows: takes the row step as a function parameter, which `Import` instantiates with `RowMember`. So the row step is a value, not code inside the loop body.
- Members.NewMember: builds its member with the corrected position and marital classifiers (see Findings), and the import uses it. The constructor as written is `NewMemberAsWritten`, and `ConstructorsAgree` shows the two differ only on the codes.
- Adding a member by hand (`AddMemberForm`) is not modelled beyond the constructor it calls. The findings below use its codes.

## Findings

| source | as written | input that shows it | evidently intended | confidence | as-written member | corrected member |
|---|---|---|---|---|---|---|
| src/App.jsx:27-33 | `normalizePosition` looks only for Vietnamese titles, so the application's own codes fall through to `staff` | `new Member(1, 'Trương Gia Bình', '1980-05-19', 'male', 'leader', 'married', 'Tập đoàn')` (line 181), or the form's position `manager` or `leader` (lines 631-632): the position becomes staff | the codes `manager` and `leader` keep their position | not executed | Members.PositionCodeMisread | Members.PositionCodeRoundTrip |
| src/App.jsx:35-40 | `normalizeMarital` looks only for Vietnamese words, so the code `married` falls through to `single` | the same initial member (line 181), or the form's `married` option (line 621): the status becomes single | the code `married` keeps its status | not executed | Members.MarriedCodeMisread | Members.MaritalCodeRoundTrip |
