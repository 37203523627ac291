# Damose arrival matching, modelled in Dafny

Damose is a desktop viewer for the Rome bus network. It reads the static GTFS
timetable and polls a GTFS-Realtime feed of trip updates. For the stop a user
selects, it lists which bus line arrives next: a realtime prediction where one
exists, the timetable otherwise. This project models the matching engine behind
that list in the `project_starter` package:

- **Trip ids.** `TripIdUtils` normalises the trip ids used by the static files
  and by the realtime feed, and generates spelling variants of them
  (`trip_ids.dfy`).
- **Service calendar.** `TripServiceCalendar` and the `calendar_dates.txt`
  loader (`calendar.dfy`, `calendar_loader.dfy`).
- **Trips file.** The `trips.txt` loader and its quote-aware CSV splitter
  (`trips_loader.dfy`).
- **Stop index.** `StopTripMapper`, the per-stop and per-(trip, sequence)
  index of stop times (`trip_index.dfy`).
- **Feed decoding.** `GTFSFetcher.parseTripUpdates`, which turns a decoded
  feed into arrival records with plausible epochs (`feed_decoder.dfy`).
- **Per-stop board.** `ArrivalService` builds the realtime snapshot, looks up
  predictions in two passes (exact, then fuzzy), and builds and formats the
  per-route board of a stop (`arrivals.dfy`).
- **Controller.** The arrival logic of `RealTimeBusTrackerController`: the
  snapshot and route cache refresh, the per-route aggregation of predictions,
  and the static fallback list (`tracker.dfy`).

Shared pieces:

- `clock.dfy`: Java's truncating `long` division, local dates and times at a
  fixed zone offset, `LocalTime.toString`, and the nearest-day choice of
  `computeScheduledEpochForFeed`.
- `text.dfy`: the `String` operations the code relies on.
- `sorting.dfy`: stable sorting by a key, and string sorting.
- `gtfs.dfy`: the record types.
- `wrappers.dfy`: `Option`.

Classes whose fields the Java code updates in place are Dafny classes:

- `TripServiceCalendar`
- `StopTripMapper`
- `ArrivalService`
- `TrackerController`

Their methods are proved against functions of the old state. Java `null` is
`None`. Every loop of the source, and every stream pipeline over a map's
entries, is a `while` loop with invariants, tied to a recursive specification
function by step lemmas.

Collaborators outside the core are function parameters:

- `TripMatcher.matchByTripId` is a `Matcher` (trip id to trip, or none).
- `TripIdUtils.normalizeFeedTripId` is a `FeedNormalizer`.
- The protobuf decoder is `decode`.
- The stop lookups that `GTFSFetcher` makes into `StopTripMapper` are a
  `StopResolver`.

The current time `now`, the zone offset and the feed timestamp are parameters.
Epochs are `int` seconds.

## Model

| member | source | states |
|---|---|---|
| TripIds.LeadingDigits | src/main/java/project_starter/datas/TripIdUtils.java:40 | length of the maximal all-digit prefix: every char before it is a digit, the next one is not |
| TripIds.StripFeedPrefix | src/main/java/project_starter/datas/TripIdUtils.java:40 | result is a suffix of the id; whatever is removed is a `digits#` feed prefix, and an id of that shape always loses exactly that prefix |
| TripIds.StripNamespace | src/main/java/project_starter/datas/TripIdUtils.java:42-53 | result is a suffix of the id; anything removed is a prefix of at most 7 characters ending in `:` |
| TripIds.TrailingZeros | src/main/java/project_starter/datas/TripIdUtils.java:67 | counts exactly the run of trailing `0` characters |
| TripIds.DropZeroPadding | src/main/java/project_starter/datas/TripIdUtils.java:67 | result is a prefix; when something is removed it is a separator followed only by zeros, at least two characters |
| TripIds.NormalizeSimple | src/main/java/project_starter/datas/TripIdUtils.java:33-73 | null and blank ids give null; every non-null result is a trip key: non-empty, lower case, only letters/digits/`-_.`, no leading separator (a trailing one can survive, as in `a--0` giving `a-`) |
| TripIds.CleanKey | src/main/java/project_starter/datas/TripIdUtils.java:55-72 | the cleaning stage yields a key exactly when the id holds an ASCII letter or digit, and that key is non-empty, lower case, made of letters/digits/`-_.` and does not start with a separator |
| TripIds.CleanKeyEmpty | src/main/java/project_starter/datas/TripIdUtils.java:55-72 | the cleaning stage leaves nothing exactly when the id holds no ASCII letter or digit |
| TripIds.KeyShape | src/main/java/project_starter/datas/TripIdUtils.java:60-70 | filtering, edge stripping, zero-padding removal and lower-casing leave, when anything is left, lower-case key characters with no leading separator |
| TripIds.CleanPlainKey | src/main/java/project_starter/datas/TripIdUtils.java:55-72 | on an already plain key the cleaning stage only drops zero padding |
| TripIds.PlainKeyFilter | src/main/java/project_starter/datas/TripIdUtils.java:56-60 | the second trim and the character filter leave a plain key unchanged |
| TripIds.PlainKeyEdges | src/main/java/project_starter/datas/TripIdUtils.java:63-64 | edge-separator removal leaves a key without edge separators unchanged |
| TripIds.PlainKeyLower | src/main/java/project_starter/datas/TripIdUtils.java:67-70 | after zero-padding removal a plain key is still non-empty and already lower case |
| TripIds.NoFeedPrefix | src/main/java/project_starter/datas/TripIdUtils.java:40 | an id without `#` keeps its text through the feed-prefix step |
| TripIds.NoNamespace | src/main/java/project_starter/datas/TripIdUtils.java:47-53 | an id without `:` keeps its text through the namespace step |
| TripIds.NormalizeVia | src/main/java/project_starter/datas/TripIdUtils.java:33-72 | an id whose prefixes strip down to a plain key normalises to that key minus zero padding |
| TripIds.NormalizePlainKey | src/main/java/project_starter/datas/TripIdUtils.java:33-72 | a plain key normalises to itself minus zero padding |
| TripIds.SamePrefixSteps | src/main/java/project_starter/datas/TripIdUtils.java:33-72 | two ids that agree after trimming and prefix stripping normalise identically |
| TripIds.FeedPrefixIgnored | src/main/java/project_starter/datas/TripIdUtils.java:29-40 | `digits#id` and `id` normalise to the same key (the documented `0#4930-11` example, for every id) |
| TripIds.FeedPrefixStripped | src/main/java/project_starter/datas/TripIdUtils.java:40 | the feed-prefix step removes exactly a leading `digits#` |
| TripIds.LowerKeepsPrefix | src/main/java/project_starter/datas/TripIdUtils.java:42 | lower-casing distributes over concatenation, so the lower-cased id starts with the lower-cased prefix |
| TripIds.StripAgency | src/main/java/project_starter/datas/TripIdUtils.java:42-44 | a prefix spelling `agency:` in any letter case (`AGENCY:`, `Agency:`) is removed from the original-case id |
| TripIds.StripTrip | src/main/java/project_starter/datas/TripIdUtils.java:42-46 | a prefix spelling `trip:` in any letter case is removed from the original-case id |
| TripIds.StripShortPrefix | src/main/java/project_starter/datas/TripIdUtils.java:48-52 | a colon-free prefix of 1 to 5 characters before `:` is removed |
| TripIds.NamespaceIgnored | src/main/java/project_starter/datas/TripIdUtils.java:42-46 | an id behind `agency:` or `trip:` in any letter case normalises like the bare id (the documented `agency:4930_11` example, for every id) |
| TripIds.ZeroGroupDropped | src/main/java/project_starter/datas/TripIdUtils.java:66-67 | a trailing separator plus zeros is dropped from a key |
| TripIds.NotIdempotent | src/main/java/project_starter/datas/TripIdUtils.java:66-67 | normalisation is not idempotent: `key-0-0` gives `key-0`, which gives `key` |
| TripIds.RemoveSeparators | src/main/java/project_starter/datas/TripIdUtils.java:104-105 | the result contains no `-`, `_` or `.` |
| TripIds.KeyVariants | src/main/java/project_starter/datas/TripIdUtils.java:102-123 | the variant set of a normalised key holds the key itself, its separator-free form, the `-`→`_` form when it has a `-`, the `_`→`-` form when it has a `_`, and the three dot forms (`.`→`-`, `.`→`_`, dots removed) when it has a `.`; every variant is itself a clean trip key |
| TripIds.SkeletonNotEmpty | src/main/java/project_starter/datas/TripIdUtils.java:105-106 | a normalised key starts with a letter or digit, so its separator-free form is never empty and is always added |
| TripIds.GenerateVariants | src/main/java/project_starter/datas/TripIdUtils.java:85-130 | null gives no variants; no variants exactly for a blank id; the empty string is never a variant; when the id normalises, the set holds the normalised key, its separator-free form and each `-`/`_`/`.` re-spelling that applies, all clean keys; when normalisation fails the only possible variant is the trimmed lower-cased raw id |
| TripIds.FallbackVariant | src/main/java/project_starter/datas/TripIdUtils.java:91-99 | the fallback is empty exactly for a blank id and otherwise is the trimmed lower-cased raw id |
| TripIds.VariantShapes | src/main/java/project_starter/datas/TripIdUtils.java:104-127 | every separator rewrite of a clean key is again a clean key |
| TripIds.FilterKeepsKeyShape | src/main/java/project_starter/datas/TripIdUtils.java:119-122 | removing only separators from a clean key keeps a clean key |
| TripIds.VariantsShareSkeleton | src/main/java/project_starter/datas/TripIdUtils.java:102-123 | every variant has the same separator-free skeleton as the normalised key |
| TripIds.VariantsAmong | src/main/java/project_starter/datas/TripIdUtils.java:102-123 | the variants are drawn from the seven candidate rewrites |
| TripIds.SkeletonOfEachVariant | src/main/java/project_starter/datas/TripIdUtils.java:104-123 | each candidate rewrite has the normalised key's skeleton |
| TripIds.SkeletonIdempotent | src/main/java/project_starter/datas/TripIdUtils.java:105 | removing separators twice equals removing them once |
| TripIds.SkeletonOfReplace | src/main/java/project_starter/datas/TripIdUtils.java:108-121 | replacing one separator by another keeps the skeleton |
| TripIds.SkeletonOfDropDots | src/main/java/project_starter/datas/TripIdUtils.java:122 | dropping dots keeps the skeleton |
| TripIds.NormalizeOrEmpty | src/main/java/project_starter/datas/TripIdUtils.java:135-138 | empty exactly when normalisation fails, the normalised key otherwise |
| Calendar.TripServiceCalendar.constructor | src/main/java/project_starter/datas/TripServiceCalendar.java:9-10 | starts with no services |
| Calendar.TripServiceCalendar.AddServiceDate | src/main/java/project_starter/datas/TripServiceCalendar.java:12-14 | the new map is the old one with the date added to the service, and the service then runs on that date |
| Calendar.TripServiceCalendar.RemoveServiceDate | src/main/java/project_starter/datas/TripServiceCalendar.java:16-22 | the new map is the old one with the date removed (an emptied service is dropped), and the service then does not run on that date |
| Calendar.TripServiceCalendar.ServiceCount | src/main/java/project_starter/datas/TripServiceCalendar.java:29-31 | equals the number of services that run on at least one date |
| Calendar.TripServiceCalendar.ServiceRunsOnDate | src/main/java/project_starter/datas/TripServiceCalendar.java:24-27 | a service the calendar does not hold never runs, and a service that runs on a date is one with at least one date |
| Calendar.AddThenRuns | src/main/java/project_starter/datas/TripServiceCalendar.java:12-27 | after adding a date the service runs on it |
| Calendar.RemoveThenStops | src/main/java/project_starter/datas/TripServiceCalendar.java:16-27 | after removing a date the service does not run on it |
| Calendar.UnknownNeverRuns | src/main/java/project_starter/datas/TripServiceCalendar.java:24-26 | an unknown service runs on no date |
| Calendar.AddOnlyTouchesPair | src/main/java/project_starter/datas/TripServiceCalendar.java:12-14 | adding changes no other (service, date) pair |
| Calendar.RemoveOnlyTouchesPair | src/main/java/project_starter/datas/TripServiceCalendar.java:16-22 | removing changes no other (service, date) pair |
| Calendar.UpdatesKeepNoEmpty | src/main/java/project_starter/datas/TripServiceCalendar.java:12-22 | both updates keep the invariant that no service has an empty date set |
| Calendar.RemoveLastDropsService | src/main/java/project_starter/datas/TripServiceCalendar.java:19-20 | removing a service's only date removes the service and shrinks the count by one |
| Calendar.RemoveUnknownNoOp | src/main/java/project_starter/datas/TripServiceCalendar.java:17-18 | removing from an unknown service changes nothing |
| Calendar.AddIdempotent | src/main/java/project_starter/datas/TripServiceCalendar.java:13 | adding a date that is already there changes nothing |
| Calendar.CountIsActive | src/main/java/project_starter/datas/TripServiceCalendar.java:29-31 | under the invariant, the number of map entries is the number of active services |
| CalendarLoader.NextDayOfMonth | src/main/java/project_starter/datas/CalendarLoader.java:60 | consecutive days of a month are consecutive epoch days |
| CalendarLoader.DateOf | src/main/java/project_starter/datas/CalendarLoader.java:20 | a year of era and MMdd give a date exactly when the year is 1-999999999, the month 1-12 and the day 1-31, and the date is then a real day of that month |
| CalendarLoader.ParseBasicIsoDate | src/main/java/project_starter/datas/CalendarLoader.java:20 | a date is accepted only from 8 ASCII digits, or from `+` and 9-23 ASCII digits (a year of more than four digits), naming year 1-999999999 and month 1-12, and then it is the epoch day of a real calendar date |
| Text.DigitPair | src/main/java/project_starter/datas/CalendarLoader.java:20 | two digits whose value is the given number |
| CalendarLoader.BasicIsoText | src/main/java/project_starter/datas/CalendarLoader.java:20 | the printed form of a date is 8 digits |
| CalendarLoader.BasicIsoFields | src/main/java/project_starter/datas/CalendarLoader.java:20 | the year, month and day fields read back from the printed form |
| CalendarLoader.ParseBasicIsoDateRoundTrip | src/main/java/project_starter/datas/CalendarLoader.java:20 | printing a valid date as `yyyyMMdd` and parsing it gives back that date |
| CalendarLoader.LongYearText | src/main/java/project_starter/datas/CalendarLoader.java:20 | the printed form of a date with a long year is `+` followed by digits only |
| CalendarLoader.LongYearRoundTrip | src/main/java/project_starter/datas/CalendarLoader.java:20 | a date with a five- to nine-digit year, printed with its `+` sign, parses back to that date (`+100000101` is 10000-01-01) |
| CalendarLoader.UnsignedLongYearRejected | src/main/java/project_starter/datas/CalendarLoader.java:20 | a year of more than four digits without its `+` sign is rejected |
| CalendarLoader.SignedShortYearRejected | src/main/java/project_starter/datas/CalendarLoader.java:20 | a four-digit year with a `+` sign is rejected |
| CalendarLoader.ParseClampsDay | src/main/java/project_starter/datas/CalendarLoader.java:60 | a day past the month's end but at most 31 is clamped to the last day of the month (SMART resolver) |
| CalendarLoader.ParseRejectsOutOfRange | src/main/java/project_starter/datas/CalendarLoader.java:60 | year 0, month 0 or above 12, and day 0 or above 31 are rejected |
| CalendarLoader.ParseCalendarLine | src/main/java/project_starter/datas/CalendarLoader.java:38-61 | a row is produced only from a line with at least two commas, and its service id is non-empty and trimmed |
| CalendarLoader.ParseCalendarLineIff | src/main/java/project_starter/datas/CalendarLoader.java:38-61 | a line gives a row exactly when it splits into at least three fields whose trimmed id is non-empty, trimmed date parses and trimmed type is an int; the row holds those values and further fields are ignored |
| CalendarLoader.ThreeFieldLine | src/main/java/project_starter/datas/CalendarLoader.java:38-61 | a line of three comma-free fields gives the row of its trimmed fields when the id is non-empty, the date parses and the type is an int, and no row otherwise (an empty id, a bad date or a non-integer type is skipped) |
| CalendarLoader.WellFormedLine | src/main/java/project_starter/datas/CalendarLoader.java:38-68 | every line `id,yyyyMMdd,type` with a real date and an int type yields the row of that id, date and type |
| CalendarLoader.ParseLines | src/main/java/project_starter/datas/CalendarLoader.java:36-38 | one parse result per line |
| CalendarLoader.LoadFromCalendarDates | src/main/java/project_starter/datas/CalendarLoader.java:33-72 | the loaded calendar is the empty calendar updated by the parsed data rows in file order, and keeps the invariant |
| CalendarLoader.ParseLineAt | src/main/java/project_starter/datas/CalendarLoader.java:36-61 | parsing one line extends the parsed rows by exactly that line's result |
| CalendarLoader.ApplyParsedLine | src/main/java/project_starter/datas/CalendarLoader.java:62-68 | the calendar becomes the old one updated by the row |
| CalendarLoader.ApplyRow | src/main/java/project_starter/datas/CalendarLoader.java:62-68 | type 1 makes the service run on the date, type 2 stops it, any other type and a skipped line change nothing, and no service is left without dates |
| CalendarLoader.ApplyRowsAppend | src/main/java/project_starter/datas/CalendarLoader.java:36-72 | applying rows in sequence is applying the last row to the result of the others |
| CalendarLoader.ApplyRowsKeepsNoEmpty | src/main/java/project_starter/datas/CalendarLoader.java:36-72 | loading any rows keeps the no-empty-service invariant |
| CalendarLoader.LastRowDecides | src/main/java/project_starter/datas/CalendarLoader.java:62-65 | the last row for a (service, date) decides it: type 1 makes it run, type 2 stops it |
| CalendarLoader.OtherRowKeeps | src/main/java/project_starter/datas/CalendarLoader.java:62-68 | a row about another pair, or a skipped line, leaves a pair unchanged |
| CalendarLoader.UnknownExceptionTypeIgnored | src/main/java/project_starter/datas/CalendarLoader.java:66-67 | exception types other than 1 and 2 change nothing |
| CalendarLoader.ShortLineSkipped | src/main/java/project_starter/datas/CalendarLoader.java:42-57 | a line with fewer than two commas yields no row |
| CalendarLoader.HeaderNeverRead | src/main/java/project_starter/datas/CalendarLoader.java:33 | the first line never affects the calendar |
| TripsLoader.CsvFields | src/main/java/project_starter/datas/TripsLoader.java:95-119 | parseCsv returns one field more than the line has commas outside quotes |
| TripsLoader.ParseCsv | src/main/java/project_starter/datas/TripsLoader.java:95-119 | the loop computes the quote-aware CSV field list |
| TripsLoader.PrefixStep | src/main/java/project_starter/datas/TripsLoader.java:100-110 | one more character updates the quote count and the count of commas outside quotes |
| TripsLoader.CsvCount | src/main/java/project_starter/datas/TripsLoader.java:100-117 | invariant of the scan: fields produced so far plus commas still ahead account for all fields |
| TripsLoader.SplitCons | src/main/java/project_starter/datas/TripsLoader.java:110-117 | splitting a line that starts with a non-separator extends its first field |
| TripsLoader.SplitSep | src/main/java/project_starter/datas/TripsLoader.java:110-117 | splitting a line that starts with a separator starts with an empty field |
| TripsLoader.UnquotedEnd | src/main/java/project_starter/datas/TripsLoader.java:117 | at the end of an unquoted line the current field is emitted |
| TripsLoader.UnquotedComma | src/main/java/project_starter/datas/TripsLoader.java:110-112 | an unquoted comma closes the current field |
| TripsLoader.UnquotedChar | src/main/java/project_starter/datas/TripsLoader.java:113-115 | an unquoted ordinary character extends the current field |
| TripsLoader.CsvUnquoted | src/main/java/project_starter/datas/TripsLoader.java:100-117 | without quotes the scan is plain splitting on commas, from any position |
| TripsLoader.CsvWithoutQuotes | src/main/java/project_starter/datas/TripsLoader.java:95-119 | a line without quotes parses exactly as a split on commas, empty fields kept |
| TripsLoader.CsvEscaped | src/main/java/project_starter/datas/TripsLoader.java:102-109 | inside quotes, a field written with its quotes doubled and closed by a single quote adds exactly that field's text |
| TripsLoader.CsvQuotedFrom | src/main/java/project_starter/datas/TripsLoader.java:100-117 | from any position, comma-joined quoted fields add exactly those fields |
| TripsLoader.CsvQuoted | src/main/java/project_starter/datas/TripsLoader.java:95-119 | every non-empty list of fields, each quoted with its quotes doubled and joined by commas, parses back to that list, whatever commas and quotes the fields contain |
| TripsLoader.CsvQuotedField | src/main/java/project_starter/datas/TripsLoader.java:95-119 | a single quoted field parses back to that field |
| TripsLoader.SafeGet | src/main/java/project_starter/datas/TripsLoader.java:88-90 | the field at an index, or empty when the index is past the end |
| TripsLoader.DropQuotes | src/main/java/project_starter/datas/TripsLoader.java:70 | removes every quote and keeps every other character |
| TripsLoader.DirectionOf | src/main/java/project_starter/datas/TripsLoader.java:73-77 | the parsed integer when the field is a valid int, 0 for an empty or malformed field |
| TripsLoader.TripOfLine | src/main/java/project_starter/datas/TripsLoader.java:54-81 | a line yields a trip exactly when it is non-blank and has at least two commas outside quotes; the headsign never contains a quote; a line with fewer than seven such commas has an empty shape id |
| TripsLoader.QuotedTripLine | src/main/java/project_starter/datas/TripsLoader.java:54-81 | every line of three or more quoted fields yields a trip, namely the trip of exactly those fields, whatever commas and quotes they hold |
| TripsLoader.QuotedTripColumns | src/main/java/project_starter/datas/TripsLoader.java:54-81 | the trip read from a line of quoted fields has, column by column, the trimmed ids of fields 0-2, the unquoted headsign of field 3, the short name of field 4, the direction of field 5 and the shape of field 7 |
| TripsLoader.TripColumns | src/main/java/project_starter/datas/TripsLoader.java:66-81 | route, service and trip ids are the trimmed fields 0-2 (the service id kept as written, only trimmed); the headsign is field 3 with its quotes removed and trimmed; the short name is field 4 trimmed; the direction is field 5 read as an int, 0 when missing or malformed; the shape id is field 7 trimmed; a missing field reads as empty |
| TripsLoader.ProcessLine | src/main/java/project_starter/datas/TripsLoader.java:54-86 | appends the line's trip when there is one and nothing otherwise |
| TripsLoader.Load | src/main/java/project_starter/datas/TripsLoader.java:28-43 | the result is the trips of the data lines, in file order, with the header skipped |
| TripsLoader.ProcessLines | src/main/java/project_starter/datas/TripsLoader.java:41-43 | the loop collects the trips of all lines in order |
| TripsLoader.TripsOfAppend | src/main/java/project_starter/datas/TripsLoader.java:41-43 | loading concatenated line lists concatenates the results |
| TripsLoader.TripsOfSnoc | src/main/java/project_starter/datas/TripsLoader.java:41-43 | one more line adds at most that line's trip at the end |
| TripsLoader.TripsOfBound | src/main/java/project_starter/datas/TripsLoader.java:41-43 | never more trips than lines |
| TripsLoader.FirstLineIsData | src/main/java/project_starter/datas/TripsLoader.java:34-39 | when the first line is not a header, it is loaded as data |
| TripIndex.NormalizeTripIdText | src/main/java/project_starter/datas/StopTripMapper.java:100-103 | the result is trimmed and no longer than the input |
| TripIndex.NormalizeTripId | src/main/java/project_starter/datas/StopTripMapper.java:100-103 | null maps to null and only null maps to null |
| TripIndex.LeadingPaddingIgnored | src/main/java/project_starter/datas/StopTripMapper.java:102 | any run of leading `0` and `#` characters is ignored |
| TripIndex.DroppedPrefix | src/main/java/project_starter/datas/StopTripMapper.java:102 | dropping a prefix of droppable characters does not change the result |
| TripIndex.NormalizeTripIdKeepsClean | src/main/java/project_starter/datas/StopTripMapper.java:102 | an id that is trimmed and does not start with `0` or `#` is unchanged |
| TripIndex.TripKeys | src/main/java/project_starter/datas/StopTripMapper.java:28-40 | the directly normalised id is always one of the keys a stop time is indexed under |
| TripIndex.LookupPutAll | src/main/java/project_starter/datas/StopTripMapper.java:29-39 | after indexing under a key set, a lookup finds the new stop for those keys at that sequence and the old value elsewhere |
| TripIndex.PutAllPut | src/main/java/project_starter/datas/StopTripMapper.java:35-40 | indexing one more key is indexing under the enlarged key set |
| TripIndex.PutAllNone | src/main/java/project_starter/datas/StopTripMapper.java:35-40 | indexing under no keys changes nothing |
| TripIndex.SequenceIndexed | src/main/java/project_starter/datas/StopTripMapper.java:29-31 | every stop time with a stop id can be looked up under each of its keys at its sequence |
| TripIndex.LastWriteWins | src/main/java/project_starter/datas/StopTripMapper.java:29-39 | a later stop time with the same key and sequence overwrites an earlier one; otherwise the earlier stop is found |
| TripIndex.DirectKeyIndexed | src/main/java/project_starter/datas/StopTripMapper.java:29-31 | every stop time with a stop id is found under its directly normalised trip id |
| TripIndex.ArrivalKey | src/main/java/project_starter/datas/StopTripMapper.java:43 | stop times without an arrival time sort after every timed one |
| TripIndex.StopTimesAt | src/main/java/project_starter/datas/StopTripMapper.java:26 | exactly the stop times at that stop |
| TripIndex.IndexedStopTimes | src/main/java/project_starter/datas/StopTripMapper.java:26-44 | a stop's list holds exactly its stop times, as a permutation of them, sorted by arrival time with untimed last; unknown stops have none |
| TripIndex.UnknownStopHasNoTimes | src/main/java/project_starter/datas/StopTripMapper.java:96-97 | a stop that never occurs has no stop times |
| TripIndex.MatchedTrips | src/main/java/project_starter/datas/StopTripMapper.java:52-56 | exactly the trips the matcher finds for the stop's stop times, at most one per stop time |
| TripIndex.Distinct | src/main/java/project_starter/datas/StopTripMapper.java:57 | same elements, no duplicates |
| TripIndex.TripsForStopMeaning | src/main/java/project_starter/datas/StopTripMapper.java:48-58 | the trips for a stop are duplicate-free and are exactly the matched trips of its stop times |
| TripIndex.StopTripMapper.constructor | src/main/java/project_starter/datas/StopTripMapper.java:16-46 | known stops, the per-stop sorted stop-time lists and the (trip key, sequence) index are exactly those of the input |
| TripIndex.StopTripMapper.IsKnownStopId | src/main/java/project_starter/datas/StopTripMapper.java:60-62 | a stop id is known exactly when it is present and some stop time read names it, and a known stop has a non-empty stop-time list |
| TripIndex.StopTripMapper.GetStopTimesForStop | src/main/java/project_starter/datas/StopTripMapper.java:96-98 | the stop's stop times are exactly those read for it, each as often as read, ordered by arrival time with missing times last; nothing for an unknown stop |
| TripIndex.StopTripMapper.GetTripsForStop | src/main/java/project_starter/datas/StopTripMapper.java:48-58 | the result is the distinct matched trips of the stop's stop times |
| TripIndex.StopTripMapper.GetStopIdByTripAndSequence | src/main/java/project_starter/datas/StopTripMapper.java:64-94 | null trip gives null; a direct hit is returned; otherwise a result is found exactly when some variant of the id hits, and it is that variant's stop |
| TripIndex.FirstVariantHit | src/main/java/project_starter/datas/StopTripMapper.java:78-90 | finds a stop exactly when some variant hits, and returns a hit |
| TripIndex.KnownStopsStep | src/main/java/project_starter/datas/StopTripMapper.java:24 | one more stop time adds its stop id to the known stops |
| TripIndex.StopKeysStep | src/main/java/project_starter/datas/StopTripMapper.java:26 | one more stop time adds its stop key |
| TripIndex.StopTimesAtStep | src/main/java/project_starter/datas/StopTripMapper.java:26 | one more stop time is appended to its own stop's list only |
| TripIndex.IndexStep | src/main/java/project_starter/datas/StopTripMapper.java:29-39 | one more stop time is indexed under all its keys |
| TripIndex.GroupStep | src/main/java/project_starter/datas/StopTripMapper.java:26 | adding one stop time keeps every group equal to the stop times at that stop |
| TripIndex.GroupStopTimes | src/main/java/project_starter/datas/StopTripMapper.java:18-41 | the loop builds the known stops, the groups and the sequence index of all stop times |
| TripIndex.AddStopTime | src/main/java/project_starter/datas/StopTripMapper.java:19-26 | one loop step keeps known stops and groups exact for the processed prefix |
| TripIndex.IndexNext | src/main/java/project_starter/datas/StopTripMapper.java:28-40 | one loop step keeps the index exact for the processed prefix |
| TripIndex.IndexStopTime | src/main/java/project_starter/datas/StopTripMapper.java:28-40 | indexes a stop time under its direct key and all variant keys |
| TripIndex.PutOne | src/main/java/project_starter/datas/StopTripMapper.java:29-31 | a single put is indexing under a one-key set |
| TripIndex.PutVariants | src/main/java/project_starter/datas/StopTripMapper.java:34-40 | the variant loop adds exactly the keys of all variants |
| TripIndex.KeysOfStep | src/main/java/project_starter/datas/StopTripMapper.java:35-36 | one more variant adds its key |
| TripIndex.SortGroups | src/main/java/project_starter/datas/StopTripMapper.java:42-44 | every group is replaced by its arrival-sorted list |
| FeedDecoder.NormalizeEpoch | src/main/java/project_starter/model/GTFSFetcher.java:26-41 | rejected values give -1; accepted values are plausible epoch seconds, positive and never above the input |
| FeedDecoder.MillisAgreeWithSeconds | src/main/java/project_starter/model/GTFSFetcher.java:30-37 | a time in milliseconds normalises to the same epoch second as that second |
| FeedDecoder.NormalizeEpochIdempotent | src/main/java/project_starter/model/GTFSFetcher.java:26-41 | normalising twice equals normalising once |
| FeedDecoder.NormalizeEpochKeeps | src/main/java/project_starter/model/GTFSFetcher.java:34-37 | a positive value is kept unchanged exactly when it is already in the seconds range |
| FeedDecoder.ResolvedStop | src/main/java/project_starter/model/GTFSFetcher.java:88-97 | the explicit stop id, or the stop found by sequence; a known explicit stop is always used; when the explicit stop is missing or unknown, a sequence is given and the mapper finds a stop, that stop replaces it; no stop only without an explicit one |
| FeedDecoder.RecordOf | src/main/java/project_starter/model/GTFSFetcher.java:79-109 | a record is made only for a non-skipped update, carries the raw trip id, and has a plausible epoch |
| FeedDecoder.UpdateRecords | src/main/java/project_starter/model/GTFSFetcher.java:78-110 | at most one record per stop time update |
| FeedDecoder.UpdateRecordsPlausible | src/main/java/project_starter/model/GTFSFetcher.java:106-108 | every record of a trip update carries its trip id and a plausible epoch |
| FeedDecoder.FeedRecordsPlausible | src/main/java/project_starter/model/GTFSFetcher.java:72-111 | every record of the feed has a plausible epoch |
| FeedDecoder.UpdateRecordsAppend | src/main/java/project_starter/model/GTFSFetcher.java:78-110 | records of concatenated update lists are the concatenated records |
| FeedDecoder.FeedRecordsAppend | src/main/java/project_starter/model/GTFSFetcher.java:72-111 | records of concatenated entity lists are the concatenated records |
| FeedDecoder.Usable | src/main/java/project_starter/model/GTFSFetcher.java:80-86 | no skipped update remains |
| FeedDecoder.SkippedIgnored | src/main/java/project_starter/model/GTFSFetcher.java:80-86 | skipped updates contribute no records |
| FeedDecoder.DepartureOnlyAsFallback | src/main/java/project_starter/model/GTFSFetcher.java:99-104 | when an arrival time is present the departure does not matter |
| FeedDecoder.KnownStopRecorded | src/main/java/project_starter/model/GTFSFetcher.java:88-108 | an update at a known stop with an acceptable time yields exactly the record (trip, trimmed stop, normalised epoch) |
| FeedDecoder.MappedStopRecorded | src/main/java/project_starter/model/GTFSFetcher.java:88-108 | an update whose own stop is missing or unknown but whose sequence the mapper resolves, with an acceptable time, yields exactly the record at the mapped stop |
| FeedDecoder.FeedRecordsStep | src/main/java/project_starter/model/GTFSFetcher.java:72-111 | one more entity appends its records |
| FeedDecoder.UpdateRecordsStep | src/main/java/project_starter/model/GTFSFetcher.java:78-110 | one more update appends its record, if any |
| FeedDecoder.ParseTripUpdates | src/main/java/project_starter/model/GTFSFetcher.java:67-117 | the loops compute the records of every trip-update entity in feed order; a missing feed gives none |
| FeedDecoder.DecodeTripUpdate | src/main/java/project_starter/model/GTFSFetcher.java:75-110 | the records of one trip update, in order |
| FeedDecoder.DecodeUpdate | src/main/java/project_starter/model/GTFSFetcher.java:79-109 | the record of one stop time update, if any |
| FeedDecoder.ParseTripUpdatesFromBytes | src/main/java/project_starter/model/GTFSFetcher.java:47-57 | null or empty bytes give no records; otherwise the records of the decoded feed, all with plausible epochs |
| Arrivals.KeyTrimmed | src/main/java/project_starter/controller/ArrivalService.java:220-222 | the trim after normalisation never changes a key |
| Arrivals.NormalizeTripKey | src/main/java/project_starter/controller/ArrivalService.java:217-224 | the key is exactly the shared normalisation, because the extra trim is a no-op |
| Arrivals.UnnormalisableDropped | src/main/java/project_starter/controller/ArrivalService.java:55-57 | a record whose trip id does not normalise is stored under no key |
| Arrivals.StorePut | src/main/java/project_starter/controller/ArrivalService.java:59-63 | storing under one more key is storing under the enlarged set |
| Arrivals.StoreNone | src/main/java/project_starter/controller/ArrivalService.java:59-63 | storing under no keys changes nothing |
| Arrivals.ArrivalStore | src/main/java/project_starter/controller/ArrivalService.java:59-63 | after storing, every stored key has the new epoch at that stop and all else is unchanged |
| Arrivals.LatestRecordWins | src/main/java/project_starter/controller/ArrivalService.java:53-64 | the last record for a (key, stop) pair decides the stored epoch |
| Arrivals.UnstoredAbsent | src/main/java/project_starter/controller/ArrivalService.java:53-64 | a (key, stop) pair that no record reaches is absent |
| Arrivals.SnapshotStep | src/main/java/project_starter/controller/ArrivalService.java:54-64 | one more record is stored under its variant keys |
| Arrivals.StoreUnder | src/main/java/project_starter/controller/ArrivalService.java:59-63 | the loop stores the epoch under every key of the set |
| Arrivals.LookupFindsIff | src/main/java/project_starter/controller/ArrivalService.java:185-210 | a lookup finds an epoch exactly when some stored key contains some variant and has the stop |
| Arrivals.ExactPass | src/main/java/project_starter/controller/ArrivalService.java:185-193 | finds an epoch exactly when some variant is stored with that stop, and returns that epoch |
| Arrivals.FuzzyPass | src/main/java/project_starter/controller/ArrivalService.java:195-208 | finds an epoch exactly when some stored key equals, ends with or contains a variant and has the stop, and returns that key's epoch |
| Arrivals.MatchingVariant | src/main/java/project_starter/controller/ArrivalService.java:197-206 | for one stored key: a hit exactly when some variant matches it and it has the stop |
| Arrivals.LookupIn | src/main/java/project_starter/controller/ArrivalService.java:184-211 | the exact pass first, the fuzzy pass otherwise |
| Arrivals.StoredFound | src/main/java/project_starter/controller/ArrivalService.java:53-64 | every stored record can be found at its stop under each of its keys |
| Arrivals.SameKeyFound | src/main/java/project_starter/controller/ArrivalService.java:179-193 | a static trip whose normalised id equals a record's finds a realtime epoch at that record's stop |
| Arrivals.StaticEpochInSeconds | src/main/java/project_starter/controller/ArrivalService.java:84-107 | a stop time has a static time exactly when its trip is matched and in service, it has an arrival, and the scheduled epoch is positive and between -2 and 120 minutes (truncated) from now |
| Arrivals.KeptPredictionInSeconds | src/main/java/project_starter/controller/ArrivalService.java:114-120 | a prediction is kept exactly when it is between -2 and 90 minutes (truncated) from now, and is kept unchanged |
| Arrivals.CandidatePlausible | src/main/java/project_starter/controller/ArrivalService.java:84-122 | every candidate is for its stop time and its trip's route, and lies in the allowed windows |
| Arrivals.CandidatesStep | src/main/java/project_starter/controller/ArrivalService.java:83-122 | one more stop time appends its candidate |
| Arrivals.BoardStep | src/main/java/project_starter/controller/ArrivalService.java:122-139 | one more candidate is merged into its route's entry |
| Arrivals.BoardEntries | src/main/java/project_starter/controller/ArrivalService.java:122-139 | a route is on the board exactly when it has a candidate, and its entry is one of its candidates |
| Arrivals.PerRoutePlausible | src/main/java/project_starter/controller/ArrivalService.java:83-140 | every board entry belongs to its route and is plausible |
| Arrivals.BoardFirstMinimal | src/main/java/project_starter/controller/ArrivalService.java:125-138 | when a route's candidates are all realtime or all static, its entry is the first one with the earliest time |
| Arrivals.MinimalLast | src/main/java/project_starter/controller/ArrivalService.java:132-133 | a strictly earlier new candidate becomes the first minimum |
| Arrivals.MinimalKept | src/main/java/project_starter/controller/ArrivalService.java:129-138 | a new candidate that is not earlier keeps the first minimum |
| Arrivals.StatusMeaning | src/main/java/project_starter/controller/ArrivalService.java:159-163 | a positive delay reads `ritardo di N min`, a negative one `anticipo di N min`, zero reads `in orario`; each prefix occurs exactly for its sign, and N is the absolute value of the delay |
| Arrivals.StatusInjective | src/main/java/project_starter/controller/ArrivalService.java:159-163 | different delays give different status texts |
| Arrivals.SortKey | src/main/java/project_starter/controller/ArrivalService.java:266-268 | an entry sorts by its prediction whenever it has one, by its scheduled instant only without one |
| Arrivals.FormatArrivalInfo | src/main/java/project_starter/controller/ArrivalService.java:155-174 | every board line starts with its route id and ` - ` |
| Arrivals.ImminentLabel | src/main/java/project_starter/controller/ArrivalService.java:157-169 | a realtime line says `In arrivo` exactly when the prediction is under 3 minutes away |
| Arrivals.ImminentWithinThreeMinutes | src/main/java/project_starter/controller/ArrivalService.java:158-165 | the minute threshold of 2 is the same as less than 180 seconds |
| Arrivals.RealtimeLineImminent | src/main/java/project_starter/controller/ArrivalService.java:165-168 | a realtime line says `In arrivo` exactly when the minute difference is at most 2 |
| Arrivals.StaticLabel | src/main/java/project_starter/controller/ArrivalService.java:155-173 | a line is marked `(statico)` exactly when it has no prediction |
| Arrivals.PredictedNotStatic | src/main/java/project_starter/controller/ArrivalService.java:157-169 | a predicted entry is never marked static |
| Arrivals.UnpredictedStatic | src/main/java/project_starter/controller/ArrivalService.java:170-173 | an entry without a prediction is always marked static |
| Arrivals.StaticLineMarked | src/main/java/project_starter/controller/ArrivalService.java:172 | the static line ends with ` min (statico)` |
| Arrivals.RealtimeLineParts | src/main/java/project_starter/controller/ArrivalService.java:165-169 | a realtime line starts with its route and ends with its parenthesised status |
| Arrivals.StaticLineNotice | src/main/java/project_starter/controller/ArrivalService.java:171-172 | a static line starts with its route and is never the no-time notice |
| Arrivals.RealtimeLineNotStatic | src/main/java/project_starter/controller/ArrivalService.java:166-168 | a realtime line never ends like a static one |
| Arrivals.StatusNotStatic | src/main/java/project_starter/controller/ArrivalService.java:166-168 | a status in parentheses never ends like a static line |
| Arrivals.Lines | src/main/java/project_starter/controller/ArrivalService.java:143-151 | one line per entry in order, or the single `Nessun arrivo imminente` line when there are none |
| Arrivals.ValuesOf | src/main/java/project_starter/controller/ArrivalService.java:143 | the values of the per-route map, each once |
| Arrivals.ArrivalService.constructor | src/main/java/project_starter/controller/ArrivalService.java:42-46 | keeps its collaborators and starts with an empty realtime snapshot |
| Arrivals.ArrivalService.UpdateRealtimeArrivals | src/main/java/project_starter/controller/ArrivalService.java:51-66 | the snapshot is replaced by the one built from the records in order |
| Arrivals.ArrivalService.LookupRealtimeArrivalEpochStrictByStop | src/main/java/project_starter/controller/ArrivalService.java:179-212 | the result satisfies the two-pass lookup over the stop time's variants |
| Arrivals.ArrivalService.EvaluateStopTime | src/main/java/project_starter/controller/ArrivalService.java:84-122 | the candidate of one stop time, with a prediction looked up only online and only for a stop time that has a static time |
| Arrivals.ArrivalService.CollectBoard | src/main/java/project_starter/controller/ArrivalService.java:81-140 | the per-route board of all the stop's stop times, each with its looked-up prediction |
| Arrivals.ArrivalService.ComputeArrivalsForStop | src/main/java/project_starter/controller/ArrivalService.java:72-153 | the entries are the board's values as a permutation, sorted by time, and the lines are their formatting |
| Arrivals.SanityCheck | src/main/java/project_starter/controller/ArrivalService.java:114-120 | implements the prediction window |
| Arrivals.KeepImminent | src/main/java/project_starter/controller/ArrivalService.java:122-139 | merges one candidate into the board |
| Clock.TruncDiv | src/main/java/project_starter/controller/ArrivalService.java:104 | Java long division: truncates toward zero for negative operands too |
| Clock.LocalTimeText | src/main/java/project_starter/controller/RealTimeBusTrackerController.java:311 | `LocalTime.toString` at second precision: `HH:mm`, plus `:ss` exactly when the seconds are not zero, each field reading back as the hour, minute and second |
| Clock.MinuteWindow | src/main/java/project_starter/controller/ArrivalService.java:104-107 | a truncated minute window lo..hi is the open second window 60(lo-1)..60(hi+1) |
| Clock.LocalRoundTrip | src/main/java/project_starter/controller/ArrivalService.java:233-240 | splitting an epoch into local date and time of day and joining them back gives the epoch |
| Clock.CandidateDistance | src/main/java/project_starter/controller/ArrivalService.java:238-241 | the distance of a day candidate from the feed time is day shift plus time-of-day difference |
| Clock.NearestUpToIsNearest | src/main/java/project_starter/controller/ArrivalService.java:236-247 | the chosen candidate is one of yesterday/today/tomorrow, none is nearer, and ties go to the earlier one |
| Clock.ScheduledWithinHalfDay | src/main/java/project_starter/controller/ArrivalService.java:229-248 | the scheduled epoch is within half a day of the feed time |
| Clock.ComputeScheduledEpochForFeed | src/main/java/project_starter/controller/ArrivalService.java:229-248 | the loop computes the nearest candidate |
| Sorting.InsertPermutes | src/main/java/project_starter/controller/ArrivalService.java:143-144 | insertion adds exactly the element |
| Sorting.InsertSorted | src/main/java/project_starter/controller/ArrivalService.java:143-144 | insertion keeps the order |
| Sorting.InsertionSortSorts | src/main/java/project_starter/controller/ArrivalService.java:143-144 | the sort is a sorted permutation |
| Sorting.SortByKey | src/main/java/project_starter/controller/ArrivalService.java:143-144 | a sorted permutation of the input |
| Sorting.InsertKeepsOrder | src/main/java/project_starter/datas/StopTripMapper.java:43 | insertion keeps the relative order of equal keys |
| Sorting.InsertionSortStable | src/main/java/project_starter/datas/StopTripMapper.java:43 | the sort is stable |
| Sorting.SortStable | src/main/java/project_starter/datas/StopTripMapper.java:43 | equal keys keep their input order, as in List.sort |
| Sorting.InsertString | src/main/java/project_starter/controller/RealTimeBusTrackerController.java:243 | string insertion keeps a sorted permutation |
| Sorting.SortStrings | src/main/java/project_starter/controller/RealTimeBusTrackerController.java:243 | a lexicographically sorted permutation |
| Text.Trim | src/main/java/project_starter/datas/TripIdUtils.java:35 | no blank character at either end |
| Text.TrimEmpty | src/main/java/project_starter/datas/TripIdUtils.java:35-36 | trim is empty exactly for all-blank text |
| Text.SplitFirst | src/main/java/project_starter/datas/CalendarLoader.java:42 | a comma-free first piece followed by a comma is the first field, the rest is split on |
| Text.SplitThree | src/main/java/project_starter/datas/CalendarLoader.java:42 | three comma-free pieces joined by commas split back into those pieces |
| Text.IntToStringShape | src/main/java/project_starter/datas/CalendarLoader.java:61 | a printed int is digits after an optional minus sign, ending in a digit |
| Text.NatToStringLength | src/main/java/project_starter/datas/CalendarLoader.java:20 | a value below 10^k prints in at most k digits |
| Text.NatToStringLong | src/main/java/project_starter/datas/CalendarLoader.java:20 | a value of at least 10^(k-1) prints in at least k digits |
| Text.TrimKeeps | src/main/java/project_starter/datas/TripIdUtils.java:35 | trimming keeps every character above U+0020 |
| Text.TrimKeepsOut | src/main/java/project_starter/datas/TripsLoader.java:70 | trimming adds no character |
| Text.TrimUnchanged | src/main/java/project_starter/controller/ArrivalService.java:220-222 | trimmed text is unchanged by trim |
| Text.ToLower | src/main/java/project_starter/datas/TripIdUtils.java:70 | character-wise lower-casing, length kept |
| Text.ToLowerUnchanged | src/main/java/project_starter/datas/TripIdUtils.java:70 | lower-case text is unchanged |
| Text.LowerChar | src/main/java/project_starter/datas/TripIdUtils.java:42 | result is never upper case and letters stay letters |
| Text.IndexOf | src/main/java/project_starter/datas/TripIdUtils.java:49 | first occurrence, or -1 exactly when absent |
| Text.ReplaceChar | src/main/java/project_starter/datas/TripIdUtils.java:110 | each occurrence replaced, other characters kept |
| Text.Filter | src/main/java/project_starter/datas/TripIdUtils.java:60 | keeps exactly the selected characters |
| Text.FilterKeepsAll | src/main/java/project_starter/datas/TripIdUtils.java:60 | filtering keeps text whose characters are all selected |
| Text.Split | src/main/java/project_starter/datas/CalendarLoader.java:42 | one more part than separators, no part contains the separator |
| Text.JoinSplit | src/main/java/project_starter/datas/CalendarLoader.java:42 | joining the parts with the separator gives the text back |
| Text.ParseInt | src/main/java/project_starter/datas/CalendarLoader.java:61 | a value only from a signed digit string, in the 32-bit range |
| Text.NatToString | src/main/java/project_starter/controller/ArrivalService.java:161 | decimal digits of the number, no leading zero |
| Text.IntToStringParses | src/main/java/project_starter/datas/CalendarLoader.java:61 | printing a 32-bit integer and parsing it gives it back |
| Text.EndsWithContains | src/main/java/project_starter/controller/ArrivalService.java:199 | a suffix is contained |
| Text.LexTotal | src/main/java/project_starter/controller/RealTimeBusTrackerController.java:243 | string order is total |
| Text.LexTransitive | src/main/java/project_starter/controller/RealTimeBusTrackerController.java:243 | string order is transitive |
| Text.LexAntisymmetric | src/main/java/project_starter/controller/RealTimeBusTrackerController.java:243 | string order is antisymmetric |
| Tracker.ResolveRouteForFeedTripStrict | src/main/java/project_starter/controller/RealTimeBusTrackerController.java:324-344 | null id gives no route; any route found is non-empty |
| Tracker.ResolvedRouteSource | src/main/java/project_starter/controller/RealTimeBusTrackerController.java:327-340 | a route is found exactly when the raw id matches a trip with a route, or the normalised id differs and does; the raw match wins |
| Tracker.FeedSnapshotLatest | src/main/java/project_starter/controller/RealTimeBusTrackerController.java:418-425 | the last record for a (trip, stop) pair decides the stored epoch |
| Tracker.FeedSnapshotKeys | src/main/java/project_starter/controller/RealTimeBusTrackerController.java:418-425 | the snapshot has exactly the records' trip ids |
| Tracker.CacheAfterSound | src/main/java/project_starter/controller/RealTimeBusTrackerController.java:426-430 | the route cache stays consistent with the resolver and covers exactly the old keys plus the feed's trips |
| Tracker.PredictionDistanceInSeconds | src/main/java/project_starter/controller/RealTimeBusTrackerController.java:269-272 | the 6-hour minute limit is the open window of 21660 seconds either side |
| Tracker.AggregateStep | src/main/java/project_starter/controller/RealTimeBusTrackerController.java:262-292 | visiting one more feed trip keeps the per-route minimum over the visited trips |
| Tracker.RouteMinimumUnique | src/main/java/project_starter/controller/RealTimeBusTrackerController.java:287-291 | the per-route minimum is uniquely determined, so visit order does not matter |
| Tracker.EntriesOf | src/main/java/project_starter/controller/RealTimeBusTrackerController.java:296 | the map's entries, each once |
| Tracker.FormatLineImminent | src/main/java/project_starter/controller/RealTimeBusTrackerController.java:308-317 | a line says `In arrivo` exactly when the prediction is less than 3 minutes away |
| Tracker.FormatLineText | src/main/java/project_starter/controller/RealTimeBusTrackerController.java:308-317 | a realtime line starts with its route and ends with the prediction's local clock time in parentheses |
| Tracker.BuildArrivalText | src/main/java/project_starter/controller/RealTimeBusTrackerController.java:346-381 | a line starts with the route; it is the `orario non disponibile` notice exactly when the stop time has no arrival time, and otherwise a static line ending ` min (statico)` |
| Tracker.FallbackWindowInSeconds | src/main/java/project_starter/controller/RealTimeBusTrackerController.java:225-228 | a static fallback is kept exactly when its trip is matched, it has an arrival, and the arrival lies from just under one minute ago to just under 61 minutes ahead, within the day (-60 < d < 3660 seconds, since the minutes are truncated) |
| Tracker.FirstArrivalsEarliest | src/main/java/project_starter/controller/RealTimeBusTrackerController.java:219-233 | a route is listed exactly when it has a fallback, and its entry is the first earliest one |
| Tracker.FirstArrivalsStep | src/main/java/project_starter/controller/RealTimeBusTrackerController.java:229-232 | one more fallback replaces its route's entry only when strictly earlier |
| Tracker.FallbacksOf | src/main/java/project_starter/controller/RealTimeBusTrackerController.java:235 | the map's values, each once |
| Tracker.TrackerController.constructor | src/main/java/project_starter/controller/RealTimeBusTrackerController.java:42-58 | empty snapshot and route cache, collaborators kept |
| Tracker.TrackerController.RefreshRealtimeArrivals | src/main/java/project_starter/controller/RealTimeBusTrackerController.java:418-431 | the snapshot is rebuilt from the records and the cache is extended with every feed trip |
| Tracker.TrackerController.VisitFeedTrip | src/main/java/project_starter/controller/RealTimeBusTrackerController.java:263-291 | visits one feed trip: caches its route when it qualifies and folds it into the per-route minimum |
| Tracker.TrackerController.AggregateByRoute | src/main/java/project_starter/controller/RealTimeBusTrackerController.java:260-293 | the per-route earliest prediction over all qualifying feed trips, with the cache extended by them |
| Tracker.TrackerController.GetRealtimeArrivalsByRouteForStop | src/main/java/project_starter/controller/RealTimeBusTrackerController.java:259-305 | the per-route minima sorted by time and cut to the limit |
| Tracker.TrackerController.SelectFirstArrivals | src/main/java/project_starter/controller/RealTimeBusTrackerController.java:219-233 | the first earliest fallback per route |
| Tracker.TrackerController.FallbackLinesOf | src/main/java/project_starter/controller/RealTimeBusTrackerController.java:235-244 | the fallback lines, sorted |
| Tracker.TrackerController.StaticFallbackLines | src/main/java/project_starter/controller/RealTimeBusTrackerController.java:217-245 | the sorted lines of the first fallback per route |
| Tracker.RealtimeLinesOf | src/main/java/project_starter/controller/RealTimeBusTrackerController.java:207-211 | the realtime part of the panel is one formatted line per route of the board, in the board's order |
| Tracker.TrackerController.ShowFloatingArrivals | src/main/java/project_starter/controller/RealTimeBusTrackerController.java:201-252 | realtime lines plus the fallback header when there are predictions; otherwise the sorted static lines or the no-arrivals line |

## Left out

- The Swing user interface is not modelled: the map, the panels and `showPanel`. The realtime polling timer and the network fetch (`GestoreRealTime`) are not modelled either. These do I/O and threading; the arrival logic they call is modelled.
- TripIndex.Distinct: `Stream.distinct()` in getTripsForStop compares trips with `Trips.equals`, and the `Trips` class is not part of this model. The model removes trips that are equal by value (same seven fields); if `Trips` keeps `Object`'s identity equality, Java would keep two equal-valued but distinct trip objects.
- `synchronized` blocks are not modelled. Each method is modelled as running alone.
- `Instant.now()` and `LocalTime.now()` are one parameter `now` per call, with a fixed zone offset. The source reads the clock several times per call.
- `ZoneId.systemDefault()` with daylight-saving changes is replaced by a fixed offset.
- `LocalTime` is modelled at second precision.
- Protobuf decoding (`FeedMessage.parseFrom`) is a function parameter. A decoding failure is modelled as "no feed".
- `parseVehiclePositions` and `StaticSimulator` work with floating-point positions and map display. They are not part of the arrival logic.
- Reading the GTFS resource files is replaced by their lines as input.
- `TripMatcher.matchByTripId` and `TripIdUtils.normalizeFeedTripId` are parameters. Their code is not part of this model.
- `HashMap` and `HashSet` iteration order is unspecified in Java.
  - Set loops pick elements in any order.
  - Where the result depends on the order (the fuzzy lookup pass, the order of the realtime lines), contracts state what holds for every order.
  - `Tracker.RouteMinimumUnique` shows that the per-route aggregation does not depend on order.
- `Arrivals.BoardFirstMinimal` is proved only when a route's candidates are all realtime or all static, for example in offline mode. The rule "prefer a realtime candidate up to 30 minutes later" makes the kept entry depend on the order in which mixed candidates are visited. The merge itself is modelled exactly (`Arrivals.KeepImminent`).
- `Tracker.TrackerController.FallbackLinesOf`: `buildArrivalText` is modelled only for the call the source makes, which passes no prediction (RealTimeBusTrackerController.java:240). Its predicted branch is unreachable there. That branch would also unbox a null `Long` at line 358 after discarding a distant prediction.
- Java `long` overflow is not modelled. Epochs and minute differences are far from 2^63.
- `Text.ToLower` lower-cases ASCII letters only. `String.toLowerCase` uses the default locale's full Unicode rules.
- `Text.Trim` treats characters up to U+0020 as blank, as `String.trim` does.
- `Text.ParseInt` does not accept non-ASCII Unicode digits, which `Integer.parseInt` accepts.
- When a loader catches and logs an exception, the model skips that line instead.
  - This covers a malformed number or date.
  - Log messages are not modelled.
- `parseTripUpdates` catches any exception and keeps the records collected so far (GTFSFetcher.java:112-116). No step of the modelled loop fails (the mapper is always present), so the model always returns every record.
- `TripIds.NormalizeSimple` follows the code and is not idempotent, although its documentation says the form is stable (`TripIds.NotIdempotent`: `key-0-0` gives `key-0`).
- `Arrivals.ArrivalService.UpdateRealtimeArrivals` follows the code, which passes the already normalised key to `generateVariants`. A record whose trip id does not normalise is therefore never stored (`Arrivals.UnnormalisableDropped`). The raw-id fallback variant is never used on that path.
