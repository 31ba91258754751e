# currentc in Dafny

currentc is an Android app that looks up films (through TMDb) and lets users
attach two kinds of notes to a film: money records (a price seen on screen, with
the year of the scene and the in-film timestamp) and annotated images. Most of the
app is Compose UI and calls into Firebase, TMDb and an inflation web service. This
project models the sequential logic inside that glue and proves what it does:

- **The money-record form** (`MoneyRecordInput`, from `screens/AddMoneyRecord.kt`):
  - the three regex keystroke filters, written as predicates over ASCII digits, `.` and `:`;
  - `validateInputs` and `createRecord`;
  - the form as a class whose handlers overwrite a field only when its filter passes;
  - the Upload button and the upload effect keyed on `record`.
- **The view-model's data logic** (`MovieData`, pure, and `ViewModel`, the `MainViewModel`
  class, from `MainViewModel.kt`). Every remote store, the network and the clock
  are inputs. The parts modelled are:
  - the inflation-response sanitiser;
  - the merge of storage images with Firestore annotations;
  - the stable sort of money records by year;
  - the document paths and the null-id guards;
  - the picked-image field and the shared upload timestamp;
  - the draft credentials and the ordered sign-in, sign-up and recovery checks.
- **`minsToHours`** (`CommonUtil`, `Composables`, `UtilityUtil`). There are three
  identical copies, on 32-bit integers with Kotlin's truncating division.
- **The Search screen's state** (`SearchScreen`, from `screens/Search.kt`):
  - the page cursor moved by Prev and Next, clamped into `[1, totalPages]`;
  - the searches its effects start;
  - when results are on screen.

Supporting modules model the Kotlin library behaviour the app relies on:

- `KotlinInt`: `Int`, and `/` truncating toward zero.
- `KotlinText`: `toString`, `trim`/`isWhitespace`, `replace`, `substringAfterLast`/`substringBeforeLast` and `compareTo`. It also holds two helpers of the model's own, which the app does not call: splitting on a separator, used to read the colon-separated timestamp pattern, and a first-index search, used to read a rendered duration back.
- `KotlinCollections`: `distinct`.
- `Records`: the two stored documents.
- `Option`: nullable values.

The source cells of the table are paths from the repository root; every cited
file lies under `app/src/main/java/com/barry/currentc/`.

## Model

| member | source | states |
|---|---|---|
| KotlinInt.TruncDiv | app/src/main/java/com/barry/currentc/common/utility/Util.kt:24 | Kotlin `a / b`: the remainder `a - q*b` is smaller than `b` in magnitude and takes the sign of `a`, and `|q*b| <= |a|` |
| KotlinInt.TruncDivUnique | app/src/main/java/com/barry/currentc/common/utility/Util.kt:24 | any quotient with a remainder of `a`'s sign and smaller than `b` is the truncating quotient |
| CommonUtil.HoursAndMinutes | app/src/main/java/com/barry/currentc/common/utility/Util.kt:24-25 | `hours*60 + minutesRemaining == minutes` for every input; the remainder is in 0..59 for `minutes >= 0` and in -59..0 for `minutes <= 0` |
| CommonUtil.HoursAreTruncatedQuotient | app/src/main/java/com/barry/currentc/common/utility/Util.kt:24-25 | `hours` is `minutes / 60` truncated toward zero: it is the only value that gives a remainder of the right sign below 60 |
| CommonUtil.MinsToHours | app/src/main/java/com/barry/currentc/common/utility/Util.kt:23-27 | the text reads back as `"<hours>h <minutesRemaining>m"` of the pair above |
| CommonUtil.ReadHoursMinutesCanonical | app/src/main/java/com/barry/currentc/common/utility/Util.kt:26 | a text reads back as a pair only if it is `"<hours>h <minutes>m"` with both numbers as `toString` renders them |
| CommonUtil.MinsToHoursIsTheRendering | app/src/main/java/com/barry/currentc/common/utility/Util.kt:23-27 | the result is the only text that reads back as the pair, so it is exactly `"${hours}h ${minutesRemaining}m"` for every Int |
| CommonUtil.MinsToHoursExamples | app/src/main/java/com/barry/currentc/common/utility/Util.kt:23-27 | 125 gives `2h 5m`, 59 gives `0h 59m`, -61 gives `-1h -1m` |
| Composables.MinsToHours | app/src/main/java/com/barry/currentc/Composables.kt:204-208 | the copy computes the same text as the common/utility/Util.kt one for every input |
| UtilityUtil.MinsToHours | app/src/main/java/com/barry/currentc/utility/Util.kt:44-48 | the copy computes the same text as the common/utility/Util.kt one for every input |
| KotlinText.IsDigit | app/src/main/java/com/barry/currentc/screens/AddMoneyRecord.kt:43-47 | `\d` as on a desktop JVM: the ASCII digits `0` to `9` |
| KotlinText.IntToString | app/src/main/java/com/barry/currentc/MainViewModel.kt:187-193 | `Long.toString()` and `"$time"`: at least one character, a `-` followed by digits for a negative number, and digits alone otherwise |
| KotlinText.NullableToString | app/src/main/java/com/barry/currentc/MainViewModel.kt:185 | `currentMovieId.toString()` and `"$currentMovieId"`: `null` for a null id, and the number's rendering otherwise |
| KotlinText.IntToStringRoundTrip | app/src/main/java/com/barry/currentc/MainViewModel.kt:187 | `time.toString()` loses nothing: the text parses back to the number |
| KotlinText.IntToStringInjective | app/src/main/java/com/barry/currentc/MainViewModel.kt:187 | different times give different document names |
| KotlinText.ParseIntCanonical | app/src/main/java/com/barry/currentc/common/utility/Util.kt:26 | only the decimal rendering of a number reads back as that number: no leading zeros and no `-0`, so the reader is the exact inverse of `toString` |
| KotlinText.IsWhitespace | app/src/main/java/com/barry/currentc/MainViewModel.kt:100 | `Char.isWhitespace()`: the ASCII controls tab to carriage return and U+001C to U+001F, the space, and the Unicode space, line and paragraph separators, as `trim` and `isBlank` test them |
| KotlinText.Trim | app/src/main/java/com/barry/currentc/MainViewModel.kt:100 | `trim()` is a slice with whitespace only outside it and none at its ends; it is empty exactly when the line is blank |
| KotlinText.RemoveAll | app/src/main/java/com/barry/currentc/MainViewModel.kt:110-112 | `replace("<c>", "")` leaves no `c`, keeps every other character with its count, and changes nothing when there is no `c` |
| KotlinText.RemoveAllSingle | app/src/main/java/com/barry/currentc/MainViewModel.kt:110-112 | on one character, `replace` drops it exactly when it is `c` |
| KotlinText.RemoveAllAppend | app/src/main/java/com/barry/currentc/MainViewModel.kt:110-112 | `replace` of a concatenation is the concatenation of the replaced parts, so the kept characters stay in order |
| KotlinText.IsBlank | app/src/main/java/com/barry/currentc/MainViewModel.kt:413 | `isBlank()`: every character is whitespace in Kotlin's sense, the empty string included |
| KotlinText.LastIndexOf | app/src/main/java/com/barry/currentc/MainViewModel.kt:149 | the last position holding the delimiter, or -1 when there is none; no position after it holds the delimiter |
| KotlinText.SubstringAfterLast | app/src/main/java/com/barry/currentc/MainViewModel.kt:149 | the longest suffix free of the delimiter, preceded by the delimiter unless it is the whole string |
| KotlinText.SubstringBeforeLast | app/src/main/java/com/barry/currentc/MainViewModel.kt:149 | the text before the last delimiter, and the whole string when there is no delimiter |
| KotlinText.SubstringAfterLastOfSuffix | app/src/main/java/com/barry/currentc/MainViewModel.kt:149 | in `a + c + b` with no `c` in `b`, the text after the last `c` is `b` |
| KotlinText.SubstringBeforeLastOfSuffix | app/src/main/java/com/barry/currentc/MainViewModel.kt:149 | in `a + c + b` with no `c` in `b`, the text before the last `c` is `a` |
| KotlinText.SplitOnJoinWith | app/src/main/java/com/barry/currentc/screens/AddMoneyRecord.kt:46 | fields free of `:` are exactly the colon-separated fields of their join |
| KotlinText.JoinWithSplitOn | app/src/main/java/com/barry/currentc/screens/AddMoneyRecord.kt:46 | joining the colon-separated fields back with `:` gives the timestamp again |
| KotlinText.SplitOnPrefix | app/src/main/java/com/barry/currentc/screens/AddMoneyRecord.kt:46 | the fields of a prefix are the fields of the whole up to one field, which is cut short |
| KotlinText.StrLe | app/src/main/java/com/barry/currentc/MainViewModel.kt:239 | `compareTo` on the years `sortedBy` compares: the lexicographic order of the characters, with a proper prefix first |
| KotlinText.StrLeTotal | app/src/main/java/com/barry/currentc/MainViewModel.kt:239 | any two year strings are ordered one way or the other by `compareTo` |
| KotlinText.StrLeTransitive | app/src/main/java/com/barry/currentc/MainViewModel.kt:239 | the year order is transitive |
| KotlinText.StrLeAntisymmetric | app/src/main/java/com/barry/currentc/MainViewModel.kt:239 | two year strings ordered both ways are equal |
| KotlinCollections.Distinct | app/src/main/java/com/barry/currentc/MainViewModel.kt:152 | `distinct()` keeps exactly the elements of the list, each once |
| KotlinCollections.DistinctKeepsFirstOccurrenceOrder | app/src/main/java/com/barry/currentc/MainViewModel.kt:152 | the kept elements come in the order of their first occurrences |
| KotlinCollections.DistinctOfDistinct | app/src/main/java/com/barry/currentc/MainViewModel.kt:152 | a list without duplicates is its own `distinct()` |
| MovieData.JoinTrimmed | app/src/main/java/com/barry/currentc/MainViewModel.kt:93-102 | what the reading loop appends: every line trimmed, the lines concatenated in order with nothing between them |
| MovieData.PriceText | app/src/main/java/com/barry/currentc/MainViewModel.kt:93-112 | the lines read before the read that throws (all of them when none throws), joined trimmed, then sanitised |
| MovieData.StripPriceChars | app/src/main/java/com/barry/currentc/MainViewModel.kt:108-112 | the sanitised text has no `"`, space or `$`, and every other character is kept as often as it occurs |
| MovieData.StripPriceCharsAppend | app/src/main/java/com/barry/currentc/MainViewModel.kt:110-112 | the sanitiser of a concatenation is the concatenation of the sanitised parts, so the kept characters stay in their order |
| MovieData.StripPriceCharsSingle | app/src/main/java/com/barry/currentc/MainViewModel.kt:110-112 | on one character, the sanitiser drops exactly `"`, space and `$` |
| MovieData.StripPriceCharsIdempotent | app/src/main/java/com/barry/currentc/MainViewModel.kt:108-112 | sanitising again changes nothing |
| MovieData.PriceTextOfQuotedPrice | app/src/main/java/com/barry/currentc/MainViewModel.kt:93-112 | a response `"<p>" ` (quoted, trailing space) comes back as the bare `p`, e.g. `"123.45" ` gives `123.45` |
| MovieData.PriceTextOfFailedConnection | app/src/main/java/com/barry/currentc/MainViewModel.kt:94-107 | when the connection fails before a line is read the result is empty |
| MovieData.TruncateImageName | app/src/main/java/com/barry/currentc/MainViewModel.kt:149 | the truncated name has no `/`, and a path with neither `/` nor `.` is kept whole |
| MovieData.AnnotationFor | app/src/main/java/com/barry/currentc/MainViewModel.kt:154 | `find { it.name == filename }?.annotation.orEmpty()`: the text of the first annotation with the name, or `""` when none has it |
| MovieData.FindByName | app/src/main/java/com/barry/currentc/MainViewModel.kt:154 | `find` answers the first annotation with that name, or none exactly when no annotation has it |
| MovieData.TruncatedNames | app/src/main/java/com/barry/currentc/MainViewModel.kt:149 | one name per image path, in order, each the path's `TruncateImageName` |
| MovieData.Names | app/src/main/java/com/barry/currentc/MainViewModel.kt:151 | one name per annotation, in order, each that annotation's `name` |
| MovieData.MergeImagesAndAnnotations | app/src/main/java/com/barry/currentc/MainViewModel.kt:149-155 | the keys are distinct; they are exactly the truncated image names and the annotation names; each maps to the first matching annotation's text or `""` |
| MovieData.MergedKeysInFirstOccurrenceOrder | app/src/main/java/com/barry/currentc/MainViewModel.kt:151-153 | entries come in the order their names first occur among the images, then the annotations |
| MovieData.MergeHasEntryFor | app/src/main/java/com/barry/currentc/MainViewModel.kt:151-155 | every annotation's name has its entry holding the annotation found for it |
| MovieData.FirstFiledAnnotation | app/src/main/java/com/barry/currentc/MainViewModel.kt:154 | the annotation found for a name is that of the first annotation filed under it |
| MovieData.UploadedImagePath | app/src/main/java/com/barry/currentc/MainViewModel.kt:193-210 | the storage path `movies/<currentMovieId>/<time>.jpg` of an uploaded image |
| MovieData.UploadedAnnotation | app/src/main/java/com/barry/currentc/MainViewModel.kt:187-189 | the annotation document for an upload at `time`: its name is the time's text |
| MovieData.UploadedImageNameIsTimestamp | app/src/main/java/com/barry/currentc/MainViewModel.kt:192-210 | an image stored as `<folder>/<time>.jpg` truncates back to `time.toString()` |
| MovieData.UploadedPairMergesIntoOneEntry | app/src/main/java/com/barry/currentc/MainViewModel.kt:180-210 | the image and the annotation of one upload have the same name and give a single merged entry holding the annotation |
| MovieData.SortByYear | app/src/main/java/com/barry/currentc/MainViewModel.kt:239 | `sortedBy { it.year }`: insertion by year, each record placed after the records of its own year |
| MovieData.SortByYearPermutes | app/src/main/java/com/barry/currentc/MainViewModel.kt:239 | `sortedBy { it.year }` returns the fetched records, each as often as fetched |
| MovieData.SortByYearSorted | app/src/main/java/com/barry/currentc/MainViewModel.kt:239 | the records come in non-decreasing order of the year string |
| MovieData.SortByYearStable | app/src/main/java/com/barry/currentc/MainViewModel.kt:239 | the sort is stable: the records of one year keep their fetched order |
| MovieData.InsertByYear | app/src/main/java/com/barry/currentc/MainViewModel.kt:239 | one step of the stable sort: the record goes after every record whose year is not after its own |
| MovieData.InsertByYearPermutes | app/src/main/java/com/barry/currentc/MainViewModel.kt:239 | inserting one record adds exactly that record |
| MovieData.InsertByYearSorted | app/src/main/java/com/barry/currentc/MainViewModel.kt:239 | inserting into sorted records keeps them sorted |
| MovieData.InsertByYearKeepsYearOrder | app/src/main/java/com/barry/currentc/MainViewModel.kt:239 | an inserted record goes after every record of its own year |
| MovieData.MovieFolder | app/src/main/java/com/barry/currentc/MainViewModel.kt:120 | the storage folder `movies/<movieId>` |
| MovieData.AnnotationsPath | app/src/main/java/com/barry/currentc/MainViewModel.kt:132-135 | the collection `movies/<currentMovieId>/annotations`, with a null id rendered as `null` |
| MovieData.MoneyRecordsPath | app/src/main/java/com/barry/currentc/MainViewModel.kt:222-225 | the collection `movies/<movieId>/moneyRecords` |
| MovieData.PathsSeparateMovies | app/src/main/java/com/barry/currentc/MainViewModel.kt:120-135 | different ids name different folders and annotation collections; a null current id reads `movies/null/annotations`, no movie's collection |
| MovieData.AddMoneyRecord | app/src/main/java/com/barry/currentc/MainViewModel.kt:242-261 | a null id writes nothing and answers false; otherwise the record is merged into `movies/<id>/moneyRecords/<time>` and the answer is whether the store took it |
| MovieData.FetchById | app/src/main/java/com/barry/currentc/MainViewModel.kt:272-286 | `getCredits`/`getReleaseInfo` answer null exactly for a null id, and otherwise the fetched value |
| MovieData.SearchMovies | app/src/main/java/com/barry/currentc/MainViewModel.kt:294-300 | no search, and a null answer, exactly for an empty term |
| MoneyRecordInput.MatchesYear | app/src/main/java/com/barry/currentc/screens/AddMoneyRecord.kt:43 | `^\d{0,4}$`: at most four ASCII digits |
| MoneyRecordInput.MatchesAmount | app/src/main/java/com/barry/currentc/screens/AddMoneyRecord.kt:44 | `^\d+(\.\d{0,2})?$`: at least one digit, then optionally a point and at most two digits |
| MoneyRecordInput.IsSexagesimal | app/src/main/java/com/barry/currentc/screens/AddMoneyRecord.kt:46 | `[0-5]?\d`: one digit, or two digits whose first is 0 to 5 |
| MoneyRecordInput.IsHour | app/src/main/java/com/barry/currentc/screens/AddMoneyRecord.kt:46 | `[01]?\d|2[0-3]`: one digit, or two digits from 00 to 23 |
| MoneyRecordInput.MatchesTimestamp | app/src/main/java/com/barry/currentc/screens/AddMoneyRecord.kt:45-47 | the timestamp pattern read off the colon-separated fields: `[S]`, `[M]:[S]` or `H:[M]:[S]`; the hour is 0-23, minutes and seconds are 0-59 with an optional leading digit, and each bracketed field may be empty |
| MoneyRecordInput.AcceptsYear | app/src/main/java/com/barry/currentc/screens/AddMoneyRecord.kt:62 | the year field's test: empty, or matching the year pattern |
| MoneyRecordInput.AcceptsAmount | app/src/main/java/com/barry/currentc/screens/AddMoneyRecord.kt:77 | the amount field's test: empty, or matching the amount pattern |
| MoneyRecordInput.AcceptsTimestamp | app/src/main/java/com/barry/currentc/screens/AddMoneyRecord.kt:93 | the timestamp field's test: empty, or matching the timestamp pattern |
| Records.MoneyRecord | app/src/main/java/com/barry/currentc/screens/AddMoneyRecord.kt:135-137 | the stored money record: its year, amount and timestamp, all as typed |
| Records.AnnotatedImage | app/src/main/java/com/barry/currentc/MainViewModel.kt:189 | the stored annotation: its `name`, the upload time's text, and its `annotation` text |
| MoneyRecordInput.ValidateInputs | app/src/main/java/com/barry/currentc/screens/AddMoneyRecord.kt:127-133 | true exactly when the year has at least 4 characters, the amount is non-empty and does not end in `.`, and the timestamp is non-empty and does not end in `:` |
| MoneyRecordInput.ValidateInputsExamples | app/src/main/java/com/barry/currentc/screens/AddMoneyRecord.kt:127-133 | `("1990","25.50","1:30:00")` passes; a 3-character year, an amount ending in `.`, a timestamp ending in `:`, an empty amount fail |
| MoneyRecordInput.CreateRecord | app/src/main/java/com/barry/currentc/screens/AddMoneyRecord.kt:135-137 | the record's year, amount and timestamp are the three arguments, in that order |
| MoneyRecordInput.ValidatedYearIsFourDigits | app/src/main/java/com/barry/currentc/screens/AddMoneyRecord.kt:127-133 | a year the filter let in and validation passed is exactly four digits |
| MoneyRecordInput.ValidatedAmountShape | app/src/main/java/com/barry/currentc/screens/AddMoneyRecord.kt:127-133 | a validated amount is digits, or digits, a point and one or two digits |
| MoneyRecordInput.ValidatedTimestampHasSeconds | app/src/main/java/com/barry/currentc/screens/AddMoneyRecord.kt:127-133 | a validated timestamp has a non-empty last (seconds) field |
| MoneyRecordInput.LeadingDigits | app/src/main/java/com/barry/currentc/screens/AddMoneyRecord.kt:44 | the greedy `\d+`: the digit run the amount starts with, followed by a non-digit or the end |
| MoneyRecordInput.AmountFilterExamples | app/src/main/java/com/barry/currentc/screens/AddMoneyRecord.kt:44 | `25.50`, `7` and `3.` are taken; `.`, `.5` and `1.234` are refused |
| MoneyRecordInput.AmountOfShapeAccepted | app/src/main/java/com/barry/currentc/screens/AddMoneyRecord.kt:44 | every `digits` and `digits.` plus up to two digits matches the amount pattern |
| MoneyRecordInput.TimestampFilterAcceptsClock | app/src/main/java/com/barry/currentc/screens/AddMoneyRecord.kt:45-47 | `1:30:00` is taken |
| MoneyRecordInput.TimestampFilterAcceptsPartial | app/src/main/java/com/barry/currentc/screens/AddMoneyRecord.kt:45-47 | seconds alone (`6`) and minutes still awaiting their seconds (`30:`) are taken |
| MoneyRecordInput.TimestampFilterRejectsSixty | app/src/main/java/com/barry/currentc/screens/AddMoneyRecord.kt:45-47 | `60` is refused: seconds stop at 59 |
| MoneyRecordInput.TimestampFilterRejectsHour24 | app/src/main/java/com/barry/currentc/screens/AddMoneyRecord.kt:45-47 | `24:00:00` is refused: hours stop at 23 |
| MoneyRecordInput.TimestampParts | app/src/main/java/com/barry/currentc/screens/AddMoneyRecord.kt:46 | an accepted timestamp denotes hours 0..23, minutes 0..59 and seconds 0..59 |
| MoneyRecordInput.ClockTextRoundTrip | app/src/main/java/com/barry/currentc/screens/AddMoneyRecord.kt:45-47 | every `H:MM:SS` reading from 0:00:00 to 23:59:59 is accepted and reads back as itself |
| MoneyRecordInput.YearFilterPrefixClosed | app/src/main/java/com/barry/currentc/screens/AddMoneyRecord.kt:61-64 | every prefix of an accepted year is accepted, so each can be typed key by key |
| MoneyRecordInput.AmountFilterPrefixClosed | app/src/main/java/com/barry/currentc/screens/AddMoneyRecord.kt:76-79 | every prefix of an accepted amount is accepted |
| MoneyRecordInput.TimestampFilterPrefixClosed | app/src/main/java/com/barry/currentc/screens/AddMoneyRecord.kt:92-95 | every prefix of an accepted timestamp is accepted |
| MoneyRecordInput.NullMovieUploadPopsAsWritten | app/src/main/java/com/barry/currentc/screens/AddMoneyRecord.kt:116-122 | as written, an upload for a null movie, answered `false`, still counts as succeeded |
| MoneyRecordInput.UploadSucceededIffStored | app/src/main/java/com/barry/currentc/screens/AddMoneyRecord.kt:116-122 | the corrected test succeeds exactly when a movie is selected and the store took the write |
| MoneyRecordInput.UploadSucceededAsWritten | app/src/main/java/com/barry/currentc/screens/AddMoneyRecord.kt:116-121 | `succeeded` as written: true for any return of the upload callback, false only when it throws |
| MoneyRecordInput.MoneyRecordForm.constructor | app/src/main/java/com/barry/currentc/screens/AddMoneyRecord.kt:38-41 | the fields start empty and there is no record |
| MoneyRecordInput.MoneyRecordForm.OnYearChange | app/src/main/java/com/barry/currentc/screens/AddMoneyRecord.kt:61-64 | the year takes the new text only when it is empty or 0-4 digits, and keeps its value otherwise |
| MoneyRecordInput.MoneyRecordForm.OnAmountChange | app/src/main/java/com/barry/currentc/screens/AddMoneyRecord.kt:76-79 | the amount takes the new text only when the amount filter accepts it |
| MoneyRecordInput.MoneyRecordForm.OnTimestampChange | app/src/main/java/com/barry/currentc/screens/AddMoneyRecord.kt:92-95 | the timestamp takes the new text only when the timestamp filter accepts it |
| MoneyRecordInput.MoneyRecordForm.OnUploadClick | app/src/main/java/com/barry/currentc/screens/AddMoneyRecord.kt:106-117 | the record is set only after validation; an upload starts only when the record changed, with the validated record, whose year is four digits |
| MoneyRecordInput.MoneyRecordForm.FinishUpload | app/src/main/java/com/barry/currentc/screens/AddMoneyRecord.kt:116-122 | the record is written through addMoneyRecord for the screen's movie, whose answer is true exactly when a movie is selected and the store took the write; as written, the screen pops whatever that answer is |
| ViewModel.MainViewModel.constructor | app/src/main/java/com/barry/currentc/MainViewModel.kt:54-62 | no current movie and no picked image; the draft credentials (lines 372-374) start empty |
| ViewModel.MainViewModel.GetPriceChange | app/src/main/java/com/barry/currentc/MainViewModel.kt:93-112 | the lines read before any failure, each trimmed, concatenated and sanitised |
| ViewModel.MainViewModel.GetImagesAndAnnotations | app/src/main/java/com/barry/currentc/MainViewModel.kt:115-159 | nothing for a null id; otherwise the merge of the images under the argument id with the annotations under the current movie id |
| ViewModel.MainViewModel.SetPickImageData | app/src/main/java/com/barry/currentc/MainViewModel.kt:169-171 | the picked image becomes the argument, nothing else changes |
| ViewModel.MainViewModel.GetPickImageData | app/src/main/java/com/barry/currentc/MainViewModel.kt:173 | answers the picked image |
| ViewModel.MainViewModel.HandleImageUploadResult | app/src/main/java/com/barry/currentc/MainViewModel.kt:175-216 | the annotation goes to document `time` of the current movie's annotations, the image to `movies/<currentMovieId>/<time>.jpg`, and the two share a name; the picked image is cleared unless the intent had no URI |
| ViewModel.MainViewModel.GetMoneyRecords | app/src/main/java/com/barry/currentc/MainViewModel.kt:218-240 | nothing for a null id; otherwise a permutation of the collection, sorted by year, stable |
| ViewModel.MainViewModel.GetMovie | app/src/main/java/com/barry/currentc/MainViewModel.kt:263-270 | a null id fetches nothing and leaves the current movie; another id becomes the current movie and is fetched |
| ViewModel.MainViewModel.GetEmail | app/src/main/java/com/barry/currentc/MainViewModel.kt:376-378 | answers the draft email |
| ViewModel.MainViewModel.SetEmail | app/src/main/java/com/barry/currentc/MainViewModel.kt:380-382 | changes the email and nothing else |
| ViewModel.MainViewModel.GetPassword | app/src/main/java/com/barry/currentc/MainViewModel.kt:384-386 | answers the draft password |
| ViewModel.MainViewModel.SetPassword | app/src/main/java/com/barry/currentc/MainViewModel.kt:388-390 | changes the password and nothing else |
| ViewModel.MainViewModel.GetRepeatPassword | app/src/main/java/com/barry/currentc/MainViewModel.kt:392-394 | answers the repeated password |
| ViewModel.MainViewModel.SetRepeatPassword | app/src/main/java/com/barry/currentc/MainViewModel.kt:396-398 | changes the repeated password and nothing else |
| ViewModel.MainViewModel.OnSignInClick | app/src/main/java/com/barry/currentc/MainViewModel.kt:401-426 | email first, then non-blank password; the first failure shows its error; authentication is launched exactly when both pass |
| ViewModel.MainViewModel.OnForgotPasswordClick | app/src/main/java/com/barry/currentc/MainViewModel.kt:428-442 | a recovery email exactly for a valid address, the email error otherwise |
| ViewModel.MainViewModel.OnSignUpClick | app/src/main/java/com/barry/currentc/MainViewModel.kt:444-470 | email, then password, then match; the first failure shows its error; the account is linked exactly when all three pass |
| SearchScreen.Prev | app/src/main/java/com/barry/currentc/screens/Search.kt:97-100 | `max(page - 1, 1)`: one back from any page above 1, and 1 from page 1 or below |
| SearchScreen.Next | app/src/main/java/com/barry/currentc/screens/Search.kt:101-104 | `min(page + 1, totalPages)`: one forward from any page below `totalPages`, and `totalPages` from that page or beyond |
| SearchScreen.PrevNextFixedPoints | app/src/main/java/com/barry/currentc/screens/Search.kt:97-104 | Prev is a no-op exactly at page 1, Next exactly at `totalPages` |
| SearchScreen.PrevNextStayInRange | app/src/main/java/com/barry/currentc/screens/Search.kt:97-104 | with `totalPages >= 1` both keep the page within `[1, totalPages]` |
| SearchScreen.NextWithoutPages | app/src/main/java/com/barry/currentc/screens/Search.kt:101-104 | with `totalPages == 0` Next drives the page to 0 |
| SearchScreen.PrevNextInverse | app/src/main/java/com/barry/currentc/screens/Search.kt:97-104 | away from the ends Next undoes Prev and Prev undoes Next |
| SearchScreen.ClicksStayInRange | app/src/main/java/com/barry/currentc/screens/Search.kt:97-104 | any sequence of clicks keeps the page within `[1, totalPages]` |
| SearchScreen.EnoughNextsReachLastPage | app/src/main/java/com/barry/currentc/screens/Search.kt:101-104 | enough Next clicks reach the last page and stay there |
| SearchScreen.SearchState.constructor | app/src/main/java/com/barry/currentc/screens/Search.kt:40-43 | empty term, page 1, no results |
| SearchScreen.SearchState.OnSearchTermChange | app/src/main/java/com/barry/currentc/screens/Search.kt:49-75 | a search starts only for a changed, non-empty term (or when the page controls reappear), at the current page, which the term does not reset |
| SearchScreen.SearchState.OnSearchResult | app/src/main/java/com/barry/currentc/screens/Search.kt:106-113 | the answer replaces the results; the page controls coming on screen search once more |
| SearchScreen.SearchState.Reenter | app/src/main/java/com/barry/currentc/screens/Search.kt:40-75 | coming back restores the term and page but not the results, and searches again exactly when the term is not empty |
| SearchScreen.SearchState.ClickPrev | app/src/main/java/com/barry/currentc/screens/Search.kt:95-136 | from either control row the page becomes `Prev(page)`, kept in range; a search for it starts only when it moved and the first list item, which holds the effect, is on screen |
| SearchScreen.SearchState.ClickNext | app/src/main/java/com/barry/currentc/screens/Search.kt:95-136 | from either control row the page becomes `Next(page, totalPages)`, kept in range; a search for it starts only when it moved and the first list item, which holds the effect, is on screen |
| SearchScreen.SearchState.ShowsResults | app/src/main/java/com/barry/currentc/screens/Search.kt:77 | the list and its page controls are composed exactly when a results page is held and the term is not empty |
| SearchScreen.SearchState.ShownResults | app/src/main/java/com/barry/currentc/screens/Search.kt:77-122 | results are shown exactly when a results page exists and the term is non-empty |

## Left out

- Compose rendering, layout and labels are not modelled, and neither is `pickImage`, which only launches the picker. The float scroll percentage of the results list (`screens/Search.kt:82-83`) is left out too.
- Floating-point code is left out: `remap`, `roundToPlaces`, `normalizeBitmap` and the star-rating drawing maths.
- Firebase Auth, Firestore and Storage, TmdbApi and `HttpURLConnection` are replaced by their results, given as inputs:
  - a `Backend` of listings and collections by path (an absent path is a failed or empty read);
  - `fetch` functions;
  - the response lines, with the line at which reading fails.
- The account calls (`authenticate`, `linkAccount`, `sendRecoveryEmail`, `signOut`, `deleteAccount`) are only the SDK, and so are the popular, top-rated and now-playing movie lists. What happens after a launched account call is not modelled (the navigation on success, the toast on an exception).
- `isValidEmail`, `isValidPassword` and `passwordMatches` are not part of this model. They are passed in as uninterpreted functions.
- The clock is a `time` parameter. `getPriceChangeToToday` (URL and date building from the clock) is left out.
- Image decoding, resizing and saving in `handleImageUploadResult` are left out. The image write is modelled by its storage path only.
- Coroutines and effects are modelled as one sequential step per event:
  - the 150 ms delay of the search effect is not modelled;
  - a running search is not cancelled when the term changes again;
  - answers may arrive in any order, and `OnSearchResult` takes whichever comes.
- SearchScreen.SearchState.OnSearchResult: the page-control effect sits in the first item of a lazy list. Scrolling that item off screen and back runs the effect again, but scrolling is not modelled; the model runs the effect only when the controls first appear.
- SearchScreen.SearchState.ClickPrev: whether the first list item is on screen is an input. The search that a bottom-row click skips is started later, when that item scrolls back, and this is not modelled. The same holds for ClickNext.
- SearchScreen.SearchState.ClickNext: the page index is an unbounded integer, so `page + 1` wrapping at `Int.MAX_VALUE` is not modelled.
- MoneyRecordInput.ValidateInputs: Kotlin's `year.length < 4` counts UTF-16 code units, while the model counts characters, so a year of two emoji passes in Kotlin and fails in the model. With `\d` read as on a desktop JVM, the year field only ever holds ASCII digits (`AcceptsYear`), and for those the two counts agree; on the device see the next line.
- MoneyRecordInput.MatchesYear, MatchesAmount, MatchesTimestamp and ValidatedYearIsFourDigits: the model reads `\d` as `[0-9]`, as a desktop JVM does. Android's regular expressions are backed by ICU, whose `\d` also takes every other Unicode decimal digit (Arabic-Indic `١٩٩٠`, say), so on a device the fields also accept those. A supplementary digit such as U+1D7CF counts once for `\d{0,4}` but twice for `year.length`.
- KotlinText.StrLe: Kotlin's `compareTo` compares UTF-16 code units, while the model compares Unicode scalar values. The two orders differ only between supplementary characters and U+E000 to U+FFFF.
- ViewModel.MainViewModel.GetMoneyRecords: a document that fails `toObject` part way through keeps the records converted before it. The model reads a collection whole or not at all, and the same holds for the annotations in `GetImagesAndAnnotations`.
- `model/MoneyRecord.kt` is not part of this model. `MoneyRecord` is taken as a data class with `year`, `amount` and `timestamp`, so the `record` state compares structurally. `model/AnnotatedImage.kt` declares `storageUri`, but the view-model uses `name` and `annotation`, and the model follows the view-model.
- MoneyRecordInput.MoneyRecordForm.OnUploadClick: the upload effect re-reads the fields when it starts. Edits made while an upload is running are not modelled.
- Logging (`Log.d`, `Log.e`) is not modelled.

## Findings

| source | as written | input that shows it | evidently intended | confidence | as-written member | corrected member |
|---|---|---|---|---|---|---|
| app/src/main/java/com/barry/currentc/screens/AddMoneyRecord.kt:116-122 | `succeeded` is `true` whenever `onClickUpload` returns, so the Boolean that `addMoneyRecord` answers is ignored | `movieId = null`: `addMoneyRecord` writes nothing and returns `false` (MainViewModel.kt:244), yet the screen pops as after a successful upload | pop the screen only when the upload returned `true` | not executed | MoneyRecordInput.NullMovieUploadPopsAsWritten | MoneyRecordInput.UploadSucceededIffStored |
