# Territory batch creation, modelled in Dafny

This project models the territory part of CarsAnalytics.SystemApi, a web API that
reports car statistics per territory and region. Three pieces are modelled:

- **The territory service.** `GetAllAsync` reads the territories of a two-letter
  region. `CreateManyAsync` creates a batch of territories behind two gates:
  - The input gate refuses a batch with a null entry, a batch in which some record
    breaks a field rule, and a batch that repeats a record.
  - The store gate refuses a batch whose trimmed code or name equals, ignoring case,
    that of a stored territory of the first record's region.

  Only a batch that passes both gates is written. Each outcome carries an HTTP
  status and an exact message.
- **The field validator.** There are three independent rule chains, one each for
  Code, Name and RegionCode. Every failing rule adds its message.
- **The store contract.** It is an in-memory table of territory rows with four
  operations: read by region, insert a batch, delete by codes, and update by code.
  Each write is one transaction.

Modules:

- `Wrappers`: `Option`.
- `Collections`: the LINQ operators the service uses (`Where`, `Distinct`,
  `SelectMany`) and first-occurrence order.
- `Text`: .NET string semantics the core relies on:
  - `char.IsWhiteSpace` and `char.IsLetter`;
  - `string.Trim`;
  - ordinal case-insensitive equality;
  - anchored regular expressions;
  - `string.Join`;
  - decimal formatting of a count.
- `Domain`: rows, DTOs, constants, the response envelope and exceptions.
- `TerritoryValidator`: the rule chains.
- `TerritoryData`: the store, as class `TerritoryStore` over a `seq<Territory>`.
- `Services`: the gates as pure functions, and the class `TerritoryService`. The
  class runs the gates in the source's order against its store.

The function `PlanCreateMany` states the whole outcome of a create call: the reply,
and the rows appended to the store. `TerritoryService.CreateMany` is proved to
produce exactly that outcome. The lemmas about several calls are stated on
`PlanCreateMany`.

Two modelling choices:

- A C# string that may be null is an `Option<string>`.
- A call that ends in an exception returns `Threw(...)`.

Where the code and the behaviour its callers and tests expect differ, the model
follows the code:

- An empty batch is not refused with a message. The null check's message "At least
  one territory is required" (TerritoryService.cs:81) reads as if an empty batch
  were meant to be refused there. Instead it passes the input gate, and then taking
  its first record throws at TerritoryService.cs:121 (`EmptyBatchThrows`).
- A name containing a digit, such as "Territory1", is refused by the Name pattern
  (`NameWithDigitRejected`). The controller test at
  CarsAnalytics.SystemApi.Tests/ControllerTests/TerritoriesControllerTests.cs:85-105
  expects `{TB, "Territory1", AB}` to be Created; it stubs the service, so the
  validator never sees that record there.
- The letters-only rules on Code and on Name report the message "RegionCode must
  contain only letters". This is the source's own text, kept as written.
- Because .NET's `$` also matches just before a final line feed, a single letter
  followed by '\n' passes every RegionCode rule
  (`RegionCodeWithTrailingLineFeedAccepted`).

## Model

| member | source | states |
|---|---|---|
| Domain.FailureResponse | CarsAnalytics.SystemApi/Services/TerritoryService.cs:17 | a failure reply carries the given status and message and no data, as `CreateFailureResponse` builds it here and at :58-61 |
| Domain.ToDto | CarsAnalytics.SystemApi/Services/TerritoryService.cs:27-32 | the DTO made from a row has every property present, and mapping it back yields the row |
| Domain.ToEntity | CarsAnalytics.SystemApi/Services/TerritoryService.cs:47-52 | the row made from a complete record carries each of the record's three properties |
| Domain.ToDtoOfToEntity | CarsAnalytics.SystemApi/Services/TerritoryService.cs:47-52 | a complete record mapped to a row and back is the same record |
| Domain.ToDtos | CarsAnalytics.SystemApi/Services/TerritoryService.cs:64-69 | one complete DTO per row, in order, each mapping back to its row |
| Collections.Filter | CarsAnalytics.SystemApi/Services/TerritoryService.cs:138-142 | `Where` keeps exactly the elements satisfying the predicate, each as often as in the input, and never grows |
| Collections.FilterSnoc | CarsAnalytics.SystemApi/Services/TerritoryService.cs:138-142 | `Where` keeps the input order: filtering one more element filters the old part and then appends the element if it qualifies |
| Collections.NoDuplicatesIffSingleOccurrences | CarsAnalytics.SystemApi/Services/TerritoryService.cs:102-106 | a batch has no repeated element exactly when no element occurs more than once, which is the group-count test |
| Collections.Distinct | CarsAnalytics.SystemApi/Services/TerritoryService.cs:94 | `Distinct` keeps the same set of elements, with no repeats |
| Collections.DistinctKeepsFirstOccurrenceOrder | CarsAnalytics.SystemApi/Services/TerritoryService.cs:91-95 | `Distinct` lists elements in the order of their first occurrences |
| Collections.FilterKeepsFirstOccurrenceOrder | CarsAnalytics.SystemApi/Services/TerritoryService.cs:102-106 | `Where` keeps the elements it selects in the order of their first occurrences in its input |
| Collections.Concat | CarsAnalytics.SystemApi/Services/TerritoryService.cs:92 | `SelectMany` contains exactly the elements of the inner sequences |
| Collections.ConcatSingleton | CarsAnalytics.SystemApi/Services/TerritoryService.cs:92 | flattening a single sequence gives that sequence |
| Collections.ConcatAppend | CarsAnalytics.SystemApi/Services/TerritoryService.cs:92 | flattening keeps the inner sequences in order and every element as often as it occurs: flattening `a + b` is flattening `a`, then `b` |
| Text.IsWhiteSpace | CarsAnalytics.SystemApi/Services/TerritoryService.cs:15 | within ASCII, exactly the space and the control characters U+0009..U+000D; never a letter or a digit |
| Text.IsLetter | CarsAnalytics.SystemApi/Services/TerritoryService.cs:20 | within ASCII, exactly A-Z and a-z; never white space or a digit |
| Text.IsNullOrWhiteSpace | CarsAnalytics.SystemApi/Services/TerritoryService.cs:15 | `string.IsNullOrWhiteSpace`: null, empty, or only white space; the same test is the not-empty rule at CarsAnalytics.SystemApi/Validators/TerritoryValidator.cs:12, :18 and :22 |
| Text.Trim | CarsAnalytics.SystemApi/Services/TerritoryService.cs:126-128 | a trimmed string is no longer than the input and neither starts nor ends with white space |
| Text.TrimKeepsMiddle | CarsAnalytics.SystemApi/Services/TerritoryService.cs:133-135 | trimming removes only white space: the result sits in the input between a blank prefix and a blank suffix |
| Text.TrimFixedPoints | CarsAnalytics.SystemApi/Services/TerritoryService.cs:126-128 | a string is its own trim exactly when it is empty or has non-blank ends |
| Text.TrimIdempotent | CarsAnalytics.SystemApi/Services/TerritoryService.cs:133-135 | trimming twice gives the same as trimming once |
| Text.ToUpperInvariant | CarsAnalytics.SystemApi/Services/TerritoryService.cs:140-141 | an ASCII letter maps to its upper-case letter; any other character is unchanged |
| Text.EqualsIgnoreCase | CarsAnalytics.SystemApi/Services/TerritoryService.cs:140-141 | equal strings compare equal, and strings that compare equal have the same length |
| Text.EqualsIgnoreCaseCharwise | CarsAnalytics.SystemApi/Services/TerritoryService.cs:140-141 | ordinal case-insensitive equality holds exactly when the lengths agree and each position agrees after upper-casing |
| Text.EqualsIgnoreCaseIsEquivalence | CarsAnalytics.SystemApi/Services/TerritoryService.cs:146-147 | case-insensitive equality is reflexive, symmetric and transitive |
| Text.EqualsIgnoreCaseOrNull | CarsAnalytics.SystemApi/Services/TerritoryService.cs:140-141 | `string.Equals(a, b, OrdinalIgnoreCase)` with null allowed: null equals null and no string; two strings compare ignoring case (also at :146-147) |
| Text.EqualsIgnoreCaseOrNullIsEquivalence | CarsAnalytics.SystemApi/Services/TerritoryService.cs:140-147 | with null allowed the comparison stays reflexive, symmetric and transitive, and null equals only null |
| Text.MatchesAnchoredRun | CarsAnalytics.SystemApi/Validators/TerritoryValidator.cs:15-25 | a string matches exactly when it is a non-empty run of class characters, or such a run followed by one final '\n' (.NET's `$`); a match starts with a class character |
| Text.MatchesAnchoredRunWithLineFeed | CarsAnalytics.SystemApi/Validators/TerritoryValidator.cs:19 | for the Name class, which contains '\n', the final-line-feed case of `$` accepts nothing more |
| Text.AsciiLetterRunIsNotBlank | CarsAnalytics.SystemApi/Validators/TerritoryValidator.cs:15 | a string accepted by `^[A-Za-z]+$` is not blank |
| Text.Join | CarsAnalytics.SystemApi/Services/TerritoryService.cs:163 | joining one part gives that part, and a join starts with its first part |
| Text.JoinAppend | CarsAnalytics.SystemApi/Services/TerritoryService.cs:98 | the parts appear in order with exactly one separator between neighbours: joining `a + b` is joining `a`, one separator, then joining `b` |
| Text.NatToString | CarsAnalytics.SystemApi/Services/TerritoryService.cs:72 | a non-empty string of decimal digits without a leading zero |
| Text.NatToStringRoundTrip | CarsAnalytics.SystemApi/Services/TerritoryService.cs:72 | reading the formatted count back gives the count |
| TerritoryValidator.MessageTexts | CarsAnalytics.SystemApi/Validators/TerritoryValidator.cs:13-14 | the length messages read "between 2 and 10 characters" and "exactly 2 letters", from the constants, and differ from the other messages |
| TerritoryValidator.LengthBetween | CarsAnalytics.SystemApi/Validators/TerritoryValidator.cs:13-24 | the length rule: passes on null, and otherwise exactly when the length is within the bounds |
| TerritoryValidator.MatchesOrNull | CarsAnalytics.SystemApi/Validators/TerritoryValidator.cs:15-25 | the pattern rule: passes on null, and otherwise exactly when the anchored pattern matches |
| TerritoryValidator.CodeErrors | CarsAnalytics.SystemApi/Validators/TerritoryValidator.cs:11-15 | "Code is required" exactly when Code is null or blank; the length message exactly when a present Code is outside 2..10; the letters message exactly when a present Code fails `^[A-Za-z]+$`; nothing else |
| TerritoryValidator.NameErrors | CarsAnalytics.SystemApi/Validators/TerritoryValidator.cs:17-19 | "Name is required" exactly when Name is null or blank; the letters message exactly when a present Name fails `^[A-Za-z\s]+$`; nothing else |
| TerritoryValidator.RegionCodeErrors | CarsAnalytics.SystemApi/Validators/TerritoryValidator.cs:21-25 | "RegionCode is required" exactly when blank or null; the length message exactly when a present value is not 2 long; the letters message exactly when it fails `^[A-Za-z]+$`; nothing else |
| TerritoryValidator.Validate | CarsAnalytics.SystemApi/Validators/TerritoryValidator.cs:11-25 | a record's messages are those of its three chains |
| TerritoryValidator.FailedMessages | CarsAnalytics.SystemApi/Validators/TerritoryValidator.cs:11-25 | a chain whose every rule is evaluated reports the messages of its failing rules, in declaration order, and nothing else |
| TerritoryValidator.FailedMessagesAppend | CarsAnalytics.SystemApi/Validators/TerritoryValidator.cs:11-25 | evaluating one chain after another reports the first chain's messages, then the second's |
| TerritoryValidator.ValidateInRuleOrder | CarsAnalytics.SystemApi/Validators/TerritoryValidator.cs:11-25 | each chain's messages, and a record's messages, are exactly the failing rules' messages in declaration order: Code, then Name, then RegionCode |
| TerritoryValidator.ValidateEmptyIffValid | CarsAnalytics.SystemApi/Validators/TerritoryValidator.cs:11-25 | a record has no message exactly when it meets every rule |
| TerritoryValidator.ChainsAreIndependent | CarsAnalytics.SystemApi/Validators/TerritoryValidator.cs:11-25 | an all-null record gets the three "required" messages, Code's first |
| TerritoryValidator.NullAndEmptyCode | CarsAnalytics.SystemApi.Tests/ValidatorTests/TerritoryValidatorTests.cs:19-28 | a null Code fails only the required rule; an empty one fails all three Code rules |
| TerritoryValidator.CodeLengthBoundary | CarsAnalytics.SystemApi.Tests/ValidatorTests/TerritoryValidatorTests.cs:31-36 | eleven letters fail only the length rule; ten pass |
| TerritoryValidator.RegionCodeLengthBoundary | CarsAnalytics.SystemApi.Tests/ValidatorTests/TerritoryValidatorTests.cs:62-72 | "A" and "ABC" fail only the RegionCode length rule |
| TerritoryValidator.ValidExample | CarsAnalytics.SystemApi.Tests/ValidatorTests/TerritoryValidatorTests.cs:74-85 | `{TT, "Valid Territory", AB}` produces no message |
| TerritoryValidator.NameWithDigitRejected | CarsAnalytics.SystemApi/Validators/TerritoryValidator.cs:19 | "Territory1" fails the Name pattern with the letters message |
| TerritoryValidator.RegionCodeWithTrailingLineFeedAccepted | CarsAnalytics.SystemApi/Validators/TerritoryValidator.cs:25 | "A\n" passes every RegionCode rule |
| TerritoryData.RowsInRegion | CarsAnalytics.SystemApi/Data/TerritoryDataProvider.cs:19-21 | exactly the rows of the region, each as often as stored |
| TerritoryData.RowsInRegionSnoc | CarsAnalytics.SystemApi/Data/TerritoryDataProvider.cs:19-21 | the region's rows keep store order: a row stored after the others comes last among them if it is in the region, and is not there otherwise |
| TerritoryData.RowsOutside | CarsAnalytics.SystemApi/Data/TerritoryDataProvider.cs:56 | a delete keeps exactly the rows whose code is not listed, each as often as stored |
| TerritoryData.RowsInside | CarsAnalytics.SystemApi/Data/TerritoryDataProvider.cs:56 | the rows a delete removes are those whose code is listed |
| TerritoryData.DeletedCountIsMatchingRows | CarsAnalytics.SystemApi/Data/ITerritoryDataProvider.cs:22-27 | the affected count equals the number of stored rows with a listed code |
| TerritoryData.DeletesNothingIffNoMatch | CarsAnalytics.SystemApi/Data/ITerritoryDataProvider.cs:22-27 | the affected count is 0 exactly when no stored code is listed |
| TerritoryData.CountCode | CarsAnalytics.SystemApi/Data/TerritoryDataProvider.cs:70 | the number of rows `WHERE Code = @Code` selects is at most the row count, and 0 exactly when no row has the code |
| TerritoryData.CountCodeIsMatchingRows | CarsAnalytics.SystemApi/Data/TerritoryDataProvider.cs:70 | the count is exactly the number of rows a `Where` on the code keeps |
| TerritoryData.CountCodeAboveOneIff | CarsAnalytics.SystemApi/Data/TerritoryDataProvider.cs:82-86 | a code selects more than one row exactly when two different stored rows carry it |
| TerritoryData.Overwrite | CarsAnalytics.SystemApi/Data/TerritoryDataProvider.cs:64-71 | one update statement keeps the number of rows and every row's code |
| TerritoryData.OverwriteSelectsSameRows | CarsAnalytics.SystemApi/Data/TerritoryDataProvider.cs:70 | after one update statement, every code selects as many rows as before it |
| TerritoryData.ApplyUpdates | CarsAnalytics.SystemApi/Data/TerritoryDataProvider.cs:80-90 | updates keep the number of rows and every row's code |
| TerritoryData.LastWithCode | CarsAnalytics.SystemApi/Data/TerritoryDataProvider.cs:80-90 | finds an input with the code exactly when one exists, and it is the last such input |
| TerritoryData.UpdatedRowValue | CarsAnalytics.SystemApi/Data/ITerritoryDataProvider.cs:29-40 | after a batch, each row holds the last input with its code; a row no input names is unchanged |
| TerritoryData.HasAmbiguousCode | CarsAnalytics.SystemApi/Data/TerritoryDataProvider.cs:82-86 | the single-row read of some input finds more than one row, checked input by input; this needs a non-empty batch and at least two stored rows |
| TerritoryData.HasAmbiguousCodeIff | CarsAnalytics.SystemApi/Data/TerritoryDataProvider.cs:82-86 | a batch makes the single-row read throw exactly when some input's code selects more than one stored row |
| TerritoryData.MatchedInputs | CarsAnalytics.SystemApi/Data/TerritoryDataProvider.cs:88-89 | the reported inputs are exactly those whose code matched a row, never more than the inputs |
| TerritoryData.TerritoryStore.GetByRegion | CarsAnalytics.SystemApi/Data/ITerritoryDataProvider.cs:8-13 | exactly the stored rows of the region, each as often as stored; `RowsInRegionSnoc` fixes their order as the store's |
| TerritoryData.TerritoryStore.CreateMany | CarsAnalytics.SystemApi/Data/TerritoryDataProvider.cs:39-51 | returns the inputs as inserted rows, and the table grows by exactly the batch, appended in order |
| TerritoryData.TerritoryStore.DeleteManyByCodes | CarsAnalytics.SystemApi/Data/TerritoryDataProvider.cs:54-60 | the table keeps exactly the rows whose code is not listed, and the count is the number removed |
| TerritoryData.TerritoryStore.UpdateMany | CarsAnalytics.SystemApi/Data/TerritoryDataProvider.cs:62-95 | an ambiguous batch throws and leaves the table unchanged; otherwise every statement is applied and the matched inputs are returned |
| Services.CreatedMessage | CarsAnalytics.SystemApi/Services/TerritoryService.cs:72 | the success message wraps the count in the fixed text "Territories created successfully (" and " records)" |
| Services.CreatedMessageInjective | CarsAnalytics.SystemApi/Services/TerritoryService.cs:72 | different counts give different success messages |
| Services.CreatedMessageOfOne | CarsAnalytics.SystemApi/Services/TerritoryService.cs:72 | the success message for one record, written out |
| Services.CreatedMessageCount | CarsAnalytics.SystemApi/Services/TerritoryService.cs:72 | the success message has the fixed prefix, and its count reads back as the number of records |
| Services.IsTwoLetterCode | CarsAnalytics.SystemApi/Services/TerritoryService.cs:20 | exactly two characters, both letters; such a code is never blank, so the blank check cannot shadow it |
| Services.HasNull | CarsAnalytics.SystemApi/Services/TerritoryService.cs:78 | some entry of the batch is null |
| Services.BatchErrors | CarsAnalytics.SystemApi/Services/TerritoryService.cs:91-95 | exactly the messages of some record, each once |
| Services.MessagesPerRecord | CarsAnalytics.SystemApi/Services/TerritoryService.cs:92 | one message list per record, in record order, each that record's validator output |
| Services.AllMessages | CarsAnalytics.SystemApi/Services/TerritoryService.cs:92-93 | every message of every record |
| Services.AllMessagesSnoc | CarsAnalytics.SystemApi/Services/TerritoryService.cs:91-93 | the messages are listed record by record: one more record appends exactly its messages, in the validator's order |
| Services.BatchErrorsInFirstOccurrenceOrder | CarsAnalytics.SystemApi/Services/TerritoryService.cs:91-95 | the distinct messages appear in first-occurrence order |
| Services.BatchErrorsEmptyIffAllValid | CarsAnalytics.SystemApi/Services/TerritoryService.cs:89 | the batch has a message exactly when some record is invalid |
| Services.DuplicateKeys | CarsAnalytics.SystemApi/Services/TerritoryService.cs:102-106 | exactly the records occurring more than once, each listed once |
| Services.DuplicateKeysInFirstOccurrenceOrder | CarsAnalytics.SystemApi/Services/TerritoryService.cs:102-106 | the repeated records are listed in the order of their first occurrences in the batch, as `GroupBy` lists its groups |
| Services.DescribeDuplicate | CarsAnalytics.SystemApi/Services/TerritoryService.cs:112 | a repeated record is described as "Code=…, Name=…, Region=…", a null property adding nothing to its length |
| Services.DuplicateMessage | CarsAnalytics.SystemApi/Services/TerritoryService.cs:111-112 | the message starts with "Request contains duplicate territories: "; for one record it is that heading and the record's description |
| Services.DuplicateMessageSnoc | CarsAnalytics.SystemApi/Services/TerritoryService.cs:111-112 | the descriptions follow the order of the keys, with one "; " between neighbours |
| Services.DuplicateKeysEmptyIffDistinct | CarsAnalytics.SystemApi/Services/TerritoryService.cs:108 | no duplicate is reported exactly when no record repeats |
| Services.SharedCodeIsNotRepetition | CarsAnalytics.SystemApi/Services/TerritoryService.cs:103 | two records that share only their code are not duplicates |
| Services.InputRejection | CarsAnalytics.SystemApi/Services/TerritoryService.cs:78-83 | a batch with a null entry is refused with "At least one territory is required" |
| Services.InputAcceptedIff | CarsAnalytics.SystemApi/Services/TerritoryService.cs:76-117 | the input gate passes exactly when there is no null, every record is valid and none repeats; with errors, the message is their "; " join |
| Services.AcceptedRecordsAreComplete | CarsAnalytics.SystemApi/Services/TerritoryService.cs:85-100 | every record past the input gate has all three properties |
| Services.TrimOrNull | CarsAnalytics.SystemApi/Services/TerritoryService.cs:126-135 | `?.Trim()`: null stays null, and a string is trimmed |
| Services.Normalize | CarsAnalytics.SystemApi/Services/TerritoryService.cs:131-136 | a trimmed record has a null property exactly where the record has one |
| Services.NormalizeIdempotent | CarsAnalytics.SystemApi/Services/TerritoryService.cs:131-136 | trimming the properties a second time changes nothing |
| Services.NormalizeRow | CarsAnalytics.SystemApi/Services/TerritoryService.cs:124-129 | a stored row's trimmed copy has all three properties, each the row's property trimmed |
| Services.NormalizeAll | CarsAnalytics.SystemApi/Services/TerritoryService.cs:131-136 | one trimmed record per record, in order |
| Services.NormalizeRows | CarsAnalytics.SystemApi/Services/TerritoryService.cs:124-129 | exactly the trimmed copies of the stored rows |
| Services.SameCodeInRegion | CarsAnalytics.SystemApi/Services/TerritoryService.cs:139-141 | same region and same code, each compared ignoring case with null equal to null |
| Services.SameNameInRegion | CarsAnalytics.SystemApi/Services/TerritoryService.cs:145-147 | same region and same name, each compared ignoring case with null equal to null |
| Services.CodeDuplicates | CarsAnalytics.SystemApi/Services/TerritoryService.cs:138-142 | the trimmed records whose region and code equal, ignoring case, those of a trimmed stored row |
| Services.NameDuplicates | CarsAnalytics.SystemApi/Services/TerritoryService.cs:144-148 | the trimmed records whose region and name equal, ignoring case, those of a trimmed stored row |
| Services.ConflictRejection | CarsAnalytics.SystemApi/Services/TerritoryService.cs:138-165 | a rejection starts with "Duplicate Code in region: " when some code clashes, and with "Duplicate Name in region: " otherwise |
| Services.ConflictAcceptedIff | CarsAnalytics.SystemApi/Services/TerritoryService.cs:150-167 | the store gate passes exactly when no record clashes with a stored row |
| Services.ReportedCodeClashes | CarsAnalytics.SystemApi/Services/TerritoryService.cs:138-142 | a reported code duplicate comes from a record that clashes |
| Services.ReportedNameClashes | CarsAnalytics.SystemApi/Services/TerritoryService.cs:144-148 | a reported name duplicate comes from a record that clashes |
| Services.ClashIsReported | CarsAnalytics.SystemApi/Services/TerritoryService.cs:150 | a record that clashes makes one of the duplicate lists non-empty |
| Services.CodePart | CarsAnalytics.SystemApi/Services/TerritoryService.cs:155-156 | the code part starts with "Duplicate Code in region: "; for one clash it is that heading and "Code=…, Region=…" |
| Services.CodeEntry | CarsAnalytics.SystemApi/Services/TerritoryService.cs:156 | one clashing code described as "Code=…, Region=…", a null property printing as nothing |
| Services.CodePartSnoc | CarsAnalytics.SystemApi/Services/TerritoryService.cs:155-156 | clashing codes are listed in the order of the trimmed records, with one "; " between neighbours |
| Services.NamePart | CarsAnalytics.SystemApi/Services/TerritoryService.cs:159-160 | the name part starts with "Duplicate Name in region: "; for one clash it is that heading and "Name=…, Region=…" |
| Services.NameEntry | CarsAnalytics.SystemApi/Services/TerritoryService.cs:160 | one clashing name described as "Name=…, Region=…", a null property printing as nothing |
| Services.NamePartSnoc | CarsAnalytics.SystemApi/Services/TerritoryService.cs:159-160 | clashing names are listed in the order of the trimmed records, with one "; " between neighbours |
| Services.ConflictMessage | CarsAnalytics.SystemApi/Services/TerritoryService.cs:150-163 | the code part comes first, the parts are joined by " \| ", each part appears only when it has clashes, and the message starts with the right heading |
| Services.ExistingFor | CarsAnalytics.SystemApi/Services/TerritoryService.cs:121-122 | the stored rows whose region equals the first record's; none when it is null |
| Services.OtherRegionRecordNeverClashes | CarsAnalytics.SystemApi/Services/TerritoryService.cs:121-148 | a record whose trimmed region differs, ignoring case, from the first record's never clashes |
| Services.ToEntities | CarsAnalytics.SystemApi/Services/TerritoryService.cs:47-52 | one row per record, and the rows map back to the records |
| Services.ShapeCreated | CarsAnalytics.SystemApi/Services/TerritoryService.cs:56-73 | the reply is InternalServerError exactly when the store returned no rows |
| Services.PlanCreateMany | CarsAnalytics.SystemApi/Services/TerritoryService.cs:37-74 | a call throws only on the empty batch; a call that writes has no null entry, writes the records in order and replies Created with them and their count |
| Services.PlanOfInputRejection | CarsAnalytics.SystemApi/Services/TerritoryService.cs:39-42 | a batch the input gate refuses is answered with 400 and the gate's message, and nothing is written |
| Services.PlanPastInputGate | CarsAnalytics.SystemApi/Services/TerritoryService.cs:44-45 | past the input gate every record is complete; an empty batch throws, and any other is decided by the store gate of its first record's region |
| Services.StorePlan | CarsAnalytics.SystemApi/Services/TerritoryService.cs:44-73 | past the input gate, rows are written exactly when the batch is non-empty and the store gate passes; then the reply is Created with the records and their count, otherwise 409 or 500 |
| Services.WritesOnlyWhenEveryGatePasses | CarsAnalytics.SystemApi/Services/TerritoryService.cs:37-73 | a create writes exactly when the batch is non-empty, null-free, valid, repeat-free and clash-free; it then writes the records in order and replies Created with them and their count |
| Services.NullEntryRejected | CarsAnalytics.SystemApi.Tests/ServiceTests/TerritoryServiceTests.cs:67-79 | a batch with a null is refused with 400 and writes nothing |
| Services.EmptyBatchThrows | CarsAnalytics.SystemApi/Services/TerritoryService.cs:121 | an empty batch passes the input gate, throws on its first record and writes nothing |
| Services.InvalidRecordRejected | CarsAnalytics.SystemApi/Services/TerritoryService.cs:89-100 | a batch with an invalid record is refused with 400 and the joined distinct messages, and writes nothing |
| Services.RepeatedRecordRejected | CarsAnalytics.SystemApi/Services/TerritoryService.cs:102-114 | a valid batch with a repeated record is refused with 400 and the duplicate listing, and writes nothing |
| Services.RepeatedCreateConflicts | CarsAnalytics.SystemApi/Services/TerritoryService.cs:119-165 | sending a created batch again is refused with 409 and writes nothing |
| Services.OtherRegionRowsAreIgnored | CarsAnalytics.SystemApi/Services/TerritoryService.cs:121-122 | a stored row in another region than the first record's does not change the outcome |
| Services.PaddedLowerCaseCodeClashes | CarsAnalytics.SystemApi/Services/TerritoryService.cs:124-141 | " ac " in region "ab" clashes with stored code "AC" in region "AB" |
| Services.SampleRecordsValid | CarsAnalytics.SystemApi.Tests/ServiceTests/TerritoryServiceTests.cs:85-88 | the records of the service scenarios are valid |
| Services.SingleValidRecordAccepted | CarsAnalytics.SystemApi/Services/TerritoryService.cs:76-117 | a batch of one valid record passes the input gate |
| Services.SingleRecordIntoEmptyRegion | CarsAnalytics.SystemApi/Services/TerritoryService.cs:37-73 | one valid record into an empty region is written and echoed, with a count of 1 |
| Services.StoredRecordConflicts | CarsAnalytics.SystemApi/Services/TerritoryService.cs:150-165 | one valid record whose row is stored is refused with 409, code heading first, and writes nothing |
| Services.CreateIntoEmptyRegion | CarsAnalytics.SystemApi.Tests/ServiceTests/TerritoryServiceTests.cs:106-129 | `{TB, Territory, AB}` into an empty region is Created |
| Services.CreateOfStoredTerritoryConflicts | CarsAnalytics.SystemApi.Tests/ServiceTests/TerritoryServiceTests.cs:82-103 | `{AC, TerritoryAC, AB}` against the same stored row is a 409 starting "Duplicate Code in region" |
| Services.DigitRegionCodeRefused | CarsAnalytics.SystemApi.Tests/ServiceTests/TerritoryServiceTests.cs:36-44 | "123" is not blank and is not two letters |
| Services.TerritoryService.GetAll | CarsAnalytics.SystemApi/Services/TerritoryService.cs:13-35 | a blank code gives "Region code is required"; a code that is not two letters gives "Region code should be two letters"; otherwise OK with the wrapper's default success message and the region's rows, mapped in order |
| Services.TerritoryService.ValidateInput | CarsAnalytics.SystemApi/Services/TerritoryService.cs:76-117 | passes exactly when the input gate does; otherwise sets 400 and the gate's message |
| Services.TerritoryService.ValidateNoDuplicateInDatabase | CarsAnalytics.SystemApi/Services/TerritoryService.cs:119-168 | throws on an empty batch; otherwise passes exactly when nothing clashes with the first record's region, and on a clash sets 409 and the clash message |
| Services.TerritoryService.CreateMany | CarsAnalytics.SystemApi/Services/TerritoryService.cs:37-74 | the reply is the planned outcome, and the store grows by exactly the planned rows |

## Left out

- Asynchrony: `await` and `Task.WhenAll` (TerritoryService.cs:87) are modelled as sequential calls.
- The SQL and connection plumbing of the store are replaced by the in-memory table:
  - Dapper, SqlClient, connection strings, transactions;
  - database faults and rollback on faults.
- Row order of a read: the query at TerritoryDataProvider.cs:19-21 has no ORDER BY, so SQL promises no order. The model returns the region's rows in the order they were stored (`RowsInRegionSnoc`, and `GetAll`'s mapping in that order); this is a choice of the model, not a promise of the source.
- The database collation: region lookup and code matching compare strings exactly. A case- or space-insensitive collation would select more rows.
- Unicode:
  - `char.IsLetter` is exact only up to U+00FF;
  - ordinal case-insensitive comparison folds only ASCII letters;
  - lengths count `char`s, so non-BMP characters are not split into UTF-16 pairs.
- Services.TerritoryService.GetAll: the success reply carries the response wrapper's default message, which TerritoryServiceTests.cs:63-64 expects to contain "successfully". The wrapper is an external package, so the model takes that text as the service's constant `defaultSuccessMessage` and does not know its content.
- Services.TerritoryService.CreateMany: the response made before the gates gets status 400 as a placeholder. The wrapper's real default status is unknown, and every gate that rejects overwrites status and message.
- Services.ShapeCreated: the InternalServerError branch is unreachable with this store, because an insert returns every input row. It is kept so that it matches the source.
- `CarsAnalytics.SystemApi/Domain/Territory.cs` is not part of this model. A stored row's properties are modelled as non-null strings.
- The service's update and delete operations are declared in ITerritoryService.cs and exercised by the tests, but TerritoryService.cs does not implement them.
- The controller and Program.cs: request routing and dependency wiring.
- `DbDoubleMinValue`: a floating-point constant the core does not use.
- Services.InputRejection: its own contract states only the null case. The lemmas `InputAcceptedIff`, `InvalidRecordRejected` and `RepeatedRecordRejected` state the other cases.
