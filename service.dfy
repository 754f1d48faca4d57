/**
 * The territory service: reading the territories of a region, and creating a batch
 * of territories behind two gates. The input gate rejects a batch with a null
 * entry, a batch with a record that breaks a field rule, and a batch that repeats a
 * record. The store gate rejects a batch whose code or name clashes, after trimming
 * and ignoring case, with a stored territory of the first record's region. Only a
 * batch that passes both gates is written.
 *
 * The gates are pure functions of the batch and the stored rows; the class runs them
 * in the source's order against its store, and `PlanCreateMany` states the whole
 * outcome of a create call so that lemmas can reason about several calls.
 */
module Services {
  import opened Wrappers
  import opened Collections
  import opened Text
  import opened Domain
  import opened TerritoryValidator
  import opened TerritoryData

  const RegionCodeMissing := "Region code is required"
  const RegionCodeNotTwoLetters := "Region code should be two letters"
  const BatchRequired := "At least one territory is required"
  const DuplicatesInRequest := "Request contains duplicate territories: "
  const DuplicateCodeInRegion := "Duplicate Code in region: "
  const DuplicateNameInRegion := "Duplicate Name in region: "
  const SaveFailed := "Failed while saving territories"

  /** The message of a successful create, `$"Territories created successfully ({n} records)"`. */
  function CreatedMessage(n: nat): (m: string)
    ensures |m| > 43 && m[..34] == "Territories created successfully (" && m[|m| - 9..] == " records)"
  {
    "Territories created successfully (" + NatToString(n) + " records)"
  }

  /** The success message for one record, written out. */
  lemma CreatedMessageOfOne()
    ensures CreatedMessage(1) == "Territories created successfully (1 records)"
  {
    assert NatToString(1) == [Digit(1)] == "1";
  }

  /** The count in a success message reads back as the number of created records. */
  lemma CreatedMessageCount(n: nat)
    ensures |CreatedMessage(n)| > 43
    ensures CreatedMessage(n)[..34] == "Territories created successfully ("
    ensures DigitsValue(CreatedMessage(n)[34..|CreatedMessage(n)| - 9]) == n
  {
    var m := CreatedMessage(n);
    assert m[34..|m| - 9] == NatToString(n);
    NatToStringRoundTrip(n);
  }

  /** Different counts give different success messages. */
  lemma CreatedMessageInjective(a: nat, b: nat)
    ensures CreatedMessage(a) == CreatedMessage(b) ==> a == b
  {
    CreatedMessageCount(a);
    CreatedMessageCount(b);
  }

  /** What the region-code check of a read accepts: exactly two characters, each a letter; never blank. */
  predicate IsTwoLetterCode(s: string): (t: bool)
    ensures t <==> |s| == 2 && IsLetter(s[0]) && IsLetter(s[1])
    ensures t ==> !IsBlank(s)
  {
    (forall i :: 0 <= i < |s| ==> IsLetter(s[i])) && |s| == 2
  }

  // ----- The input gate -----

  /** Whether some entry of the batch is null. */
  predicate HasNull(dtos: seq<Option<TerritoryDto>>): (h: bool)
    ensures h <==> None in dtos
  {
    exists i :: 0 <= i < |dtos| && dtos[i].None?
  }

  /** The records of a batch without null entries. */
  function Records(dtos: seq<Option<TerritoryDto>>): (records: seq<TerritoryDto>)
    requires !HasNull(dtos)
    ensures |records| == |dtos|
    ensures forall i :: 0 <= i < |dtos| ==> dtos[i] == Some(records[i])
  {
    seq(|dtos|, i requires 0 <= i < |dtos| => dtos[i].value)
  }

  /**
   * The distinct messages of all records, record by record and each at its first
   * occurrence (`SelectMany(r => r.Errors).Select(e => e.ErrorMessage).Distinct()`).
   */
  function BatchErrors(records: seq<TerritoryDto>): (errs: seq<string>)
    ensures forall m :: m in errs <==> exists i :: 0 <= i < |records| && m in Validate(records[i])
    ensures NoDuplicates(errs)
  {
    Distinct(AllMessages(records))
  }

  /** The messages of each record, one list per record (`Select(r => r.Errors)`). */
  function MessagesPerRecord(records: seq<TerritoryDto>): (ms: seq<seq<string>>)
    ensures |ms| == |records|
    ensures forall i :: 0 <= i < |records| ==> ms[i] == Validate(records[i])
  {
    seq(|records|, i requires 0 <= i < |records| => Validate(records[i]))
  }

  /** Every message of every record, record by record, repeats included. */
  function AllMessages(records: seq<TerritoryDto>): (all: seq<string>)
    ensures forall m :: m in all <==> exists i :: 0 <= i < |records| && m in Validate(records[i])
  {
    Concat(MessagesPerRecord(records))
  }

  /**
   * The messages of a batch are its records' messages, record by record: one more
   * record appends exactly that record's messages, in the validator's order.
   */
  lemma AllMessagesSnoc(records: seq<TerritoryDto>, d: TerritoryDto)
    ensures AllMessages(records + [d]) == AllMessages(records) + Validate(d)
  {
    assert MessagesPerRecord(records + [d]) == MessagesPerRecord(records) + [Validate(d)];
    ConcatAppend(MessagesPerRecord(records), [Validate(d)]);
    ConcatSingleton(Validate(d));
  }

  /** The batch's messages keep the order in which they first occur, record by record. */
  lemma BatchErrorsInFirstOccurrenceOrder(records: seq<TerritoryDto>, i: nat, j: nat)
    requires i < j < |BatchErrors(records)|
    ensures IndexOf(AllMessages(records), BatchErrors(records)[i]) < IndexOf(AllMessages(records), BatchErrors(records)[j])
  {
    DistinctKeepsFirstOccurrenceOrder(AllMessages(records), i, j);
  }

  /** A batch produces no message exactly when every record in it is valid. */
  lemma BatchErrorsEmptyIffAllValid(records: seq<TerritoryDto>)
    ensures BatchErrors(records) == [] <==> forall i :: 0 <= i < |records| ==> IsValidRecord(records[i])
  {
    forall i | 0 <= i < |records| ensures Validate(records[i]) == [] <==> IsValidRecord(records[i]) {
      ValidateEmptyIffValid(records[i]);
    }
    var errs := BatchErrors(records);
    if errs != [] {
      assert errs[0] in errs;
    }
    forall i | 0 <= i < |records| && Validate(records[i]) != [] ensures errs != [] {
      assert Validate(records[i])[0] in errs;
    }
  }

  /**
   * The records that occur more than once, each listed once (`GroupBy` on all three
   * properties, groups of more than one, their keys). The key of a group is the whole
   * record, because a record has exactly these three properties.
   */
  function DuplicateKeys(records: seq<TerritoryDto>): (keys: seq<TerritoryDto>)
    ensures forall k :: k in keys <==> multiset(records)[k] > 1
    ensures NoDuplicates(keys)
  {
    Distinct(Filter(records, (d: TerritoryDto) => multiset(records)[d] > 1))
  }

  /** Two records that share only their code are not repeated records. */
  lemma SharedCodeIsNotRepetition(a: TerritoryDto, b: TerritoryDto)
    requires a.code == b.code && a.name != b.name
    ensures DuplicateKeys([a, b]) == []
  {
    DuplicateKeysEmptyIffDistinct([a, b]);
  }

  /** The repeated records are listed in the order of their first occurrences in the batch, as `GroupBy` lists its groups. */
  lemma DuplicateKeysInFirstOccurrenceOrder(records: seq<TerritoryDto>, i: nat, j: nat)
    requires i < j < |DuplicateKeys(records)|
    ensures IndexOf(records, DuplicateKeys(records)[i]) < IndexOf(records, DuplicateKeys(records)[j])
  {
    var keys := DuplicateKeys(records);
    var p := (d: TerritoryDto) => multiset(records)[d] > 1;
    var f := Filter(records, p);
    assert keys == Distinct(f);
    assert keys[i] in keys && keys[j] in keys;
    DistinctKeepsFirstOccurrenceOrder(f, i, j);
    FilterKeepsFirstOccurrenceOrder(records, p, keys[i], keys[j]);
  }

  /** No record is reported as repeated exactly when the batch has no repeated record. */
  lemma DuplicateKeysEmptyIffDistinct(records: seq<TerritoryDto>)
    ensures DuplicateKeys(records) == [] <==> NoDuplicates(records)
  {
    NoDuplicatesIffSingleOccurrences(records);
    var keys := DuplicateKeys(records);
    if keys != [] {
      assert keys[0] in keys;
    }
  }

  /** `$"Code={d.Code}, Name={d.Name}, Region={d.RegionCode}"`; a null property prints as nothing. */
  function DescribeDuplicate(d: TerritoryDto): (r: string)
    ensures |r| == 21 + |d.code.GetOr("")| + |d.name.GetOr("")| + |d.regionCode.GetOr("")|
    ensures r[..5] == "Code="
  {
    "Code=" + d.code.GetOr("") + ", Name=" + d.name.GetOr("") + ", Region=" + d.regionCode.GetOr("")
  }

  /** The message that lists the repeated records. */
  function DuplicateMessage(keys: seq<TerritoryDto>): (m: string)
    ensures |m| >= |DuplicatesInRequest| && m[..|DuplicatesInRequest|] == DuplicatesInRequest
    ensures |keys| == 1 ==> m == DuplicatesInRequest + DescribeDuplicate(keys[0])
  {
    var entries := seq(|keys|, i requires 0 <= i < |keys| => DescribeDuplicate(keys[i]));
    assert |keys| == 1 ==> entries == [DescribeDuplicate(keys[0])];
    DuplicatesInRequest + Join("; ", entries)
  }

  /** The repeated records are listed in the order of `keys`, one `"; "` between two of them. */
  lemma DuplicateMessageSnoc(keys: seq<TerritoryDto>, k: TerritoryDto)
    requires keys != []
    ensures DuplicateMessage(keys + [k]) == DuplicateMessage(keys) + "; " + DescribeDuplicate(k)
  {
    var entries := seq(|keys|, i requires 0 <= i < |keys| => DescribeDuplicate(keys[i]));
    var ks := keys + [k];
    assert seq(|ks|, i requires 0 <= i < |ks| => DescribeDuplicate(ks[i])) == entries + [DescribeDuplicate(k)];
    JoinAppend("; ", entries, [DescribeDuplicate(k)]);
  }

  /**
   * The message with which the input gate rejects a batch, if it does: a null entry
   * first, then the field rules, then repeated records.
   */
  function InputRejection(dtos: seq<Option<TerritoryDto>>): (m: Option<string>)
    ensures HasNull(dtos) ==> m == Some(BatchRequired)
  {
    if HasNull(dtos) then Some(BatchRequired)
    else
      var records := Records(dtos);
      var errs := BatchErrors(records);
      if errs != [] then Some(Join("; ", errs))
      else
        var keys := DuplicateKeys(records);
        if keys != [] then Some(DuplicateMessage(keys)) else None
  }

  /**
   * The input gate lets a batch through exactly when it has no null entry, every
   * record is valid and no record is repeated; a batch with an invalid record is
   * rejected with all distinct messages joined by `"; "`.
   */
  lemma InputAcceptedIff(dtos: seq<Option<TerritoryDto>>)
    ensures InputRejection(dtos).None? <==>
              && !HasNull(dtos)
              && (forall i :: 0 <= i < |dtos| ==> IsValidRecord(Records(dtos)[i]))
              && NoDuplicates(Records(dtos))
    ensures !HasNull(dtos) && BatchErrors(Records(dtos)) != [] ==>
              InputRejection(dtos) == Some(Join("; ", BatchErrors(Records(dtos))))
  {
    if !HasNull(dtos) {
      BatchErrorsEmptyIffAllValid(Records(dtos));
      DuplicateKeysEmptyIffDistinct(Records(dtos));
    }
  }

  /** A batch the input gate lets through has every property of every record present. */
  lemma AcceptedRecordsAreComplete(dtos: seq<Option<TerritoryDto>>)
    requires InputRejection(dtos).None?
    ensures forall i :: 0 <= i < |dtos| ==> HasAllFields(Records(dtos)[i])
  {
    InputAcceptedIff(dtos);
    forall i | 0 <= i < |dtos| ensures HasAllFields(Records(dtos)[i]) {
      assert IsValidRecord(Records(dtos)[i]);
    }
  }

  // ----- The store gate -----

  /** `s?.Trim()`. */
  function TrimOrNull(s: Option<string>): Option<string> {
    match s
    case None => None
    case Some(v) => Some(Trim(v))
  }

  /** A submitted record with every property trimmed. */
  function Normalize(d: TerritoryDto): (n: TerritoryDto)
    ensures n.code.None? == d.code.None? && n.name.None? == d.name.None? && n.regionCode.None? == d.regionCode.None?
  {
    TerritoryDto(TrimOrNull(d.code), TrimOrNull(d.name), TrimOrNull(d.regionCode))
  }

  /** Trimming the properties a second time changes nothing. */
  lemma NormalizeIdempotent(d: TerritoryDto)
    ensures Normalize(Normalize(d)) == Normalize(d)
  {
    if d.code.Some? { TrimIdempotent(d.code.value); }
    if d.name.Some? { TrimIdempotent(d.name.value); }
    if d.regionCode.Some? { TrimIdempotent(d.regionCode.value); }
  }

  /** A stored row with every property trimmed. */
  function NormalizeRow(t: Territory): (n: TerritoryDto)
    ensures n == TerritoryDto(Some(Trim(t.code)), Some(Trim(t.name)), Some(Trim(t.regionCode)))
  {
    Normalize(ToDto(t))
  }

  /** Whether `e` and `d` have the same region and the same code, ignoring case. */
  predicate SameCodeInRegion(e: TerritoryDto, d: TerritoryDto) {
    EqualsIgnoreCaseOrNull(e.regionCode, d.regionCode) && EqualsIgnoreCaseOrNull(e.code, d.code)
  }

  /** Whether `e` and `d` have the same region and the same name, ignoring case. */
  predicate SameNameInRegion(e: TerritoryDto, d: TerritoryDto) {
    EqualsIgnoreCaseOrNull(e.regionCode, d.regionCode) && EqualsIgnoreCaseOrNull(e.name, d.name)
  }

  /** The trimmed records whose code is taken in their region by some trimmed stored row. */
  function CodeDuplicates(nds: seq<TerritoryDto>, nes: seq<TerritoryDto>): (r: seq<TerritoryDto>)
    ensures forall d :: d in r <==> d in nds && exists e :: e in nes && SameCodeInRegion(e, d)
  {
    Filter(nds, (d: TerritoryDto) => exists e :: e in nes && SameCodeInRegion(e, d))
  }

  /** The trimmed records whose name is taken in their region by some trimmed stored row. */
  function NameDuplicates(nds: seq<TerritoryDto>, nes: seq<TerritoryDto>): (r: seq<TerritoryDto>)
    ensures forall d :: d in r <==> d in nds && exists e :: e in nes && SameNameInRegion(e, d)
  {
    Filter(nds, (d: TerritoryDto) => exists e :: e in nes && SameNameInRegion(e, d))
  }

  /** The part of a conflict message about clashing codes. */
  function CodePart(codeDups: seq<TerritoryDto>): (m: string)
    ensures |m| >= |DuplicateCodeInRegion| && m[..|DuplicateCodeInRegion|] == DuplicateCodeInRegion
    ensures |codeDups| == 1 ==> m == DuplicateCodeInRegion + CodeEntry(codeDups[0])
  {
    var entries := seq(|codeDups|, i requires 0 <= i < |codeDups| => CodeEntry(codeDups[i]));
    assert |codeDups| == 1 ==> entries == [CodeEntry(codeDups[0])];
    DuplicateCodeInRegion + Join("; ", entries)
  }

  /** `$"Code={d.Code}, Region={d.RegionCode}"`. */
  function CodeEntry(d: TerritoryDto): string {
    "Code=" + d.code.GetOr("") + ", Region=" + d.regionCode.GetOr("")
  }

  /** The clashing codes are listed in the order of `codeDups`, one `"; "` between two of them. */
  lemma CodePartSnoc(codeDups: seq<TerritoryDto>, d: TerritoryDto)
    requires codeDups != []
    ensures CodePart(codeDups + [d]) == CodePart(codeDups) + "; " + CodeEntry(d)
  {
    var entries := seq(|codeDups|, i requires 0 <= i < |codeDups| => CodeEntry(codeDups[i]));
    var ds := codeDups + [d];
    assert seq(|ds|, i requires 0 <= i < |ds| => CodeEntry(ds[i])) == entries + [CodeEntry(d)];
    JoinAppend("; ", entries, [CodeEntry(d)]);
  }

  /** The part of a conflict message about clashing names. */
  function NamePart(nameDups: seq<TerritoryDto>): (m: string)
    ensures |m| >= |DuplicateNameInRegion| && m[..|DuplicateNameInRegion|] == DuplicateNameInRegion
    ensures |nameDups| == 1 ==> m == DuplicateNameInRegion + NameEntry(nameDups[0])
  {
    var entries := seq(|nameDups|, i requires 0 <= i < |nameDups| => NameEntry(nameDups[i]));
    assert |nameDups| == 1 ==> entries == [NameEntry(nameDups[0])];
    DuplicateNameInRegion + Join("; ", entries)
  }

  /** `$"Name={d.Name}, Region={d.RegionCode}"`. */
  function NameEntry(d: TerritoryDto): string {
    "Name=" + d.name.GetOr("") + ", Region=" + d.regionCode.GetOr("")
  }

  /** The clashing names are listed in the order of `nameDups`, one `"; "` between two of them. */
  lemma NamePartSnoc(nameDups: seq<TerritoryDto>, d: TerritoryDto)
    requires nameDups != []
    ensures NamePart(nameDups + [d]) == NamePart(nameDups) + "; " + NameEntry(d)
  {
    var entries := seq(|nameDups|, i requires 0 <= i < |nameDups| => NameEntry(nameDups[i]));
    var ds := nameDups + [d];
    assert seq(|ds|, i requires 0 <= i < |ds| => NameEntry(ds[i])) == entries + [NameEntry(d)];
    JoinAppend("; ", entries, [NameEntry(d)]);
  }

  /** Whether some stored row clashes with the record `d` on its code or its name, once both are trimmed. */
  predicate ClashesWithStored(d: TerritoryDto, existing: seq<Territory>) {
    exists t :: t in existing && (SameCodeInRegion(NormalizeRow(t), Normalize(d)) || SameNameInRegion(NormalizeRow(t), Normalize(d)))
  }

  /** The trimmed records as a sequence. */
  function NormalizeAll(records: seq<TerritoryDto>): (nds: seq<TerritoryDto>)
    ensures |nds| == |records|
    ensures forall i :: 0 <= i < |records| ==> nds[i] == Normalize(records[i])
  {
    seq(|records|, i requires 0 <= i < |records| => Normalize(records[i]))
  }

  /** The trimmed stored rows as a sequence. */
  function NormalizeRows(existing: seq<Territory>): (nes: seq<TerritoryDto>)
    ensures forall e :: e in nes <==> exists t :: t in existing && e == NormalizeRow(t)
  {
    var nes := seq(|existing|, i requires 0 <= i < |existing| => NormalizeRow(existing[i]));
    assert forall i :: 0 <= i < |existing| ==> nes[i] == NormalizeRow(existing[i]);
    nes
  }

  /**
   * The message with which the store gate rejects a batch, if it does: the code
   * clashes, then the name clashes, joined by `" | "`. A rejection starts with the
   * code heading when some code clashes, and with the name heading otherwise.
   */
  function ConflictRejection(records: seq<TerritoryDto>, existing: seq<Territory>): (m: Option<string>)
    ensures m.Some? ==>
              var heading := if CodeDuplicates(NormalizeAll(records), NormalizeRows(existing)) != []
                             then DuplicateCodeInRegion else DuplicateNameInRegion;
              |m.value| >= |heading| && m.value[..|heading|] == heading
  {
    var nds := NormalizeAll(records);
    var nes := NormalizeRows(existing);
    var codeDups := CodeDuplicates(nds, nes);
    var nameDups := NameDuplicates(nds, nes);
    if codeDups != [] || nameDups != [] then Some(ConflictMessage(codeDups, nameDups)) else None
  }

  /**
   * The conflict message holds the code part when some code clashes and the name part
   * when some name clashes, code part first, joined by `" | "`; so it starts with
   * the code heading whenever a code clashes, and with the name heading otherwise.
   */
  function ConflictMessage(codeDups: seq<TerritoryDto>, nameDups: seq<TerritoryDto>): (m: string)
    requires codeDups != [] || nameDups != []
    ensures codeDups != [] && nameDups != [] ==> m == CodePart(codeDups) + " | " + NamePart(nameDups)
    ensures codeDups != [] && nameDups == [] ==> m == CodePart(codeDups)
    ensures codeDups == [] ==> m == NamePart(nameDups)
    ensures var heading := if codeDups != [] then DuplicateCodeInRegion else DuplicateNameInRegion;
            |m| >= |heading| && m[..|heading|] == heading
  {
    var parts := (if codeDups != [] then [CodePart(codeDups)] else [])
                 + (if nameDups != [] then [NamePart(nameDups)] else []);
    assert codeDups != [] && nameDups != [] ==> parts[..1] == [CodePart(codeDups)];
    Join(" | ", parts)
  }

  /** The store gate lets a batch through exactly when no record clashes with a stored row. */
  lemma ConflictAcceptedIff(records: seq<TerritoryDto>, existing: seq<Territory>)
    ensures ConflictRejection(records, existing).None? <==>
              forall i :: 0 <= i < |records| ==> !ClashesWithStored(records[i], existing)
  {
    var nds := NormalizeAll(records);
    var nes := NormalizeRows(existing);
    if CodeDuplicates(nds, nes) != [] {
      ReportedCodeClashes(records, existing);
    } else if NameDuplicates(nds, nes) != [] {
      ReportedNameClashes(records, existing);
    }
    if i :| 0 <= i < |records| && ClashesWithStored(records[i], existing) {
      ClashIsReported(records, existing, i);
    }
  }

  lemma ReportedCodeClashes(records: seq<TerritoryDto>, existing: seq<Territory>)
    requires CodeDuplicates(NormalizeAll(records), NormalizeRows(existing)) != []
    ensures exists i :: 0 <= i < |records| && ClashesWithStored(records[i], existing)
  {
    var nds := NormalizeAll(records);
    var nes := NormalizeRows(existing);
    var d := CodeDuplicates(nds, nes)[0];
    assert d in CodeDuplicates(nds, nes);
    var i :| 0 <= i < |nds| && nds[i] == d;
    var e :| e in nes && SameCodeInRegion(e, d);
    var t :| t in existing && e == NormalizeRow(t);
    assert nds[i] == Normalize(records[i]);
    assert SameCodeInRegion(NormalizeRow(t), Normalize(records[i]));
  }

  lemma ReportedNameClashes(records: seq<TerritoryDto>, existing: seq<Territory>)
    requires NameDuplicates(NormalizeAll(records), NormalizeRows(existing)) != []
    ensures exists i :: 0 <= i < |records| && ClashesWithStored(records[i], existing)
  {
    var nds := NormalizeAll(records);
    var nes := NormalizeRows(existing);
    var d := NameDuplicates(nds, nes)[0];
    assert d in NameDuplicates(nds, nes);
    var i :| 0 <= i < |nds| && nds[i] == d;
    var e :| e in nes && SameNameInRegion(e, d);
    var t :| t in existing && e == NormalizeRow(t);
    assert nds[i] == Normalize(records[i]);
    assert SameNameInRegion(NormalizeRow(t), Normalize(records[i]));
  }

  lemma ClashIsReported(records: seq<TerritoryDto>, existing: seq<Territory>, i: nat)
    requires i < |records| && ClashesWithStored(records[i], existing)
    ensures CodeDuplicates(NormalizeAll(records), NormalizeRows(existing)) != []
            || NameDuplicates(NormalizeAll(records), NormalizeRows(existing)) != []
  {
    var nds := NormalizeAll(records);
    var nes := NormalizeRows(existing);
    var d := nds[i];
    assert d in nds;
    var t :| t in existing && (SameCodeInRegion(NormalizeRow(t), d) || SameNameInRegion(NormalizeRow(t), d));
    assert NormalizeRow(t) in nes;
    if SameCodeInRegion(NormalizeRow(t), d) {
      assert d in CodeDuplicates(nds, nes);
    } else {
      assert d in NameDuplicates(nds, nes);
    }
  }

  /** The stored rows the store gate compares against: those of the first record's region. */
  function ExistingFor(first: TerritoryDto, stored: seq<Territory>): (r: seq<Territory>)
    ensures forall t :: t in r <==> t in stored && first.regionCode == Some(t.regionCode)
  {
    if first.regionCode.Some? then RowsInRegion(stored, first.regionCode.value) else []
  }

  /**
   * Only rows of the first record's region are compared against, so a record whose
   * trimmed region differs, ignoring case, from the first record's never clashes.
   */
  lemma OtherRegionRecordNeverClashes(records: seq<TerritoryDto>, stored: seq<Territory>, i: nat)
    requires i < |records| && records[0].regionCode.Some?
    requires !EqualsIgnoreCaseOrNull(Some(Trim(records[0].regionCode.value)), Normalize(records[i]).regionCode)
    ensures !ClashesWithStored(records[i], ExistingFor(records[0], stored))
  {
    forall t | t in ExistingFor(records[0], stored)
      ensures NormalizeRow(t).regionCode == Some(Trim(records[0].regionCode.value))
    {
    }
  }

  // ----- The outcome of a create call -----

  /** The rows to insert for a batch of complete records, in order. */
  function ToEntities(records: seq<TerritoryDto>): (ts: seq<Territory>)
    requires forall i :: 0 <= i < |records| ==> HasAllFields(records[i])
    ensures |ts| == |records|
    ensures ToDtos(ts) == records
  {
    var ts := seq(|records|, i requires 0 <= i < |records| => ToEntity(records[i]));
    forall i | 0 <= i < |records| ensures ToDtos(ts)[i] == records[i] {
      ToDtoOfToEntity(records[i]);
    }
    ts
  }

  /** The reply to the rows the store returns from an insert. */
  function ShapeCreated(created: seq<Territory>): (r: ApiResponse)
    ensures created == [] <==> r.status == InternalServerError
  {
    if created == [] then FailureResponse(SaveFailed, InternalServerError)
    else ApiResponse(Created, Some(CreatedMessage(|created|)), Some(ToDtos(created)))
  }

  /** What a create call replies and what it appends to the store. */
  datatype CreatePlan = CreatePlan(reply: CallResult, written: seq<Territory>)

  /** The outcome of `CreateManyAsync(dtos)` against a store holding `stored`. */
  function PlanCreateMany(dtos: seq<Option<TerritoryDto>>, stored: seq<Territory>): (p: CreatePlan)
    ensures p.reply.Threw? ==> dtos == [] && p.written == []
    ensures p.written != [] ==>
              && !HasNull(dtos) && ToDtos(p.written) == Records(dtos)
              && p.reply == Returned(ApiResponse(Created, Some(CreatedMessage(|dtos|)), Some(Records(dtos))))
  {
    match InputRejection(dtos)
    case Some(m) => CreatePlan(Returned(FailureResponse(m, BadRequest)), [])
    case None =>
      AcceptedRecordsAreComplete(dtos);
      var records := Records(dtos);
      if |records| == 0 then CreatePlan(Threw(NoElements), [])
      else StorePlan(records, ExistingFor(records[0], stored))
  }

  /** A batch the input gate refuses is answered with 400 and the gate's message, and nothing is written. */
  lemma PlanOfInputRejection(dtos: seq<Option<TerritoryDto>>, stored: seq<Territory>)
    requires InputRejection(dtos).Some?
    ensures PlanCreateMany(dtos, stored) == CreatePlan(Returned(FailureResponse(InputRejection(dtos).value, BadRequest)), [])
  {
  }

  /** Past the input gate, an empty batch throws and any other is decided by the store gate of its first record's region. */
  lemma PlanPastInputGate(dtos: seq<Option<TerritoryDto>>, stored: seq<Territory>)
    requires InputRejection(dtos).None?
    ensures !HasNull(dtos) && forall i :: 0 <= i < |dtos| ==> HasAllFields(Records(dtos)[i])
    ensures dtos == [] ==> PlanCreateMany(dtos, stored) == CreatePlan(Threw(NoElements), [])
    ensures dtos != [] ==> PlanCreateMany(dtos, stored) == StorePlan(Records(dtos), ExistingFor(Records(dtos)[0], stored))
  {
    AcceptedRecordsAreComplete(dtos);
  }

  /** The outcome once the input gate has passed: the store gate against `existing`, then the insert. */
  function StorePlan(records: seq<TerritoryDto>, existing: seq<Territory>): (p: CreatePlan)
    requires forall i :: 0 <= i < |records| ==> HasAllFields(records[i])
    ensures p.reply.Returned?
    ensures p.written != [] <==> records != [] && ConflictRejection(records, existing).None?
    ensures p.written != [] ==>
              && ToDtos(p.written) == records
              && p.reply.response == ApiResponse(Created, Some(CreatedMessage(|records|)), Some(records))
    ensures p.written == [] ==> p.reply.response.status == Conflict || p.reply.response.status == InternalServerError
  {
    match ConflictRejection(records, existing)
    case Some(m) => CreatePlan(Returned(FailureResponse(m, Conflict)), [])
    case None =>
      var entities := ToEntities(records);
      CreatePlan(Returned(ShapeCreated(entities)), entities)
  }

  /**
   * A create call writes exactly when the batch is non-empty, free of nulls, valid,
   * free of repeated records and clear of clashes with its region's stored rows;
   * it then writes the submitted records, in order, and echoes them with their count.
   */
  lemma WritesOnlyWhenEveryGatePasses(dtos: seq<Option<TerritoryDto>>, stored: seq<Territory>)
    ensures PlanCreateMany(dtos, stored).written != [] <==>
              && |dtos| > 0
              && !HasNull(dtos)
              && (forall i :: 0 <= i < |dtos| ==> IsValidRecord(Records(dtos)[i]))
              && NoDuplicates(Records(dtos))
              && (forall i :: 0 <= i < |dtos| ==>
                    !ClashesWithStored(Records(dtos)[i], ExistingFor(Records(dtos)[0], stored)))
    ensures PlanCreateMany(dtos, stored).written != [] ==>
              && ToDtos(PlanCreateMany(dtos, stored).written) == Records(dtos)
              && PlanCreateMany(dtos, stored).reply
                 == Returned(ApiResponse(Created, Some(CreatedMessage(|dtos|)), Some(Records(dtos))))
  {
    InputAcceptedIff(dtos);
    if |dtos| > 0 && !HasNull(dtos) {
      ConflictAcceptedIff(Records(dtos), ExistingFor(Records(dtos)[0], stored));
    }
  }

  /** A batch with a null entry is rejected with the "at least one territory" message and writes nothing. */
  lemma NullEntryRejected(dtos: seq<Option<TerritoryDto>>, stored: seq<Territory>)
    requires HasNull(dtos)
    ensures PlanCreateMany(dtos, stored) == CreatePlan(Returned(FailureResponse(BatchRequired, BadRequest)), [])
  {
  }

  /** An empty batch passes the input gate and then fails on taking its first record. */
  lemma EmptyBatchThrows(stored: seq<Territory>)
    ensures PlanCreateMany([], stored) == CreatePlan(Threw(NoElements), [])
  {
  }

  /**
   * A batch with an invalid record is rejected with the distinct messages of all its
   * records; the repetition check and the store are not reached.
   */
  lemma InvalidRecordRejected(dtos: seq<Option<TerritoryDto>>, stored: seq<Territory>, i: nat)
    requires !HasNull(dtos) && i < |dtos| && !IsValidRecord(Records(dtos)[i])
    ensures PlanCreateMany(dtos, stored)
            == CreatePlan(Returned(FailureResponse(Join("; ", BatchErrors(Records(dtos))), BadRequest)), [])
  {
    BatchErrorsEmptyIffAllValid(Records(dtos));
    InputAcceptedIff(dtos);
  }

  /** A batch with a repeated record is rejected, naming the record, even when each record is valid. */
  lemma RepeatedRecordRejected(dtos: seq<Option<TerritoryDto>>, stored: seq<Territory>)
    requires !HasNull(dtos) && (forall i :: 0 <= i < |dtos| ==> IsValidRecord(Records(dtos)[i]))
    requires !NoDuplicates(Records(dtos))
    ensures PlanCreateMany(dtos, stored)
            == CreatePlan(Returned(FailureResponse(DuplicateMessage(DuplicateKeys(Records(dtos))), BadRequest)), [])
  {
    BatchErrorsEmptyIffAllValid(Records(dtos));
    DuplicateKeysEmptyIffDistinct(Records(dtos));
  }

  /** Submitting a batch that was just created again is rejected as a conflict and writes nothing. */
  lemma RepeatedCreateConflicts(dtos: seq<Option<TerritoryDto>>, stored: seq<Territory>)
    requires PlanCreateMany(dtos, stored).written != []
    ensures PlanCreateMany(dtos, stored + PlanCreateMany(dtos, stored).written).written == []
    ensures PlanCreateMany(dtos, stored + PlanCreateMany(dtos, stored).written).reply.Returned?
    ensures PlanCreateMany(dtos, stored + PlanCreateMany(dtos, stored).written).reply.response.status == Conflict
  {
    var written := PlanCreateMany(dtos, stored).written;
    var records := Records(dtos);
    var first := records[0];
    AcceptedRecordsAreComplete(dtos);
    var t := ToEntity(first);
    assert written[0] == t by {
      assert ToDtos(written)[0] == first;
    }
    assert t in stored + written;
    assert t in ExistingFor(first, stored + written);
    ToDtoOfToEntity(first);
    assert NormalizeRow(t) == Normalize(first);
    var n := Normalize(first);
    EqualsIgnoreCaseIsEquivalence(n.code.value, n.code.value, n.code.value);
    EqualsIgnoreCaseIsEquivalence(n.regionCode.value, n.regionCode.value, n.regionCode.value);
    assert SameCodeInRegion(NormalizeRow(t), n);
    assert ClashesWithStored(records[0], ExistingFor(first, stored + written));
    ConflictAcceptedIff(records, ExistingFor(first, stored + written));
  }

  /** Appending a row of another region than the first record's does not change any outcome. */
  lemma OtherRegionRowsAreIgnored(dtos: seq<Option<TerritoryDto>>, stored: seq<Territory>, t: Territory)
    requires |dtos| > 0 && dtos[0].Some? && dtos[0].value.regionCode != Some(t.regionCode)
    ensures PlanCreateMany(dtos, stored + [t]) == PlanCreateMany(dtos, stored)
  {
    var first := dtos[0].value;
    if first.regionCode.Some? {
      RowsInRegionSnoc(stored, first.regionCode.value, t);
    }
    assert ExistingFor(first, stored + [t]) == ExistingFor(first, stored);
    if !HasNull(dtos) {
      assert Records(dtos)[0] == first;
    }
  }

  /** Surrounding white space and letter case do not hide a clash with a stored code in the same region. */
  lemma PaddedLowerCaseCodeClashes()
    ensures ClashesWithStored(TerritoryDto(Some(" ac "), Some("South"), Some("ab")),
                              [Territory("AC", "North", "AB")])
  {
    var t := Territory("AC", "North", "AB");
    var d := TerritoryDto(Some(" ac "), Some("South"), Some("ab"));
    SampleTrims();
    SampleCodesTrimToThemselves();
    SampleNamesTrimToThemselves();
    assert NormalizeRow(t) == TerritoryDto(Some("AC"), Some("North"), Some("AB"));
    assert Normalize(d) == TerritoryDto(Some("ac"), Some("South"), Some("ab"));
    assert UpperInvariant("ac") == "AC" && UpperInvariant("AC") == "AC";
    assert UpperInvariant("ab") == "AB" && UpperInvariant("AB") == "AB";
    assert SameCodeInRegion(NormalizeRow(t), Normalize(d));
  }

  /** Trimming the padded sample code removes the spaces on both sides. */
  lemma SampleTrims()
    ensures Trim(" ac ") == "ac"
  {
    assert Trim(" ac ") == Trim("ac ") == TrimEnd("ac ") == "ac";
  }

  /** The sample codes and region codes have no white space to trim. */
  lemma SampleCodesTrimToThemselves()
    ensures Trim("AC") == "AC" && Trim("AB") == "AB" && Trim("ab") == "ab"
  {
    TrimFixedPoints("AC");
    TrimFixedPoints("AB");
    TrimFixedPoints("ab");
  }

  /** The sample names have no white space to trim. */
  lemma SampleNamesTrimToThemselves()
    ensures Trim("North") == "North" && Trim("South") == "South"
  {
    TrimFixedPoints("North");
    TrimFixedPoints("South");
  }

  /** The valid records of the creation scenarios. */
  lemma SampleRecordsValid()
    ensures IsValidRecord(TerritoryDto(Some("TB"), Some("Territory"), Some("AB")))
    ensures IsValidRecord(TerritoryDto(Some("AC"), Some("TerritoryAC"), Some("AB")))
  {
    assert !IsWhiteSpace("Territory"[0]) && !IsWhiteSpace("TerritoryAC"[0]);
    assert AllIn("Territory", IsNameChar);
    assert AllIn("TerritoryAC", IsNameChar);
  }

  /** A batch of one valid record passes the input gate. */
  lemma SingleValidRecordAccepted(d: TerritoryDto)
    requires IsValidRecord(d)
    ensures InputRejection([Some(d)]).None? && Records([Some(d)]) == [d]
  {
    var dtos := [Some(d)];
    assert !HasNull(dtos) by {
      assert forall i :: 0 <= i < |dtos| ==> dtos[i].Some?;
    }
    var records := Records(dtos);
    assert records == [d];
    BatchErrorsEmptyIffAllValid(records);
    DuplicateKeysEmptyIffDistinct(records);
  }

  /** One valid record is created in a region with no stored territories, and the reply counts one record. */
  lemma SingleRecordIntoEmptyRegion(d: TerritoryDto)
    requires IsValidRecord(d)
    ensures PlanCreateMany([Some(d)], [])
            == CreatePlan(Returned(ApiResponse(Created, Some(CreatedMessage(1)), Some([d]))), [ToEntity(d)])
  {
    SingleValidRecordAccepted(d);
    assert ExistingFor(d, []) == [];
    StoreIntoEmptyRegion(d);
    assert PlanCreateMany([Some(d)], []) == StorePlan([d], []);
  }

  /** Past the input gate, a complete record meets no stored row of an empty region and is written. */
  lemma StoreIntoEmptyRegion(d: TerritoryDto)
    requires HasAllFields(d)
    ensures StorePlan([d], [])
            == CreatePlan(Returned(ApiResponse(Created, Some(CreatedMessage(1)), Some([d]))), [ToEntity(d)])
  {
    ConflictAcceptedIff([d], []);
    var entities := ToEntities([d]);
    assert entities == [ToEntity(d)];
    assert ShapeCreated(entities) == ApiResponse(Created, Some(CreatedMessage(1)), Some([d]));
  }

  /** One valid record whose row is already stored is a conflict, reported by code first. */
  lemma StoredRecordConflicts(d: TerritoryDto)
    requires IsValidRecord(d)
    ensures var p := PlanCreateMany([Some(d)], [ToEntity(d)]);
            && p.written == [] && p.reply.Returned? && p.reply.response.status == Conflict
            && p.reply.response.message.Some?
            && |p.reply.response.message.value| >= |DuplicateCodeInRegion|
            && p.reply.response.message.value[..|DuplicateCodeInRegion|] == DuplicateCodeInRegion
  {
    SingleValidRecordAccepted(d);
    StoreOfStoredRecordConflicts(d);
    assert PlanCreateMany([Some(d)], [ToEntity(d)]) == StorePlan([d], ExistingFor(d, [ToEntity(d)]));
  }

  /** Past the input gate, a complete record whose row is stored is refused by the store gate, code part first. */
  lemma StoreOfStoredRecordConflicts(d: TerritoryDto)
    requires HasAllFields(d)
    ensures var p := StorePlan([d], ExistingFor(d, [ToEntity(d)]));
            && p.written == [] && p.reply.Returned? && p.reply.response.status == Conflict
            && p.reply.response.message.Some?
            && |p.reply.response.message.value| >= |DuplicateCodeInRegion|
            && p.reply.response.message.value[..|DuplicateCodeInRegion|] == DuplicateCodeInRegion
  {
    StoredRowCodeClashes(d);
  }

  /** The stored row of a complete record clashes with the record's code. */
  lemma StoredRowCodeClashes(d: TerritoryDto)
    requires HasAllFields(d)
    ensures CodeDuplicates(NormalizeAll([d]), NormalizeRows(ExistingFor(d, [ToEntity(d)]))) != []
  {
    var t := ToEntity(d);
    assert t in ExistingFor(d, [t]);
    ToDtoOfToEntity(d);
    var n := Normalize(d);
    assert NormalizeRow(t) == n;
    var nds := NormalizeAll([d]);
    var nes := NormalizeRows(ExistingFor(d, [t]));
    assert nds[0] == n && n in nds;
    assert n in nes;
    assert SameCodeInRegion(n, n);
    assert n in CodeDuplicates(nds, nes);
  }

  /** `{TB, "Territory", AB}` is created in a region with no stored territories. */
  lemma CreateIntoEmptyRegion()
    ensures var d := TerritoryDto(Some("TB"), Some("Territory"), Some("AB"));
            PlanCreateMany([Some(d)], [])
            == CreatePlan(Returned(ApiResponse(Created, Some(CreatedMessage(1)), Some([d]))), [ToEntity(d)])
  {
    SampleRecordsValid();
    SingleRecordIntoEmptyRegion(TerritoryDto(Some("TB"), Some("Territory"), Some("AB")));
  }

  /** `{AC, "TerritoryAC", AB}` conflicts with the same stored territory. */
  lemma CreateOfStoredTerritoryConflicts()
    ensures var d := TerritoryDto(Some("AC"), Some("TerritoryAC"), Some("AB"));
            var p := PlanCreateMany([Some(d)], [Territory("AC", "TerritoryAC", "AB")]);
            && p.written == [] && p.reply.Returned? && p.reply.response.status == Conflict
            && p.reply.response.message.Some?
            && |p.reply.response.message.value| >= |DuplicateCodeInRegion|
            && p.reply.response.message.value[..|DuplicateCodeInRegion|] == DuplicateCodeInRegion
  {
    SampleRecordsValid();
    StoredRecordConflicts(TerritoryDto(Some("AC"), Some("TerritoryAC"), Some("AB")));
  }

  /** A code with a digit is refused by a read: it is not blank and is not two letters. */
  lemma DigitRegionCodeRefused()
    ensures !IsNullOrWhiteSpace(Some("123")) && !IsTwoLetterCode("123")
  {
    assert !IsWhiteSpace("123"[0]);
  }

  class TerritoryService {
    const provider: TerritoryStore
    /** The response wrapper's default success message, whose text lives outside the core. */
    const defaultSuccessMessage: string

    constructor (provider: TerritoryStore, defaultSuccessMessage: string)
      ensures this.provider == provider && this.defaultSuccessMessage == defaultSuccessMessage
    {
      this.provider := provider;
      this.defaultSuccessMessage := defaultSuccessMessage;
    }

    /**
     * `GetAllAsync`: a blank or null region code is required, a code that is not two
     * letters is refused, and otherwise the region's stored territories are returned,
     * in the order the in-memory table keeps them (the query itself fixes no order).
     */
    method GetAll(regionCode: Option<string>) returns (r: ApiResponse)
      ensures IsNullOrWhiteSpace(regionCode) ==> r == FailureResponse(RegionCodeMissing, BadRequest)
      ensures !IsNullOrWhiteSpace(regionCode) && !IsTwoLetterCode(regionCode.value)
              ==> r == FailureResponse(RegionCodeNotTwoLetters, BadRequest)
      ensures !IsNullOrWhiteSpace(regionCode) && IsTwoLetterCode(regionCode.value)
              ==> r.status == OK && r.message == Some(defaultSuccessMessage) && r.data.Some?
                  && |r.data.value| == |provider.GetByRegion(regionCode.value)|
                  && forall i :: 0 <= i < |r.data.value| ==>
                       HasAllFields(r.data.value[i])
                       && ToEntity(r.data.value[i]) == provider.GetByRegion(regionCode.value)[i]
                       && r.data.value[i].regionCode == regionCode
    {
      if IsNullOrWhiteSpace(regionCode) {
        return FailureResponse(RegionCodeMissing, BadRequest);
      }
      var code := regionCode.value;
      if !IsTwoLetterCode(code) {
        return FailureResponse(RegionCodeNotTwoLetters, BadRequest);
      }
      var territories := provider.GetByRegion(code);
      assert forall i :: 0 <= i < |territories| ==> territories[i] in territories;
      r := ApiResponse(OK, Some(defaultSuccessMessage), Some(ToDtos(territories)));
    }

    /**
     * `ValidateInput`: on a rejected batch, sets the response's status to 400 and its
     * message to the reason, and reports failure; otherwise leaves it alone.
     */
    method ValidateInput(dtos: seq<Option<TerritoryDto>>, response: ApiResponse) returns (ok: bool, updated: ApiResponse)
      ensures ok <==> InputRejection(dtos).None?
      ensures ok ==> updated == response
      ensures !ok ==> updated == response.(status := BadRequest, message := InputRejection(dtos))
    {
      if HasNull(dtos) {
        return false, response.(status := BadRequest, message := Some(BatchRequired));
      }
      var records := Records(dtos);
      var errs := BatchErrors(records);
      if errs != [] {
        return false, response.(status := BadRequest, message := Some(Join("; ", errs)));
      }
      var keys := DuplicateKeys(records);
      if keys != [] {
        return false, response.(status := BadRequest, message := Some(DuplicateMessage(keys)));
      }
      return true, response;
    }

    /**
     * `ValidateNoDuplicateInDatabaseByRegionCode`: takes the first record's region code,
     * which throws on an empty batch, and looks up that region's stored rows; on a
     * clash sets the status to 409 and the message to the clashes, and reports
     * failure; otherwise leaves the response alone.
     */
    method ValidateNoDuplicateInDatabase(records: seq<TerritoryDto>, response: ApiResponse) returns (ok: bool, outcome: CallResult)
      ensures records == [] ==> !ok && outcome == Threw(NoElements)
      ensures records != [] ==>
                && (ok <==> ConflictRejection(records, ExistingFor(records[0], provider.rows)).None?)
                && (ok ==> outcome == Returned(response))
                && (!ok ==> outcome == Returned(response.(status := Conflict,
                                                          message := ConflictRejection(records, ExistingFor(records[0], provider.rows)))))
    {
      if records == [] {
        return false, Threw(NoElements);
      }
      var regionCode := records[0].regionCode;
      var existing := if regionCode.Some? then provider.GetByRegion(regionCode.value) else [];
      var rejection := ConflictRejection(records, existing);
      if rejection.Some? {
        return false, Returned(response.(status := Conflict, message := rejection));
      }
      return true, Returned(response);
    }

    /**
     * `CreateManyAsync`: runs the input gate and the store gate, and only then inserts
     * the records and replies with the inserted rows.
     */
    method CreateMany(dtos: seq<Option<TerritoryDto>>) returns (r: CallResult)
      modifies provider
      ensures r == PlanCreateMany(dtos, old(provider.rows)).reply
      ensures provider.rows == old(provider.rows) + PlanCreateMany(dtos, old(provider.rows)).written
    {
      ghost var stored := provider.rows;
      // The failure response built up front; each gate that rejects sets its status and message.
      var response := FailureResponse("", BadRequest);
      var ok;
      ok, response := ValidateInput(dtos, response);
      if !ok {
        PlanOfInputRejection(dtos, stored);
        return Returned(response);
      }
      PlanPastInputGate(dtos, stored);
      var records := Records(dtos);
      var outcome;
      ok, outcome := ValidateNoDuplicateInDatabase(records, response);
      if !ok {
        return outcome;
      }
      ghost var plan := StorePlan(records, ExistingFor(records[0], stored));
      var entities := ToEntities(records);
      assert plan == CreatePlan(Returned(ShapeCreated(entities)), entities);
      var created := provider.CreateMany(entities);
      if created == [] {
        return Returned(FailureResponse(SaveFailed, InternalServerError));
      }
      var result := ToDtos(created);
      r := Returned(ApiResponse(Created, Some(CreatedMessage(|result|)), Some(result)));
    }
  }
}
