/**
 * The territory store the service depends on: a table of rows that can be read by
 * region, appended to, updated by code and deleted from by code. Each write runs as
 * one transaction; in this model a transaction is one method call that either
 * commits all its changes or leaves `rows` as it found them.
 */
module TerritoryData {
  import opened Wrappers
  import opened Collections
  import opened Domain

  /** The rows of `rows` whose region code is `regionCode` (`WHERE RegionCode=@RegionCode`). */
  function RowsInRegion(rows: seq<Territory>, regionCode: string): (r: seq<Territory>)
    ensures forall t :: t in r <==> t in rows && t.regionCode == regionCode
    ensures forall t :: multiset(r)[t] == if t.regionCode == regionCode then multiset(rows)[t] else 0
  {
    Filter(rows, (t: Territory) => t.regionCode == regionCode)
  }

  /** A row appended outside the region does not change the region's rows; one inside it comes last. */
  lemma RowsInRegionSnoc(rows: seq<Territory>, regionCode: string, t: Territory)
    ensures RowsInRegion(rows + [t], regionCode)
            == RowsInRegion(rows, regionCode) + (if t.regionCode == regionCode then [t] else [])
  {
    FilterSnoc(rows, t, (t: Territory) => t.regionCode == regionCode);
  }

  /** The rows of `rows` whose code is not among `codes` (what `DELETE ... WHERE Code IN @Codes` keeps). */
  function RowsOutside(rows: seq<Territory>, codes: seq<string>): (r: seq<Territory>)
    ensures forall t :: t in r <==> t in rows && t.code !in codes
    ensures forall t :: multiset(r)[t] == if t.code in codes then 0 else multiset(rows)[t]
  {
    Filter(rows, (t: Territory) => t.code !in codes)
  }

  lemma RowsOutsideSnoc(rows: seq<Territory>, codes: seq<string>, t: Territory)
    ensures RowsOutside(rows + [t], codes) == RowsOutside(rows, codes) + (if t.code in codes then [] else [t])
  {
    FilterSnoc(rows, t, (t: Territory) => t.code !in codes);
  }

  /** The rows of `rows` whose code is among `codes` (what the delete statement removes). */
  function RowsInside(rows: seq<Territory>, codes: seq<string>): (r: seq<Territory>)
    ensures forall t :: t in r <==> t in rows && t.code in codes
  {
    Filter(rows, (t: Territory) => t.code in codes)
  }

  lemma RowsInsideSnoc(rows: seq<Territory>, codes: seq<string>, t: Territory)
    ensures RowsInside(rows + [t], codes) == RowsInside(rows, codes) + (if t.code in codes then [t] else [])
  {
    FilterSnoc(rows, t, (t: Territory) => t.code in codes);
  }

  /**
   * The number of rows a delete removes is the number of rows whose code is among
   * `codes`.
   */
  lemma {:induction false} DeletedCountIsMatchingRows(rows: seq<Territory>, codes: seq<string>)
    ensures |rows| - |RowsOutside(rows, codes)| == |RowsInside(rows, codes)|
    decreases |rows|
  {
    if rows != [] {
      var init, last := rows[..|rows| - 1], rows[|rows| - 1];
      assert rows == init + [last];
      DeletedCountIsMatchingRows(init, codes);
      RowsOutsideSnoc(init, codes, last);
      RowsInsideSnoc(init, codes, last);
    }
  }

  /** A delete removes nothing exactly when no stored code is among `codes`. */
  lemma DeletesNothingIffNoMatch(rows: seq<Territory>, codes: seq<string>)
    ensures |rows| - |RowsOutside(rows, codes)| == 0 <==> forall i :: 0 <= i < |rows| ==> rows[i].code !in codes
  {
    DeletedCountIsMatchingRows(rows, codes);
    if forall i :: 0 <= i < |rows| ==> rows[i].code !in codes {
      assert RowsInside(rows, codes) == [];
    } else {
      var i :| 0 <= i < |rows| && rows[i].code in codes;
      assert rows[i] in RowsInside(rows, codes);
    }
  }

  /** How many rows `WHERE Code = @Code` selects. */
  function CountCode(rows: seq<Territory>, code: string): (n: nat)
    ensures n <= |rows|
    ensures n == 0 <==> forall i :: 0 <= i < |rows| ==> rows[i].code != code
    decreases |rows|
  {
    if rows == [] then 0
    else
      var init := rows[..|rows| - 1];
      assert forall i :: 0 <= i < |init| ==> init[i] == rows[i];
      CountCode(init, code) + (if rows[|rows| - 1].code == code then 1 else 0)
  }

  /** `CountCode` is the number of rows a `Where` on the code keeps. */
  lemma {:induction false} CountCodeIsMatchingRows(rows: seq<Territory>, code: string)
    ensures CountCode(rows, code) == |Filter(rows, (t: Territory) => t.code == code)|
    decreases |rows|
  {
    if rows != [] {
      var init, last := rows[..|rows| - 1], rows[|rows| - 1];
      assert rows == init + [last];
      CountCodeIsMatchingRows(init, code);
      FilterSnoc(init, last, (t: Territory) => t.code == code);
    }
  }

  /** A code selects more than one row exactly when two different rows carry it. */
  lemma {:induction false} CountCodeAboveOneIff(rows: seq<Territory>, code: string)
    ensures CountCode(rows, code) > 1 <==>
              exists i, j :: 0 <= i < j < |rows| && rows[i].code == code && rows[j].code == code
    decreases |rows|
  {
    if rows != [] {
      var init, last := rows[..|rows| - 1], rows[|rows| - 1];
      CountCodeAboveOneIff(init, code);
      assert forall i :: 0 <= i < |init| ==> init[i] == rows[i];
      if last.code == code && CountCode(init, code) > 0 {
        var i :| 0 <= i < |init| && init[i].code == code;
        assert rows[i].code == code && rows[|init|].code == code;
      }
      if exists i, j :: 0 <= i < j < |rows| && rows[i].code == code && rows[j].code == code {
        var i, j :| 0 <= i < j < |rows| && rows[i].code == code && rows[j].code == code;
        if j < |init| {
          assert init[i].code == code && init[j].code == code;
        } else {
          assert init[i].code == code;
        }
      }
    }
  }

  /** `rows` after one `UPDATE ... SET Code, Name, RegionCode ... WHERE Code = @Code` with the values of `t`. */
  function Overwrite(rows: seq<Territory>, t: Territory): (r: seq<Territory>)
    ensures |r| == |rows|
    ensures forall i :: 0 <= i < |rows| ==> r[i].code == rows[i].code
  {
    seq(|rows|, i requires 0 <= i < |rows| => if rows[i].code == t.code then t else rows[i])
  }

  /** `rows` after the update statements for `batch`, run one after another. */
  function ApplyUpdates(rows: seq<Territory>, batch: seq<Territory>): (r: seq<Territory>)
    ensures |r| == |rows|
    ensures forall i :: 0 <= i < |rows| ==> r[i].code == rows[i].code
    decreases |batch|
  {
    if batch == [] then rows
    else Overwrite(ApplyUpdates(rows, batch[..|batch| - 1]), batch[|batch| - 1])
  }

  /** The last element of `batch` whose code is `code`, if there is one. */
  function LastWithCode(batch: seq<Territory>, code: string): (r: Option<Territory>)
    ensures r.Some? <==> exists j :: 0 <= j < |batch| && batch[j].code == code
    ensures r.Some? ==> r.value in batch && r.value.code == code
    ensures r.Some? ==> exists j :: 0 <= j < |batch| && batch[j] == r.value
                                    && forall k :: j < k < |batch| ==> batch[k].code != code
    decreases |batch|
  {
    if batch == [] then None
    else if batch[|batch| - 1].code == code then Some(batch[|batch| - 1])
    else
      var init := batch[..|batch| - 1];
      var r := LastWithCode(init, code);
      assert forall j :: 0 <= j < |init| ==> init[j] == batch[j];
      r
  }

  /**
   * After a batch of updates, each row holds the values of the last input with its
   * code, and a row whose code no input names is unchanged.
   */
  lemma {:induction false} UpdatedRowValue(rows: seq<Territory>, batch: seq<Territory>, i: nat)
    requires i < |rows|
    ensures ApplyUpdates(rows, batch)[i] == LastWithCode(batch, rows[i].code).GetOr(rows[i])
    decreases |batch|
  {
    if batch != [] {
      UpdatedRowValue(rows, batch[..|batch| - 1], i);
    }
  }

  /** Whether the code of `t` selects at most one row of `rows`. */
  predicate SelectsAtMostOne(rows: seq<Territory>, t: Territory) {
    CountCode(rows, t.code) <= 1
  }

  /** Whether some input's code selects more than one stored row, checked input by input. */
  predicate HasAmbiguousCode(rows: seq<Territory>, batch: seq<Territory>): (a: bool)
    ensures a ==> batch != [] && |rows| >= 2
    decreases |batch|
  {
    batch != [] && (HasAmbiguousCode(rows, batch[..|batch| - 1]) || !SelectsAtMostOne(rows, batch[|batch| - 1]))
  }

  /** A batch is ambiguous exactly when the code of one of its inputs selects more than one stored row. */
  lemma {:induction false} HasAmbiguousCodeIff(rows: seq<Territory>, batch: seq<Territory>)
    ensures HasAmbiguousCode(rows, batch) <==> exists j :: 0 <= j < |batch| && CountCode(rows, batch[j].code) > 1
    decreases |batch|
  {
    if batch != [] {
      var init := batch[..|batch| - 1];
      HasAmbiguousCodeIff(rows, init);
      assert forall j :: 0 <= j < |init| ==> init[j] == batch[j];
      if CountCode(rows, batch[|batch| - 1].code) <= 1 && exists j :: 0 <= j < |batch| && CountCode(rows, batch[j].code) > 1 {
        var j :| 0 <= j < |batch| && CountCode(rows, batch[j].code) > 1;
        assert j < |init| && init[j] == batch[j];
      }
    }
  }

  /** The inputs whose update statement matched a stored row, in input order. */
  function MatchedInputs(rows: seq<Territory>, batch: seq<Territory>): (r: seq<Territory>)
    ensures |r| <= |batch|
    ensures forall t :: t in r <==> t in batch && CountCode(rows, t.code) > 0
  {
    Filter(batch, (t: Territory) => CountCode(rows, t.code) > 0)
  }

  lemma ApplyUpdatesStep(rows: seq<Territory>, batch: seq<Territory>, i: nat)
    requires i < |batch|
    ensures ApplyUpdates(rows, batch[..i + 1]) == Overwrite(ApplyUpdates(rows, batch[..i]), batch[i])
  {
    assert batch[..i + 1][..i] == batch[..i];
  }

  lemma HasAmbiguousCodeStep(rows: seq<Territory>, batch: seq<Territory>, i: nat)
    requires i < |batch|
    ensures HasAmbiguousCode(rows, batch[..i + 1]) <==> HasAmbiguousCode(rows, batch[..i]) || !SelectsAtMostOne(rows, batch[i])
  {
    assert batch[..i + 1][..i] == batch[..i];
  }

  lemma MatchedInputsStep(rows: seq<Territory>, batch: seq<Territory>, i: nat)
    requires i < |batch|
    ensures MatchedInputs(rows, batch[..i + 1])
            == MatchedInputs(rows, batch[..i]) + (if CountCode(rows, batch[i].code) > 0 then [batch[i]] else [])
  {
    assert batch[..i + 1] == batch[..i] + [batch[i]];
    FilterSnoc(batch[..i], batch[i], (t: Territory) => CountCode(rows, t.code) > 0);
  }

  /**
   * One update statement of a batch: it selects as many rows, in the rows the
   * earlier statements produced, as in the original rows, and extends the result,
   * the matched inputs and the ambiguity check by one input.
   */
  lemma UpdateStep(rows: seq<Territory>, batch: seq<Territory>, i: nat)
    requires i < |batch|
    ensures CountCode(ApplyUpdates(rows, batch[..i]), batch[i].code) == CountCode(rows, batch[i].code)
    ensures ApplyUpdates(rows, batch[..i + 1]) == Overwrite(ApplyUpdates(rows, batch[..i]), batch[i])
    ensures MatchedInputs(rows, batch[..i + 1])
            == MatchedInputs(rows, batch[..i]) + (if CountCode(rows, batch[i].code) > 0 then [batch[i]] else [])
    ensures HasAmbiguousCode(rows, batch[..i + 1]) <==> HasAmbiguousCode(rows, batch[..i]) || !SelectsAtMostOne(rows, batch[i])
  {
    ApplyUpdatesStep(rows, batch, i);
    MatchedInputsStep(rows, batch, i);
    HasAmbiguousCodeStep(rows, batch, i);
    CountCodeOfSameCodes(ApplyUpdates(rows, batch[..i]), rows, batch[i].code);
  }

  /** An update statement changes no code, so every later statement selects as many rows as before it. */
  lemma OverwriteSelectsSameRows(rows: seq<Territory>, t: Territory, code: string)
    ensures CountCode(Overwrite(rows, t), code) == CountCode(rows, code)
  {
    CountCodeOfSameCodes(Overwrite(rows, t), rows, code);
  }

  /** Rows with the same codes, position by position, select the same number of rows for every code. */
  lemma {:induction false} CountCodeOfSameCodes(a: seq<Territory>, b: seq<Territory>, code: string)
    requires |a| == |b|
    requires forall i :: 0 <= i < |a| ==> a[i].code == b[i].code
    ensures CountCode(a, code) == CountCode(b, code)
    decreases |a|
  {
    if a != [] {
      CountCodeOfSameCodes(a[..|a| - 1], b[..|b| - 1], code);
    }
  }

  /** An in-memory store holding the `Territories` table. */
  class TerritoryStore {
    var rows: seq<Territory>

    constructor (initial: seq<Territory>)
      ensures rows == initial
    {
      rows := initial;
    }

    /** `GetByRegionAsync`: the stored territories of one region; reading changes nothing. */
    function GetByRegion(regionCode: string): (r: seq<Territory>)
      reads this
      ensures forall t :: t in r <==> t in rows && t.regionCode == regionCode
      ensures forall t :: multiset(r)[t] == if t.regionCode == regionCode then multiset(rows)[t] else 0
    {
      RowsInRegion(rows, regionCode)
    }

    /**
     * `CreateManyAsync`: inserts every territory, in order, inside one transaction and
     * returns the inserted row for each.
     */
    method CreateMany(territories: seq<Territory>) returns (created: seq<Territory>)
      modifies this
      ensures created == territories
      ensures rows == old(rows) + territories
    {
      created := [];
      var i := 0;
      while i < |territories|
        invariant 0 <= i <= |territories|
        invariant created == territories[..i]
        invariant rows == old(rows) + territories[..i]
      {
        var inserted := territories[i];
        rows := rows + [inserted];
        created := created + [inserted];
        i := i + 1;
      }
      assert territories[..i] == territories;
    }

    /**
     * `DeleteManyByCodesAsync`: removes every row whose code is among `codes`, in any
     * region, and returns how many rows it removed.
     */
    method DeleteManyByCodes(codes: seq<string>) returns (affected: nat)
      modifies this
      ensures rows == RowsOutside(old(rows), codes)
      ensures affected == |old(rows)| - |rows|
    {
      var all := rows;
      rows := RowsOutside(all, codes);
      affected := |all| - |rows|;
    }

    /**
     * `UpdateManyInternalAsync`: runs one update statement per input, identified by
     * code, inside one transaction, and returns the row each statement produced;
     * inputs that matched no row are left out. A statement that selects more than
     * one row makes the single-row read throw, and the transaction is rolled back.
     */
    method UpdateMany(territories: seq<Territory>) returns (r: UpdateResult)
      modifies this
      ensures HasAmbiguousCode(old(rows), territories) ==> r == UpdateFailed(MoreThanOneElement) && rows == old(rows)
      ensures !HasAmbiguousCode(old(rows), territories) ==>
                r == Updated(MatchedInputs(old(rows), territories)) && rows == ApplyUpdates(old(rows), territories)
    {
      var snapshot := rows;
      var current := rows;
      var updated: seq<Territory> := [];
      var i := 0;
      while i < |territories|
        invariant 0 <= i <= |territories|
        invariant current == ApplyUpdates(snapshot, territories[..i])
        invariant updated == MatchedInputs(snapshot, territories[..i])
        invariant !HasAmbiguousCode(snapshot, territories[..i])
        invariant rows == snapshot
      {
        var t := territories[i];
        UpdateStep(snapshot, territories, i);
        var matched := CountCode(current, t.code);
        if matched > 1 {
          HasAmbiguousCodeIff(snapshot, territories);
          r := UpdateFailed(MoreThanOneElement);
          return;
        }
        current := Overwrite(current, t);
        if matched == 1 {
          updated := updated + [t];
        }
        i := i + 1;
      }
      assert territories[..i] == territories;
      rows := current;
      r := Updated(updated);
    }
  }

  /** The outcome of a batch update: the rows it produced, or the exception that rolled it back. */
  datatype UpdateResult = Updated(updated: seq<Territory>) | UpdateFailed(exception: Exception)
}
