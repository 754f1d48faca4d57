/**
 * The values the territory core passes around: the stored `Territory` row, the
 * `TerritoryDto` a caller submits, the field-length constants, the response
 * envelope with its HTTP status and the exceptions the core can raise.
 */
module Domain {
  import opened Wrappers

  /** `DatabaseConstraints.DbDConstraint2Char`. */
  const Constraint2Char: nat := 2
  /** `DatabaseConstraints.DbDConstraint10Char`. */
  const Constraint10Char: nat := 10

  /** A stored territory row: its code, display name and owning region's code. */
  datatype Territory = Territory(code: string, name: string, regionCode: string)

  /**
   * A territory as a caller submits or receives it. Each property is a C# string
   * and may be null (`None`).
   */
  datatype TerritoryDto = TerritoryDto(code: Option<string>, name: Option<string>, regionCode: Option<string>)

  /** Whether every property of `d` is non-null. */
  predicate HasAllFields(d: TerritoryDto) {
    d.code.Some? && d.name.Some? && d.regionCode.Some?
  }

  /** The object initialiser `new TerritoryDto { Code = t.Code, Name = t.Name, RegionCode = t.RegionCode }`. */
  function ToDto(t: Territory): (d: TerritoryDto)
    ensures HasAllFields(d)
    ensures ToEntity(d) == t
  {
    TerritoryDto(Some(t.code), Some(t.name), Some(t.regionCode))
  }

  /** The object initialiser `new Territory { Code = dto.Code, Name = dto.Name, RegionCode = dto.RegionCode }`. */
  function ToEntity(d: TerritoryDto): (t: Territory)
    requires HasAllFields(d)
    ensures d.code == Some(t.code) && d.name == Some(t.name) && d.regionCode == Some(t.regionCode)
  {
    Territory(d.code.value, d.name.value, d.regionCode.value)
  }

  /** Mapping a record with every field present to a row and back gives the record. */
  lemma ToDtoOfToEntity(d: TerritoryDto)
    requires HasAllFields(d)
    ensures ToDto(ToEntity(d)) == d
  {
  }

  /** The rows of `rows` as DTOs, in order (`rows.Select(t => new TerritoryDto { ... })`). */
  function ToDtos(rows: seq<Territory>): (ds: seq<TerritoryDto>)
    ensures |ds| == |rows|
    ensures forall i :: 0 <= i < |rows| ==> HasAllFields(ds[i]) && ToEntity(ds[i]) == rows[i]
  {
    seq(|rows|, i requires 0 <= i < |rows| => ToDto(rows[i]))
  }

  /** The HTTP status codes the core produces. */
  datatype Status = OK | Created | BadRequest | Conflict | InternalServerError

  /**
   * The response envelope (`ApiResponse<IEnumerable<TerritoryDto>>`): a status, a
   * message and a payload. A `None` message stands for the envelope's own default
   * success text, which belongs to the external wrapper package; a failure carries
   * no payload.
   */
  datatype ApiResponse = ApiResponse(status: Status, message: Option<string>, data: Option<seq<TerritoryDto>>)

  /** `ApiResponse.CreateFailureResponse(message, status)`. */
  function FailureResponse(message: string, status: Status): (r: ApiResponse)
    ensures r.status == status && r.message == Some(message) && r.data.None?
  {
    ApiResponse(status, Some(message), None)
  }

  /** An exception raised inside the core, with .NET's message for it. */
  datatype Exception = InvalidOperation(message: string)

  /** `Enumerable.First` on an empty sequence. */
  const NoElements := InvalidOperation("Sequence contains no elements")
  /** `QuerySingleOrDefault` when the statement yields more than one row. */
  const MoreThanOneElement := InvalidOperation("Sequence contains more than one element")

  /** How a call ends: with a response, or by throwing. */
  datatype CallResult = Returned(response: ApiResponse) | Threw(exception: Exception)
}
