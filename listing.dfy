/**
 * The five list extractors of functions.py (linksets, datasets, locations,
 * locations a target is within, locations a target contains): each sends one
 * query and lists one variable's value per row, with a `meta` record.
 */
module Listing {
  import opened Wrappers
  import opened Sparql
  import Template
  import Queries

  /** `{count, offset}`. */
  datatype Meta = Meta(count: int, offset: int)

  /**
   * An extractor's return value: the bare (always empty) list when the
   * response has no `results`, otherwise the pair `(meta, list)`.
   */
  datatype Listing = Bare(items: seq<string>) | Paged(meta: Meta, items: seq<string>)

  /** Every row binds `column`. */
  predicate AllBind(rows: seq<Binding>, column: string)
  {
    forall i | 0 <= i < |rows| :: column in rows[i]
  }

  /** The value of `column` in each row, in row order. */
  function Values(rows: seq<Binding>, column: string): (vs: seq<string>)
    requires AllBind(rows, column)
    ensures |vs| == |rows|
    ensures forall i | 0 <= i < |rows| :: vs[i] == rows[i][column].value
  {
    seq(|rows|, i requires 0 <= i < |rows| => rows[i][column].value)
  }

  /** What an extractor returns for a response, as the functions below promise it. */
  function Extracted(resp: Response, column: string, offset: int): Result<Listing, Error>
  {
    match resp
    case None => Ok(Bare([]))
    case Some(rows) =>
      if AllBind(rows, column)
      then Ok(Paged(Meta(|rows|, offset), Values(rows, column)))
      else Err(Unbound(column))
  }

  /**
   * The loop shared by the extractors: one value per row, appended in row
   * order, then counted.
   */
  method ExtractColumn(resp: Response, column: string, offset: int) returns (r: Result<Listing, Error>)
    ensures resp.None? ==> r == Ok(Bare([]))
    ensures resp.Some? ==> (r.Ok? <==> AllBind(resp.value, column))
    ensures resp.Some? && r.Err? ==> r.error == Unbound(column)
    ensures resp.Some? && r.Ok? ==>
      && r.value.Paged?
      && r.value.meta == Meta(|r.value.items|, offset)
      && |r.value.items| == |resp.value|
      && forall i | 0 <= i < |resp.value| :: r.value.items[i] == resp.value[i][column].value
    ensures r == Extracted(resp, column, offset)
  {
    var items: seq<string> := [];
    if resp.None? {
      return Ok(Bare(items));
    }
    var bindings: seq<Binding> := resp.value;
    var i := 0;
    while i < |bindings|
      invariant 0 <= i <= |bindings|
      invariant forall j | 0 <= j < i :: column in bindings[j]
      invariant |items| == i
      invariant forall j | 0 <= j < i :: items[j] == bindings[j][column].value
    {
      if column !in bindings[i] {
        return Err(Unbound(column));
      }
      items := items + [bindings[i][column].value];
      i := i + 1;
    }
    assert items == Values(bindings, column);
    var meta := Meta(|items|, offset);
    return Ok(Paged(meta, items));
  }

  function LinksetsRequest(count: int, offset: int): Query { Request(Queries.LinksetsQuery(), count, offset) }
  function DatasetsRequest(count: int, offset: int): Query { Request(Queries.DatasetsQuery(), count, offset) }
  function LocationsRequest(count: int, offset: int): Query { Request(Queries.LocationsQuery(), count, offset) }

  function WithinRequest(targetUri: string, count: int, offset: int): Query
  {
    Request(Template.Substitute(Queries.WithinTemplate(), targetUri), count, offset)
  }

  function ContainsRequest(targetUri: string, count: int, offset: int): Query
  {
    Request(Template.Substitute(Queries.ContainsTemplate(), targetUri), count, offset)
  }

  /** All linksets, the `l` of each row; the page size is sent to the store as the limit. */
  method GetLinksets(store: Store, count: int, offset: int) returns (r: Result<Listing, Error>)
    ensures r == Extracted(store(LinksetsRequest(count, offset)), "l", offset)
  {
    r := ExtractColumn(store(LinksetsRequest(count, offset)), "l", offset);
  }

  /** All datasets, the `d` of each row. */
  method GetDatasets(store: Store, count: int, offset: int) returns (r: Result<Listing, Error>)
    ensures r == Extracted(store(DatasetsRequest(count, offset)), "d", offset)
  {
    r := ExtractColumn(store(DatasetsRequest(count, offset)), "d", offset);
  }

  /** All locations, the `l` of each row. */
  method GetLocations(store: Store, count: int, offset: int) returns (r: Result<Listing, Error>)
    ensures r == Extracted(store(LocationsRequest(count, offset)), "l", offset)
  {
    r := ExtractColumn(store(LocationsRequest(count, offset)), "l", offset);
  }

  /** The locations `targetUri` is within, from the query with the target substituted. */
  method GetLocationIsWithin(store: Store, targetUri: string, count: int, offset: int) returns (r: Result<Listing, Error>)
    ensures r == Extracted(store(WithinRequest(targetUri, count, offset)), "l", offset)
  {
    r := ExtractColumn(store(WithinRequest(targetUri, count, offset)), "l", offset);
  }

  /** The locations `targetUri` contains. */
  method GetLocationContains(store: Store, targetUri: string, count: int, offset: int) returns (r: Result<Listing, Error>)
    ensures r == Extracted(store(ContainsRequest(targetUri, count, offset)), "l", offset)
  {
    r := ExtractColumn(store(ContainsRequest(targetUri, count, offset)), "l", offset);
  }

  /** Python's `ValueError: not enough values to unpack`. */
  datatype UnpackError = NotAPair(length: nat)

  /**
   * The handlers' `meta, items = await get_...(...)`: a pair unpacks; the bare
   * list, which is always empty, does not.
   */
  function Unpack(l: Listing): Result<(Meta, seq<string>), UnpackError>
  {
    match l
    case Paged(meta, items) => Ok((meta, items))
    case Bare(items) => Err(NotAPair(|items|))
  }

  /** As written: a store answer without `results` makes every list handler fail. */
  lemma MissingResultsBreaksHandler(column: string, offset: int)
    ensures Extracted(None, column, offset) == Ok(Bare([]))
    ensures Unpack(Extracted(None, column, offset).value) == Err(NotAPair(0))
  {
  }

  /** As intended: a missing `results` is an empty page, `({count: 0, offset}, [])`. */
  function ExtractedCorrected(resp: Response, column: string, offset: int): Result<Listing, Error>
  {
    match resp
    case None => Ok(Paged(Meta(0, offset), []))
    case Some(_) => Extracted(resp, column, offset)
  }

  /**
   * The corrected extractor always yields a pair that unpacks, whose count is
   * the number of items and whose offset echoes the request; it agrees with the
   * code whenever `results` is present.
   */
  lemma CorrectedAlwaysUnpacks(resp: Response, column: string, offset: int)
    requires ExtractedCorrected(resp, column, offset).Ok?
    ensures var l := ExtractedCorrected(resp, column, offset).value;
      && Unpack(l).Ok?
      && l.meta.count == |l.items| && l.meta.offset == offset
    ensures resp.Some? ==> ExtractedCorrected(resp, column, offset) == Extracted(resp, column, offset)
    ensures resp.None? ==> ExtractedCorrected(resp, column, offset).value.items == []
  {
  }
}
