/**
 * In-memory pagination (src/utils/pagination-utils.ts). Query numbers are
 * JavaScript numbers, so `NaN` and the infinities are part of the input domain.
 */
module PaginationUtils {
  import opened Wrappers
  import opened Constants
  import opened Errors

  /** A JavaScript number as `Number(text)` produces it. */
  datatype JsNumber = Finite(v: real) | NaN | PositiveInfinity | NegativeInfinity
  {
    /** `this > bound`; every comparison with NaN is false. */
    predicate GreaterThan(bound: real)
    {
      match this
      case Finite(v) => v > bound
      case NaN => false
      case PositiveInfinity => true
      case NegativeInfinity => false
    }

    /** `this - c` for a finite `c`: infinities and NaN absorb it. */
    function Minus(c: real): JsNumber
    {
      if Finite? then Finite(v - c) else this
    }

    /** The sign of a number that is neither NaN nor zero. */
    predicate Positive()
    {
      (Finite? && v > 0.0) || PositiveInfinity?
    }

    predicate IsZero()
    {
      Finite? && v == 0.0
    }
  }

  /** `a * b` in IEEE 754 terms, finite products taken exactly: NaN spreads, infinity times zero is NaN. */
  function Times(a: JsNumber, b: JsNumber): (r: JsNumber)
    ensures a.Finite? && b.Finite? ==> r == Finite(a.v * b.v)
    ensures a.NaN? || b.NaN? ==> r.NaN?
    ensures (a.IsZero() && !b.Finite?) || (!a.Finite? && b.IsZero()) ==> r.NaN?
  {
    if a.NaN? || b.NaN? then NaN
    else if a.Finite? && b.Finite? then Finite(a.v * b.v)
    else if a.IsZero() || b.IsZero() then NaN
    else if a.Positive() == b.Positive() then PositiveInfinity
    else NegativeInfinity
  }

  /** Truncation toward zero (`ToIntegerOrInfinity` on a finite number). */
  function Trunc(x: real): int
  {
    if x >= 0.0 then x.Floor else -((-x).Floor)
  }

  /** Resolves a relative `slice` index against a length: negative counts from the end, then clamps. */
  function ClampIndex(rel: int, len: nat): (k: nat)
    ensures k <= len
  {
    if rel < 0 then (if len + rel < 0 then 0 else len + rel) else if rel < len then rel else len
  }

  /**
   * A `slice` argument resolved against a length: NaN is 0, the infinities are
   * the two ends, and a finite value is truncated, counted from the end when
   * negative, and clamped.
   */
  function SliceIndex(x: JsNumber, len: nat): (k: nat)
    ensures k <= len
  {
    match x
    case Finite(v) => ClampIndex(Trunc(v), len)
    case NaN => 0
    case PositiveInfinity => len
    case NegativeInfinity => 0
  }

  /** `Array.prototype.slice(start, end)`. */
  function JsSlice<T>(s: seq<T>, start: JsNumber, end: JsNumber): (r: seq<T>)
    ensures |r| <= |s|
    ensures SliceIndex(start, |s|) < SliceIndex(end, |s|) ==> r == s[SliceIndex(start, |s|)..SliceIndex(end, |s|)]
    ensures SliceIndex(end, |s|) <= SliceIndex(start, |s|) ==> r == []
  {
    var from := SliceIndex(start, |s|);
    var to := SliceIndex(end, |s|);
    if from < to then s[from..to] else []
  }

  /** The page object returned to callers. */
  datatype Page<T> = Page(total: nat, page: JsNumber, perPage: JsNumber, records: seq<T>)

  /** `paginateSerialize`: packages a collection as a page without looking at it. */
  function PaginateSerialize<T>(collection: seq<T>, total: nat, page: JsNumber, perPage: JsNumber): (r: Page<T>)
    ensures r.records == collection && r.total == total && r.page == page && r.perPage == perPage
  {
    Page(total, page, perPage, collection)
  }

  /** `paginate`: the slice `[(page - 1) * perPage, page * perPage)` of the records. */
  function Paginate<T>(records: seq<T>, page: JsNumber, perPage: JsNumber): (r: Page<T>)
    ensures r.total == |records| && r.page == page && r.perPage == perPage
    ensures |r.records| <= |records|
  {
    PaginateSerialize(JsSlice(records, Times(page.Minus(1.0), perPage), Times(page, perPage)), |records|, page, perPage)
  }

  lemma WholeProduct(page: nat, perPage: nat) returns (from: nat)
    requires page >= 1
    ensures from == (page - 1) * perPage
    ensures (page as real - 1.0) * perPage as real == from as real
    ensures page as real * perPage as real == (from + perPage) as real
  {
    from := (page - 1) * perPage;
    assert page * perPage == from + perPage;
  }

  /** Slicing between two whole, non-negative bounds keeps the window, cut at the end. */
  lemma SliceWindow<T>(records: seq<T>, from: nat, count: nat)
    ensures var r := JsSlice(records, Finite(from as real), Finite((from + count) as real));
      && |r| <= count
      && (from >= |records| ==> r == [])
      && (from < |records| ==> r == records[from..if from + count < |records| then from + count else |records|])
  {
    assert Trunc(from as real) == from;
    assert Trunc((from + count) as real) == from + count;
  }

  /**
   * For a whole page number from 1 on and a whole page size, a page is the
   * contiguous window of at most `perPage` records starting at `(page - 1) * perPage`,
   * in input order, and it is empty once that start is past the end.
   */
  lemma PaginateWindow<T>(records: seq<T>, page: nat, perPage: nat)
    requires page >= 1
    ensures var r := Paginate(records, Finite(page as real), Finite(perPage as real)).records;
      var from := (page - 1) * perPage;
      && |r| <= perPage
      && (from >= |records| ==> r == [])
      && (from < |records| ==> r == records[from..if from + perPage < |records| then from + perPage else |records|])
  {
    var from := WholeProduct(page, perPage);
    var p := Finite(page as real);
    var pp := Finite(perPage as real);
    assert Times(p.Minus(1.0), pp) == Finite(from as real);
    assert Times(p, pp) == Finite((from + perPage) as real);
    SliceWindow(records, from, perPage);
  }

  /** Page zero, or a page size of zero, yields no records. */
  lemma PaginateEmptyPages<T>(records: seq<T>, page: nat, perPage: nat)
    requires page == 0 || perPage == 0
    ensures Paginate(records, Finite(page as real), Finite(perPage as real)).records == []
  {
    if page == 0 {
      assert Trunc(page as real * perPage as real) == 0;
    } else {
      assert (page as real - 1.0) * perPage as real == 0.0;
      assert page as real * perPage as real == 0.0;
    }
  }

  /**
   * A page number or page size that is not a number (as `Number("abc")` gives)
   * makes both slice bounds NaN, so the page is empty, and the NaN is echoed.
   */
  lemma PaginateNotANumber<T>(records: seq<T>, page: JsNumber, perPage: JsNumber)
    requires page.NaN? || perPage.NaN?
    ensures var r := Paginate(records, page, perPage);
      r.records == [] && r.page == page && r.perPage == perPage && r.total == |records|
  {
  }

  /**
   * An infinite page size: the first page starts at `0 * Infinity`, which is NaN
   * and so 0, and ends at Infinity, so it holds every record; every later page
   * starts at Infinity and is empty.
   */
  lemma PaginateInfinitePerPage<T>(records: seq<T>, page: nat)
    requires page >= 1
    ensures Paginate(records, Finite(1.0), PositiveInfinity).records == records
    ensures page >= 2 ==> Paginate(records, Finite(page as real), PositiveInfinity).records == []
  {
    assert Finite(1.0).Minus(1.0).IsZero();
    assert records[0..|records|] == records;
  }

  /** The parsed pagination options. */
  datatype PaginationConfig = PaginationConfig(page: JsNumber, perPage: JsNumber)

  /**
   * `parsePaginationConfig`: `page` and `perPage` are the query values after
   * `Number(...)`, or `None` when absent.
   */
  function ParsePaginationConfig(page: Option<JsNumber>, perPage: Option<JsNumber>): (r: Result<PaginationConfig, Error>)
    ensures r.Success? <==> !perPage.GetOr(Finite(DEFAULT_PER_PAGE as real)).GreaterThan(MAX_PER_PAGE as real)
    ensures r.Success? ==> r.value.page == page.GetOr(Finite(DEFAULT_PAGE as real))
    ensures r.Success? ==> r.value.perPage == perPage.GetOr(Finite(DEFAULT_PER_PAGE as real))
    ensures r.Failure? ==>
              && r.error.ValidationError? && |r.error.items| == 1
              && r.error.items[0].field == "perPage" && r.error.items[0].code == ValueOutOfRange
  {
    var p := if page.None? then Finite(DEFAULT_PAGE as real) else page.value;
    var pp := if perPage.None? then Finite(DEFAULT_PER_PAGE as real) else perPage.value;
    if pp.GreaterThan(MAX_PER_PAGE as real) then
      Failure(ValidationError([ValidationErrorItem("perPage", ValueOutOfRange, "perPage should be less or equal to 1000")]))
    else
      Success(PaginationConfig(p, pp))
  }

  /** Without a page size the request is always accepted, at 20 records a page, and an absent page is page 1. */
  lemma ParsePaginationDefaults(page: Option<JsNumber>)
    ensures ParsePaginationConfig(page, None) == Success(PaginationConfig(page.GetOr(Finite(1.0)), Finite(20.0)))
    ensures ParsePaginationConfig(None, None) == Success(PaginationConfig(Finite(1.0), Finite(20.0)))
  {
  }

  /** The limit is inclusive: 1000 passes, anything above is rejected, and NaN slips through. */
  lemma ParsePaginationLimit(page: Option<JsNumber>, perPage: real)
    ensures ParsePaginationConfig(page, Some(Finite(perPage))).Success? <==> perPage <= 1000.0
    ensures ParsePaginationConfig(page, Some(NaN)).Success?
  {
  }
}
