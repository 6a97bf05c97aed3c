/**
 `ParametricSearch`: the state behind a paged, sorted, filtered listing,
 decoded from the query parameters of a URL. A page size (`limit`) and an
 allow-list of sortable columns are fixed at construction; `SetParams`
 stores a parameter map and replaces its `filter` entry with the parsed
 filter; the accessors derive the page, the record offset, the sort column
 and filter values from the stored map, falling back to defaults instead
 of failing.

 The rules behind the accessors are stated first as functions of values;
 the class applies them to its fields.
 */
module Search {
  import opened Wrappers
  import opened JsStrings
  import opened JsValues
  import opened FilterLanguage

  /** `getParam(name, def)`: the stored value, or `def` when it is missing or falsy (`|| def`). */
  function Param(params: map<string, Value>, name: string, def: Value): (r: Value)
    ensures name !in params ==> r == def
    ensures name in params && Truthy(params[name]) ==> r == params[name]
    ensures r == def || (name in params && r == params[name] && Truthy(r))
  {
    var v := Lookup(params, name);
    if v.Undefined? then def
    else if Truthy(v) then v
    else def
  }

  /** `filter[name] || def` on the parsed filter: the field's value list, or `def`. */
  function FilterParam(filter: Filter, name: string, def: Value): (r: Value)
    ensures name in filter ==> r == List(filter[name])
    ensures name !in filter ==> r == def
  {
    var v := if name in filter then List(filter[name]) else Undefined;
    if Truthy(v) then v else def
  }

  /**
   `getPage()`: the 1-based page that `offset` starts. A missing offset, one
   that is not a number, a negative one and one that is not a multiple of
   `limit` all give page 1.
   */
  function Page(offset: Value, limit: int): (page: int)
    requires limit > 0
    ensures page >= 1
    ensures offset.Undefined? ==> page == 1
    ensures page != 1 ==> ToNumber(offset) == Some((page - 1) * limit)
  {
    if offset.Undefined? then 1
    else match ToNumber(offset)
      // NaN: `NaN < 1` is false and `NaN % limit !== 0` is true
      case None => 1
      // `n / limit + 1 < 1` exactly when n is negative
      case Some(n) =>
        if n < 0 then 1
        else if n % limit != 0 then 1
        else
          ExactQuotient(n, limit);
          n / limit + 1
  }

  /** Division of a multiple is exact. */
  lemma ExactQuotient(n: int, limit: int)
    requires limit > 0 && n % limit == 0
    ensures (n / limit) * limit == n
  {
    assert n == (n / limit) * limit + n % limit;
  }

  /**
   `getOffset()`: 0 on page 1, otherwise the stored offset unchanged; either
   way its numeric value is the first record of the page.
   */
  function Offset(offset: Value, limit: int): (r: Value)
    requires limit > 0
    ensures ToNumber(r) == Some((Page(offset, limit) - 1) * limit)
    ensures r == Num(0) || r == offset
  {
    if Page(offset, limit) == 1 then Num(0) else offset
  }

  /** `columns.indexOf(v)` with strict equality: a non-string is never found. */
  function IndexOf(columns: seq<string>, v: Value): (i: int)
    ensures -1 <= i < |columns|
    ensures i >= 0 ==> v == Str(columns[i]) && forall j :: 0 <= j < i ==> v != Str(columns[j])
    ensures i == -1 ==> forall j :: 0 <= j < |columns| ==> v != Str(columns[j])
  {
    if columns == [] then -1
    else if v == Str(columns[0]) then 0
    else
      var i := IndexOf(columns[1..], v);
      if i == -1 then -1 else i + 1
  }

  /** `getOrder()`: the requested column when it is allowed, otherwise the first allowed column. */
  function Order(order: Value, columns: seq<string>): (r: string)
    requires |columns| > 0
    ensures r in columns
    ensures order.Str? && order.s in columns ==> r == order.s
    ensures !(order.Str? && order.s in columns) ==> r == columns[0]
  {
    var key := IndexOf(columns, order);
    if key != -1 then columns[key] else columns[0]
  }

  /** What `_parseFilter` stores for the raw `filter` value: only a string is parsed. */
  function ParseFilterValue(filter: Value): (f: Filter)
    ensures WellFormed(f)
    ensures !filter.Str? ==> f == map[]
    ensures filter == Str("") ==> f == map[]
  {
    match filter
    case Str(s) => ParseFilter(s)
    case _ => map[]
  }

  /** A stored map in the shape `setParams` leaves it: `filter` holds a parsed filter. */
  predicate FilterParsed(params: map<string, Value>)
  {
    "filter" in params && params["filter"].Dict? && WellFormed(params["filter"].entries)
  }

  lemma PageOfMultiple(offset: Value, k: nat, limit: int)
    requires limit > 0
    requires ToNumber(offset) == Some(k * limit)
    ensures Page(offset, limit) == k + 1
    ensures Offset(offset, limit) == if k == 0 then Num(0) else offset
  {
    assert offset != Undefined;
    assert (k * limit) % limit == 0 && (k * limit) / limit == k by {
      MultipleDivides(k, limit);
    }
  }

  lemma ProductAtLeast(x: int, d: int)
    requires x >= 1 && d > 0
    ensures x * d >= d
  {
    assert x * d == (x - 1) * d + d;
  }

  /** `k * limit` is a multiple of `limit`, with quotient `k`. */
  lemma MultipleDivides(k: nat, limit: int)
    requires limit > 0
    ensures (k * limit) % limit == 0 && (k * limit) / limit == k
  {
    var q, r := (k * limit) / limit, (k * limit) % limit;
    assert q * limit + r == k * limit;
    assert (q - k) * limit == -r by {
      assert (q - k) * limit == q * limit - k * limit;
    }
    if q > k {
      ProductAtLeast(q - k, limit);
    } else if q < k {
      ProductAtLeast(k - q, limit);
    }
  }

  /** An offset that is not a multiple of the page size, or is negative, counts as page 1 and offset 0. */
  lemma MisalignedIsFirstPage(offset: Value, limit: int)
    requires limit > 0
    requires ToNumber(offset).Some?
    requires ToNumber(offset).value % limit != 0 || ToNumber(offset).value < 0
    ensures Page(offset, limit) == 1
    ensures Offset(offset, limit) == Num(0)
  {
    assert offset != Undefined;
  }

  /** URL parameters arrive as strings: the decimal text of `k * limit` opens page `k + 1`. */
  lemma PageOfDecimalText(k: nat, limit: int)
    requires limit > 0
    ensures Page(Str(IntToString(k * limit)), limit) == k + 1
  {
    NumberStringRoundTrip(k * limit);
    PageOfMultiple(Str(IntToString(k * limit)), k, limit);
  }

  class ParametricSearch {
    /** The number of records per page. */
    const limit: int
    /** The columns one may sort by; the first is the default. */
    const orderColumns: seq<string>
    /** The stored parameter map; None until the first `SetParams` (`this._params` is then undefined). */
    var params: Option<map<string, Value>>

    ghost predicate Valid()
      reads this
    {
      limit > 0 && |orderColumns| > 0 &&
      (params.Some? ==> FilterParsed(params.value))
    }

    constructor (limit: int, orderColumns: seq<string>)
      requires limit > 0
      requires |orderColumns| > 0
      ensures Valid()
      ensures this.limit == limit && this.orderColumns == orderColumns
      ensures params == None
    {
      this.limit := limit;
      this.orderColumns := orderColumns;
      params := None;
    }

    /** `getParams()`: the stored map, whose `filter` is never the raw string. */
    function GetParams(): (r: Option<map<string, Value>>)
      reads this
      requires Valid()
      ensures r.Some? ==> FilterParsed(r.value)
    {
      params
    }

    /** `getParam(name, def)` on the stored map. */
    function GetParam(name: string, def: Value): (r: Value)
      reads this
      requires Valid() && params.Some?
      ensures name !in params.value ==> r == def
      ensures name in params.value && Truthy(params.value[name]) ==> r == params.value[name]
      ensures r == def || (name in params.value && r == params.value[name] && Truthy(r))
    {
      Param(params.value, name, def)
    }

    /** `getFilterParam(name, def)`: the field's values from the parsed filter, or `def`. */
    function GetFilterParam(name: string, def: Value): (r: Value)
      reads this
      requires Valid() && params.Some?
      ensures name in params.value["filter"].entries ==> r == List(params.value["filter"].entries[name])
      ensures name !in params.value["filter"].entries ==> r == def
    {
      // getParam('filter') is the parsed filter, never undefined: a Dict is truthy,
      // so the source's `def` for an undefined filter is never reached
      FilterParam(Param(params.value, "filter", Undefined).entries, name, def)
    }

    /**
     `getFilterParamAsString(name, def)`: the field's values joined by
     commas, which split back into the values; otherwise `def.toString()`,
     None where that throws.
     */
    function GetFilterParamAsString(name: string, def: Value): (r: Option<string>)
      reads this
      requires Valid() && params.Some?
      ensures name in params.value["filter"].entries ==>
                r.Some? && Split(r.value, ',') == params.value["filter"].entries[name]
      ensures name !in params.value["filter"].entries ==> r == ToJsString(def)
    {
      var filter := params.value["filter"].entries;
      assert name in filter ==> CleanEntry(Entry(name, filter[name]));
      ToJsString(GetFilterParam(name, def))
    }

    /** `getLimit()`. */
    function GetLimit(): (r: int)
      reads this
      requires Valid()
      ensures r > 0
    {
      limit
    }

    /** `getPage()` on the stored `offset`. */
    function GetPage(): (r: int)
      reads this
      requires Valid() && params.Some?
      ensures r >= 1
      ensures "offset" !in params.value ==> r == 1
      ensures r != 1 ==> "offset" in params.value && ToNumber(params.value["offset"]) == Some((r - 1) * limit)
    {
      Page(Lookup(params.value, "offset"), GetLimit())
    }

    /** `getOffset()` on the stored `offset`: numerically `(GetPage() - 1) * limit`. */
    function GetOffset(): (r: Value)
      reads this
      requires Valid() && params.Some?
      ensures ToNumber(r) == Some((GetPage() - 1) * limit)
      ensures GetPage() == 1 ==> r == Num(0)
      ensures GetPage() != 1 ==> "offset" in params.value && r == params.value["offset"]
    {
      Offset(Lookup(params.value, "offset"), GetLimit())
    }

    /** `getOrder()` on the stored `order`: always an allowed column. */
    function GetOrder(): (r: string)
      reads this
      requires Valid() && params.Some?
      ensures r in orderColumns
      ensures "order" in params.value && params.value["order"].Str? && params.value["order"].s in orderColumns ==>
                r == params.value["order"].s
      ensures !("order" in params.value && params.value["order"].Str? && params.value["order"].s in orderColumns) ==>
                r == orderColumns[0]
    {
      Order(Lookup(params.value, "order"), orderColumns)
    }

    /**
     `setParams(params)`: stores the map, replacing everything stored before,
     and parses its `filter` entry in place.
     */
    method SetParams(p: map<string, Value>)
      requires Valid()
      modifies this
      ensures Valid()
      ensures params == Some(p["filter" := Dict(ParseFilterValue(Lookup(p, "filter")))])
    {
      params := Some(p);
      ParseFilterField();
    }

    /**
     `_parseFilter()`: runs the rules of the `filter` string one by one
     (`RunRules`), each well-formed rule overwriting its field, and stores
     the result as `filter`; a missing or non-string filter becomes the
     empty map.
     */
    method ParseFilterField()
      requires params.Some? && limit > 0 && |orderColumns| > 0
      modifies this
      ensures Valid()
      ensures params == Some(old(params).value["filter" := Dict(ParseFilterValue(Lookup(old(params).value, "filter")))])
    {
      var stored := params.value;
      var parsed: Filter := map[];
      var filter := Lookup(stored, "filter");
      if filter.Str? {
        parsed := RunRules(Split(filter.s, '@'));
      }
      params := Some(stored["filter" := Dict(parsed)]);
    }
  }
}
