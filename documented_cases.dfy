/**
 The examples written in the comments of ParametricSearch.js, proved from
 the general lemmas rather than by evaluation. The filter text is a
 parameter pinned by `requires` rather than a literal in the statement, so
 that the verifier does not unfold the parser on the literal.
 */
module DocumentedCases {
  import opened Wrappers
  import opened JsStrings
  import opened JsValues
  import opened FilterLanguage
  import opened Search

  /** `filter=aaa:2@bbb:7,3` parses to `{aaa: ['2'], bbb: ['7', '3']}`. */
  lemma ParsesDocumentedFilter(text: string)
    requires text == "aaa:2@bbb:7,3"
    ensures ParseFilter(text) == map["aaa" := ["2"], "bbb" := ["7", "3"]]
  {
    var entries := [Entry("aaa", ["2"]), Entry("bbb", ["7", "3"])];
    assert RuleText(entries[0]) == "aaa:2";
    assert Join(["7", "3"], ',') == "7,3";
    assert RuleText(entries[1]) == "bbb:7,3";
    var rules := seq(|entries|, i requires 0 <= i < |entries| => RuleText(entries[i]));
    assert rules == ["aaa:2", "bbb:7,3"];
    assert Join(rules, '@') == "aaa:2@bbb:7,3";
    SerializeRoundTrip(entries);
  }

  /**
   On that filter, `getFilterParam('bbb')` is `['7', '3']` and
   `getFilterParam('ccc', 42)` is `42` itself; only the string accessor
   turns it into `'42'`.
   */
  lemma DocumentedLookups(text: string)
    requires text == "aaa:2@bbb:7,3"
    ensures FilterParam(ParseFilter(text), "aaa", Undefined) == List(["2"])
    ensures FilterParam(ParseFilter(text), "bbb", Undefined) == List(["7", "3"])
    ensures FilterParam(ParseFilter(text), "ccc", Num(42)) == Num(42)
    ensures ToJsString(FilterParam(ParseFilter(text), "ccc", Num(42))) == Some("42")
    ensures ToJsString(FilterParam(ParseFilter(text), "aaa", Undefined)) == Some("2")
  {
    assert IntToString(42) == "42";
    ParsesDocumentedFilter(text);
  }

  /**
   `/abc?order=price&filter=aaa:2@bbb:7,3`: after `setParams`, `getParams()`
   is `{order: 'price', filter: {aaa: ['2'], bbb: ['7', '3']}}`.
   */
  method DocumentedUsage(text: string) returns (ps: ParametricSearch)
    requires text == "aaa:2@bbb:7,3"
    ensures ps.Valid()
    ensures ps.GetParams() == Some(map["order" := Str("price"),
                                       "filter" := Dict(map["aaa" := ["2"], "bbb" := ["7", "3"]])])
    ensures ps.GetOrder() == "price"
  {
    ps := new ParametricSearch(10, ["price", "name"]);
    ps.SetParams(map["order" := Str("price"), "filter" := Str(text)]);
    ParsesDocumentedFilter(text);
    assert ps.params.value == map["order" := Str("price"),
                                  "filter" := Dict(map["aaa" := ["2"], "bbb" := ["7", "3"]])];
  }
}
