# ParametricSearch, modelled in Dafny

`ParametricSearch` (public/js/ParametricSearch.js) holds the state of a
paged, sorted and filtered product listing. That state is decoded from the
query parameters of a URL.

- **Construction** fixes the page size (`limit`) and the allow-list of
  sortable columns (`orderColumns`).
- **`setParams`** stores the parameter map it is given. It then runs
  `_parseFilter`, which replaces the map's `filter` entry with a parsed
  form. The filter language is `field:v1,v2@field2:v3`. A rule that does
  not split on `:` into exactly two parts is dropped, and a later rule for
  a field overwrites an earlier one.
- **The accessors** derive the page number, the record offset, the sort
  column and the parameter and filter values. Each one falls back to a
  default instead of failing.

The model has five modules:

- `JsStrings` covers JavaScript `split` with a one-character separator and
  `join`. It proves that the two undo each other.
- `JsValues` covers the dynamically typed values a parameter map holds and
  the three conversions the accessors depend on:
  - truthiness, used by `x || def`;
  - `Number(x)`, which is what `/` and `%` apply to an offset that arrives
    as a string;
  - `toString()`.
- `FilterLanguage` covers the filter language:
  - `ParseFilter` specifies what `_parseFilter` stores.
  - `RunRules` is the `forEach` loop of the source, proved equal to that
    specification.
  - Lemmas cover dropped rules, last-wins, the shape of every parsed map,
    and the serialise/parse round trip.
- `Search` holds the accessor rules as functions of values, plus the class
  `ParametricSearch`.
  - The class has the immutable `limit` and `orderColumns` fields and a
    mutable `params` field.
  - `params` is `None` until the first `SetParams`. In the source,
    `_params` is undefined until then.
  - Its accessors are functions that read the object, so none of them
    changes any state.
- `DocumentedCases` proves the examples in the source's comments from the
  general lemmas.

The documentation comment of `getParam` (lines 30-31) promises `def` only
when the parameter does not exist. The code (line 42) also returns `def`
for a stored value that is falsy: `0`, `""`, `false` or `null`. The model
follows the code.

The comment of `getFilterParam` (line 55) says that
`getFilterParam('ccc', 42)` returns `'42'`. The code returns `def`
unchanged, which is the number 42. The model follows the code, and
`DocumentedCases.DocumentedLookups` states both results: the number from
`getFilterParam` and `"42"` from the string accessor.

## Model

| member | source | states |
|---|---|---|
| JsStrings.Split | public/js/ParametricSearch.js:173-176 | `split` with one separator: it returns at least one piece, no piece contains the separator, and joining the pieces gives the input back |
| JsStrings.SplitJoin | public/js/ParametricSearch.js:173-176 | splitting the join of separator-free pieces gives exactly those pieces |
| JsStrings.SplitFree | public/js/ParametricSearch.js:173-176 | splitting never introduces a character that the input lacks |
| JsStrings.JoinFree | public/js/ParametricSearch.js:173-176 | joining never introduces a character other than the separator |
| JsStrings.SplitNoSeparator | public/js/ParametricSearch.js:173-175 | a string without the separator splits into itself alone |
| JsStrings.JoinStart | public/js/ParametricSearch.js:86 | `join` of no parts is `""`; a join starts with the first part, followed by the separator when more parts come |
| JsValues.Lookup | public/js/ParametricSearch.js:39 | reading a present key gives its stored value; the read is undefined exactly when the key is missing or holds undefined |
| JsValues.Truthy | public/js/ParametricSearch.js:42 | the values that make `getParam` and `getFilterParam` fall back to `def` are exactly `undefined`, `null`, `false`, `0` and `""`; arrays and objects are always truthy |
| JsValues.ToNumber | public/js/ParametricSearch.js:124-126 | the number `/` and `%` see: a number is itself; `null`, `false` and `""` are 0; a digit string is its decimal value; `undefined` and objects are NaN |
| JsValues.ToJsString | public/js/ParametricSearch.js:86 | `toString()` throws exactly on `undefined` and `null`; a string is itself; an integer's text reads back as the integer; a list of comma-free strings gives a text that splits on `,` back into the list |
| JsValues.NumberStringRoundTrip | public/js/ParametricSearch.js:124-126 | reading the decimal text of an integer as a number gives the integer back, so an offset passed as a URL string behaves like the number |
| FilterLanguage.RuleOf | public/js/ParametricSearch.js:174-176 | a rule that reads as an entry has a key without `:` and a non-empty value list whose values hold neither `:` nor `,`; a rule without `@` reads as a clean entry |
| FilterLanguage.ParseFilter | public/js/ParametricSearch.js:172-177 | every parsed filter is well formed: keys hold no `@` or `:`, value lists are non-empty, and values hold no `@`, `:` or `,` |
| FilterLanguage.RunRules | public/js/ParametricSearch.js:173-177 | the rule loop, in which each two-part rule overwrites its field, builds exactly the map that the rule fold specifies; on `@`-free rules that map is well formed |
| FilterLanguage.ParseRulesWellFormed | public/js/ParametricSearch.js:173-176 | rules free of `@` always build a well-formed filter |
| FilterLanguage.ParseRulesSnoc | public/js/ParametricSearch.js:173-176 | one more rule applies that rule to what the earlier rules built |
| FilterLanguage.NoColonDropped | public/js/ParametricSearch.js:174-175 | a rule without a colon is dropped |
| FilterLanguage.ExtraColonsDropped | public/js/ParametricSearch.js:174-175 | a rule with two or more colons is dropped |
| FilterLanguage.FoldLastWins | public/js/ParametricSearch.js:173-177 | over rules already read, a field is present exactly when some rule names it, and it holds the values of the last such rule |
| FilterLanguage.LastWins | public/js/ParametricSearch.js:173-177 | a field is in the parsed map exactly when some rule defines it, and it holds the values of the last rule that defines it |
| FilterLanguage.FoldDropNone | public/js/ParametricSearch.js:175 | a malformed rule changes nothing in the fold, wherever it stands |
| FilterLanguage.DropMalformed | public/js/ParametricSearch.js:175 | cutting a malformed rule out of the rule list leaves the parsed map unchanged |
| FilterLanguage.ParseJoin | public/js/ParametricSearch.js:172-177 | parsing the `@`-join of `@`-free rules applies exactly those rules, in order |
| FilterLanguage.DropMalformedText | public/js/ParametricSearch.js:173-175 | cutting a malformed rule out of the filter text leaves the parsed map unchanged |
| FilterLanguage.RuleTextRoundTrip | public/js/ParametricSearch.js:174-176 | the text `key:v1,v2` of a clean entry has no `@` and reads back as that entry |
| FilterLanguage.ParseRuleTexts | public/js/ParametricSearch.js:173-177 | the rule texts of clean entries parse to the map that the entries describe, with later entries winning |
| FilterLanguage.SerializeRoundTrip | public/js/ParametricSearch.js:172-177 | serialising clean entries as rules joined by `@` and parsing the result gives the map the entries describe |
| FilterLanguage.EntriesOfDescribes | public/js/ParametricSearch.js:173-177 | every filter map is described by a listing of its own entries |
| FilterLanguage.MapRoundTrip | public/js/ParametricSearch.js:172-177 | every well-formed filter map has a text that parses back to exactly that map |
| Search.Param | public/js/ParametricSearch.js:38-43 | gives `def` when the key is missing, and the stored value when that is truthy; the result is always `def` or a truthy stored value |
| Search.FilterParam | public/js/ParametricSearch.js:67 | gives the field's value list when the field was parsed, and `def` otherwise |
| Search.Page | public/js/ParametricSearch.js:121-128 | the page is at least 1; it is 1 when the offset is missing; any other page `p` comes from an offset whose number is exactly `(p-1)*limit` |
| Search.Offset | public/js/ParametricSearch.js:137-140 | the offset's number is `(page-1)*limit`; the result is 0 or the stored offset unchanged |
| Search.IndexOf | public/js/ParametricSearch.js:151 | `indexOf` under strict equality: the first position holding the value, or -1 when no position does |
| Search.Order | public/js/ParametricSearch.js:150-157 | the result is always an allowed column: the requested one when it is allowed, the first column otherwise |
| Search.ParseFilterValue | public/js/ParametricSearch.js:170-179 | what `_parseFilter` stores is always well formed; a non-string filter and the empty string both give the empty map |
| Search.PageOfMultiple | public/js/ParametricSearch.js:121-140 | an offset of `k*limit` with `k >= 0` opens page `k+1`; the offset is 0 when `k = 0` and the stored value otherwise |
| Search.MisalignedIsFirstPage | public/js/ParametricSearch.js:124-138 | a negative offset, or one that is not a multiple of `limit`, gives page 1 and offset 0 |
| Search.PageOfDecimalText | public/js/ParametricSearch.js:121-128 | the decimal string of `k*limit` opens page `k+1`, as a URL parameter would |
| Search.ParametricSearch.constructor | public/js/ParametricSearch.js:12-15 | stores the page size and the columns; no parameters are stored yet |
| Search.ParametricSearch.GetParams | public/js/ParametricSearch.js:24-26 | whenever parameters are stored, their `filter` entry is a parsed, well-formed filter and never the raw string |
| Search.ParametricSearch.GetParam | public/js/ParametricSearch.js:38-43 | `def` for a missing key; the stored value when it is truthy; otherwise `def` |
| Search.ParametricSearch.GetFilterParam | public/js/ParametricSearch.js:62-68 | the parsed value list of the field when present, `def` when absent |
| Search.ParametricSearch.GetFilterParamAsString | public/js/ParametricSearch.js:85-87 | for a parsed field, a string that splits on `,` back into the field's values; otherwise `def.toString()`, which is `None` where that throws |
| Search.ParametricSearch.GetLimit | public/js/ParametricSearch.js:108-110 | the page size, always positive |
| Search.ParametricSearch.GetPage | public/js/ParametricSearch.js:121-128 | at least 1; 1 without an offset; any other page `p` comes from a stored offset numbering `(p-1)*limit` |
| Search.ParametricSearch.GetOffset | public/js/ParametricSearch.js:137-140 | numerically `(GetPage()-1)*limit`; exactly `0` on page 1, and otherwise the stored `offset` unchanged, in whatever form it was stored |
| Search.ParametricSearch.GetOrder | public/js/ParametricSearch.js:150-157 | always an allowed column: the stored `order` when it is an allowed column name, the first column otherwise |
| Search.ParametricSearch.SetParams | public/js/ParametricSearch.js:96-99 | the stored map is the given one, with `filter` replaced by its parse; the object stays valid |
| Search.ParametricSearch.ParseFilterField | public/js/ParametricSearch.js:169-180 | rewrites the stored `filter` entry to its parse and leaves every other entry alone; afterwards the filter is well formed |
| DocumentedCases.ParsesDocumentedFilter | public/js/ParametricSearch.js:163-166 | `aaa:2@bbb:7,3` parses to `{aaa: ['2'], bbb: ['7', '3']}` |
| DocumentedCases.DocumentedLookups | public/js/ParametricSearch.js:50-55 | on that filter, `aaa` gives `['2']`, `bbb` gives `['7', '3']`, and `ccc` with default 42 gives the number 42, whose string is `"42"`; the string accessor gives `"2"` for `aaa` |
| DocumentedCases.DocumentedUsage | public/js/ParametricSearch.js:163-166 | after `setParams` with `order=price` and that filter, `getParams()` is `{order: 'price', filter: {aaa: ['2'], bbb: ['7', '3']}}` and the order is `price` |

## Left out

- public/js/zdrojak.controller.js is not part of this model. It is Angular routing, remote API calls and the basket flow, and it relies on a service whose source is not available.
- Search.ParametricSearch.constructor: requires a positive `limit` and a non-empty `orderColumns`. The source accepts any configuration, and with these values missing it would divide by zero or return undefined from `getOrder`.
- JsValues.ToNumber: numbers are integers. `Number(x)` is modelled for numbers, `null`, booleans, the empty string, optionally signed digit strings, and arrays through their comma-join. Whitespace, fractions, exponents, hexadecimal, `Infinity` and values above 2^53 are not modelled; every other input counts as NaN, which gives page 1.
- JsValues.ToJsString: `toString()` is modelled only for the value kinds the model has (undefined, null, booleans, integers, strings, string arrays and objects of string arrays). It does not cover arbitrary objects with their own `toString`.
- Aliasing: the source keeps the caller's parameter object and rewrites its `filter` entry in place. The model copies the map, so a caller that keeps a reference does not see the change.
- Keys inherited through the JavaScript prototype chain (such as `toString` read on a plain object) are not modelled; a key is present only if it is in the map.
- A filter rule whose key is `__proto__` (line 176) replaces the prototype of the parsed object in the source instead of adding a field; the model stores it as an ordinary `"__proto__"` field.
- Calling an accessor before `setParams` throws a TypeError in the source. The model makes these calls impossible with the precondition `params.Some?`; `GetParams` alone is allowed and returns `None`.
- The `_isString` and `_isUndefined` helpers (lines 183-189) appear inline as the `Str?` and `Undefined?` tests.
