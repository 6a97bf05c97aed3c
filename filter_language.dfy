/**
 The filter mini-language carried in the `filter` query parameter:
 rules separated by `@`, each rule `field:v1,v2,...`. A rule that does not
 split on `:` into exactly two parts is dropped; a later rule for the same
 field replaces an earlier one; values stay strings, in order, untrimmed
 and with duplicates kept.

 `ParseFilter` is the specification of `_parseFilter`; `RunRules` runs the
 same fold as the loop of the source.
 */
module FilterLanguage {
  import opened Wrappers
  import opened JsStrings

  /** One parsed rule: a field name and its values. */
  datatype Entry = Entry(key: string, values: seq<string>)

  /** The parsed form: field name to its list of values. */
  type Filter = map<string, seq<string>>

  /** A field name can hold neither separator of the outer levels. */
  predicate IsKey(k: string)
  {
    '@' !in k && ':' !in k
  }

  /** A value can hold none of the three separators. */
  predicate IsValue(v: string)
  {
    IsKey(v) && ',' !in v
  }

  predicate CleanEntry(e: Entry)
  {
    IsKey(e.key) && |e.values| >= 1 && forall j :: 0 <= j < |e.values| ==> IsValue(e.values[j])
  }

  /** What every parsed filter looks like. */
  predicate WellFormed(f: Filter)
  {
    forall k :: k in f ==> CleanEntry(Entry(k, f[k]))
  }

  /** Rules as they come out of splitting on `@`: none contains `@`. */
  predicate AtFree(rules: seq<string>)
  {
    forall i :: 0 <= i < |rules| ==> '@' !in rules[i]
  }

  /** One rule of the filter: `Some` when it splits on `:` into exactly two parts. */
  function RuleOf(rule: string): (r: Option<Entry>)
    ensures r.Some? ==> ':' !in r.value.key && |r.value.values| >= 1
    ensures r.Some? ==> forall j :: 0 <= j < |r.value.values| ==> ':' !in r.value.values[j] && ',' !in r.value.values[j]
    ensures r.Some? && '@' !in rule ==> CleanEntry(r.value)
  {
    var parts := Split(rule, ':');
    if |parts| != 2 then None
    else
      RulePartsFree(rule);
      Some(Entry(parts[0], Split(parts[1], ',')))
  }

  /** The pieces of a two-part rule keep the separators the rule lacks out of its values. */
  lemma RulePartsFree(rule: string)
    requires |Split(rule, ':')| == 2
    ensures forall j :: 0 <= j < |Split(Split(rule, ':')[1], ',')| ==> ':' !in Split(Split(rule, ':')[1], ',')[j]
    ensures '@' !in rule ==> '@' !in Split(rule, ':')[0]
    ensures '@' !in rule ==>
              forall j :: 0 <= j < |Split(Split(rule, ':')[1], ',')| ==> '@' !in Split(Split(rule, ':')[1], ',')[j]
  {
    var parts := Split(rule, ':');
    SplitFree(parts[1], ',', ':');
    if '@' !in rule {
      SplitFree(rule, ':', '@');
      SplitFree(parts[1], ',', '@');
    }
  }

  /** The rules of a filter, each read on its own. */
  function ReadRules(rules: seq<string>): seq<Option<Entry>>
  {
    seq(|rules|, i requires 0 <= i < |rules| => RuleOf(rules[i]))
  }

  /** The body of the rule loop: record a well-formed rule, overwriting its field. */
  function Record(f: Filter, rule: Option<Entry>): Filter
  {
    match rule
    case None => f
    case Some(e) => f[e.key := e.values]
  }

  /** Read rules recorded left to right, starting from the empty map. */
  function Fold(rules: seq<Option<Entry>>): Filter
  {
    if rules == [] then map[]
    else Record(Fold(rules[..|rules| - 1]), rules[|rules| - 1])
  }

  /** The rules applied left to right, starting from the empty map. */
  function ParseRules(rules: seq<string>): Filter
  {
    Fold(ReadRules(rules))
  }

  /** `_parseFilter` on a string filter. */
  function ParseFilter(s: string): (f: Filter)
    ensures WellFormed(f)
  {
    ParseRulesWellFormed(Split(s, '@'));
    ParseRules(Split(s, '@'))
  }

  /** Whether a read rule is well formed and names field `k`. */
  predicate Names(rule: Option<Entry>, k: string)
  {
    rule.Some? && rule.value.key == k
  }

  /** Whether `rule` is well formed and names field `k`. */
  predicate Defines(rule: string, k: string)
  {
    Names(RuleOf(rule), k)
  }

  /** Appending one read rule records it over what the earlier ones built. */
  lemma FoldSnoc(rules: seq<Option<Entry>>, rule: Option<Entry>)
    ensures Fold(rules + [rule]) == Record(Fold(rules), rule)
  {
    assert (rules + [rule])[..|rules|] == rules;
  }

  /** Recording only clean entries builds a well-formed filter. */
  lemma {:induction false} FoldWellFormed(rules: seq<Option<Entry>>)
    requires forall i :: 0 <= i < |rules| && rules[i].Some? ==> CleanEntry(rules[i].value)
    ensures WellFormed(Fold(rules))
    decreases |rules|
  {
    if rules != [] {
      FoldWellFormed(rules[..|rules| - 1]);
    }
  }

  /** The fold keeps a field exactly when some rule names it, with the values of the last such rule. */
  lemma {:induction false} FoldLastWins(rules: seq<Option<Entry>>, k: string)
    ensures k in Fold(rules) <==> exists i :: 0 <= i < |rules| && Names(rules[i], k)
    ensures forall i :: 0 <= i < |rules| && Names(rules[i], k) &&
                        (forall j :: i < j < |rules| ==> !Names(rules[j], k)) ==>
                        k in Fold(rules) && Fold(rules)[k] == rules[i].value.values
    decreases |rules|
  {
    if rules != [] {
      var n := |rules|;
      var init, last := rules[..n - 1], rules[n - 1];
      FoldLastWins(init, k);
      assert forall i :: 0 <= i < n - 1 ==> rules[i] == init[i];
      if Names(last, k) {
        forall i | 0 <= i < n && Names(rules[i], k) && (forall j :: i < j < n ==> !Names(rules[j], k))
          ensures i == n - 1
        {
        }
      } else {
        assert (exists i :: 0 <= i < n && Names(rules[i], k)) <==> (exists i :: 0 <= i < n - 1 && Names(init[i], k));
      }
    }
  }

  /** A malformed rule contributes nothing to the fold, wherever it stands. */
  lemma {:induction false} FoldDropNone(pre: seq<Option<Entry>>, post: seq<Option<Entry>>)
    ensures Fold(pre + [None] + post) == Fold(pre + post)
    decreases |post|
  {
    if post == [] {
      FoldSnoc(pre, None);
      assert pre + [None] + post == pre + [None];
      assert pre + post == pre;
    } else {
      var m := |post|;
      var front, last := post[..m - 1], post[m - 1];
      FoldDropNone(pre, front);
      FoldSnoc(pre + [None] + front, last);
      FoldSnoc(pre + front, last);
      assert pre + [None] + post == (pre + [None] + front) + [last];
      assert pre + post == (pre + front) + [last];
    }
  }

  lemma ReadRulesConcat(a: seq<string>, b: seq<string>)
    ensures ReadRules(a + b) == ReadRules(a) + ReadRules(b)
  {
  }

  /** Rules free of `@` build a well-formed filter. */
  lemma ParseRulesWellFormed(rules: seq<string>)
    requires AtFree(rules)
    ensures WellFormed(ParseRules(rules))
  {
    FoldWellFormed(ReadRules(rules));
  }

  /** A rule without a colon is dropped. */
  lemma NoColonDropped(rule: string)
    requires ':' !in rule
    ensures RuleOf(rule).None?
  {
    SplitNoSeparator(rule, ':');
  }

  /** A rule with two or more colons is dropped. */
  lemma ExtraColonsDropped(parts: seq<string>)
    requires |parts| >= 3
    requires forall i :: 0 <= i < |parts| ==> ':' !in parts[i]
    ensures RuleOf(Join(parts, ':')).None?
  {
    SplitJoin(parts, ':');
  }

  /**
   A field is in the parsed map exactly when some rule defines it, and its
   value list is the one given by the last rule that defines it.
   */
  lemma LastWins(rules: seq<string>, k: string)
    ensures k in ParseRules(rules) <==> exists i :: 0 <= i < |rules| && Defines(rules[i], k)
    ensures forall i :: 0 <= i < |rules| && Defines(rules[i], k) &&
                        (forall j :: i < j < |rules| ==> !Defines(rules[j], k)) ==>
                        k in ParseRules(rules) && ParseRules(rules)[k] == RuleOf(rules[i]).value.values
  {
    var read := ReadRules(rules);
    FoldLastWins(read, k);
    assert forall i :: 0 <= i < |rules| ==> read[i] == RuleOf(rules[i]);
  }

  /** One step of the rule loop, spelled out. */
  lemma RecordRule(f: Filter, rule: string)
    ensures Record(f, RuleOf(rule)) ==
            var parts := Split(rule, ':');
            if |parts| == 2 then f[parts[0] := Split(parts[1], ',')] else f
  {
  }

  /** Appending one rule applies it to what the earlier rules built. */
  lemma ParseRulesSnoc(rules: seq<string>, rule: string)
    ensures ParseRules(rules + [rule]) == Record(ParseRules(rules), RuleOf(rule))
  {
    ReadRulesConcat(rules, [rule]);
    FoldSnoc(ReadRules(rules), RuleOf(rule));
  }

  /** A malformed rule contributes nothing, wherever it stands. */
  lemma DropMalformed(pre: seq<string>, bad: string, post: seq<string>)
    requires RuleOf(bad).None?
    ensures ParseRules(pre + [bad] + post) == ParseRules(pre + post)
  {
    ReadRulesConcat(pre, [bad]);
    ReadRulesConcat(pre + [bad], post);
    ReadRulesConcat(pre, post);
    assert ReadRules([bad]) == [None];
    FoldDropNone(ReadRules(pre), ReadRules(post));
  }

  /**
   The `forEach` over the rules of `_parseFilter`: each rule that splits on
   `:` into exactly two parts overwrites its field with its values.
   */
  method RunRules(rules: seq<string>) returns (parsed: Filter)
    ensures parsed == ParseRules(rules)
    ensures AtFree(rules) ==> WellFormed(parsed)
  {
    parsed := map[];
    var i := 0;
    while i < |rules|
      invariant 0 <= i <= |rules|
      invariant parsed == ParseRules(rules[..i])
    {
      ghost var before := parsed;
      var parts := Split(rules[i], ':');
      if |parts| == 2 {
        parsed := parsed[parts[0] := Split(parts[1], ',')];
      }
      RecordRule(before, rules[i]);
      ParseRulesSnoc(rules[..i], rules[i]);
      assert rules[..i + 1] == rules[..i] + [rules[i]];
      i := i + 1;
    }
    assert rules[..|rules|] == rules;
    if AtFree(rules) {
      ParseRulesWellFormed(rules);
    }
  }

  /** Parsing the `@`-join of `@`-free rules applies exactly those rules. */
  lemma ParseJoin(rules: seq<string>)
    requires AtFree(rules)
    ensures ParseFilter(Join(rules, '@')) == ParseRules(rules)
  {
    if rules == [] {
      SplitNoSeparator("", ':');
      DropMalformed([], "", []);
    } else {
      SplitJoin(rules, '@');
    }
  }

  /** In the filter text too, a malformed rule can be cut out without changing the result. */
  lemma DropMalformedText(pre: seq<string>, bad: string, post: seq<string>)
    requires AtFree(pre) && AtFree(post)
    requires '@' !in bad && RuleOf(bad).None?
    ensures ParseFilter(Join(pre + [bad] + post, '@')) == ParseFilter(Join(pre + post, '@'))
  {
    AtFreeConcat(pre, [bad]);
    AtFreeConcat(pre + [bad], post);
    AtFreeConcat(pre, post);
    ParseJoin(pre + [bad] + post);
    ParseJoin(pre + post);
    DropMalformed(pre, bad, post);
  }

  lemma AtFreeConcat(a: seq<string>, b: seq<string>)
    requires AtFree(a) && AtFree(b)
    ensures AtFree(a + b)
  {
    forall i | 0 <= i < |a + b| ensures '@' !in (a + b)[i] {
      if i >= |a| {
        assert (a + b)[i] == b[i - |a|];
      }
    }
  }

  /** The text of one rule: `key:v1,v2,...`. */
  function RuleText(e: Entry): string
  {
    e.key + ":" + Join(e.values, ',')
  }

  /** Entries serialised as rules joined by `@`, the form callers put into the URL. */
  function Serialize(entries: seq<Entry>): string
  {
    Join(seq(|entries|, i requires 0 <= i < |entries| => RuleText(entries[i])), '@')
  }

  /** The map the entries describe, a later entry for a key replacing an earlier one. */
  function EntriesToMap(entries: seq<Entry>): Filter
  {
    if entries == [] then map[]
    else
      var last := entries[|entries| - 1];
      EntriesToMap(entries[..|entries| - 1])[last.key := last.values]
  }

  /** A clean entry's rule text has no `@` and parses back to the entry. */
  lemma RuleTextRoundTrip(e: Entry)
    requires CleanEntry(e)
    ensures '@' !in RuleText(e)
    ensures RuleOf(RuleText(e)) == Some(e)
  {
    var joined := Join(e.values, ',');
    JoinFree(e.values, ',', ':');
    JoinFree(e.values, ',', '@');
    SplitJoin([e.key, joined], ':');
    assert Join([e.key, joined], ':') == RuleText(e);
    SplitJoin(e.values, ',');
  }

  /** Recording entries one after another builds the map they describe. */
  lemma {:induction false} FoldEntries(entries: seq<Entry>)
    ensures Fold(seq(|entries|, i requires 0 <= i < |entries| => Some(entries[i]))) == EntriesToMap(entries)
    decreases |entries|
  {
    if entries != [] {
      var n := |entries|;
      var init := entries[..n - 1];
      FoldEntries(init);
      var read := seq(|entries|, i requires 0 <= i < |entries| => Some(entries[i]));
      assert read[..n - 1] == seq(|init|, i requires 0 <= i < |init| => Some(init[i]));
    }
  }

  /** The rule texts of clean entries parse back to the map the entries describe. */
  lemma ParseRuleTexts(entries: seq<Entry>)
    requires forall i :: 0 <= i < |entries| ==> CleanEntry(entries[i])
    ensures ParseRules(seq(|entries|, i requires 0 <= i < |entries| => RuleText(entries[i]))) == EntriesToMap(entries)
  {
    var rules := seq(|entries|, i requires 0 <= i < |entries| => RuleText(entries[i]));
    var read := ReadRules(rules);
    var somes := seq(|entries|, i requires 0 <= i < |entries| => Some(entries[i]));
    forall i | 0 <= i < |entries| ensures read[i] == somes[i] {
      RuleTextRoundTrip(entries[i]);
    }
    assert read == somes;
    FoldEntries(entries);
  }

  /** Round trip: parsing serialised clean entries gives the map they describe. */
  lemma SerializeRoundTrip(entries: seq<Entry>)
    requires forall i :: 0 <= i < |entries| ==> CleanEntry(entries[i])
    ensures ParseFilter(Serialize(entries)) == EntriesToMap(entries)
  {
    var rules := seq(|entries|, i requires 0 <= i < |entries| => RuleText(entries[i]));
    forall i | 0 <= i < |rules| ensures '@' !in rules[i] {
      RuleTextRoundTrip(entries[i]);
    }
    ParseJoin(rules);
    ParseRuleTexts(entries);
  }

  /** Some key of a non-empty map. */
  ghost function PickKey(f: Filter): (k: string)
    requires |f| > 0
    ensures k in f
  {
    var k :| k in f; k
  }

  /** Some listing of the entries of a map, one per key. */
  ghost function EntriesOf(f: Filter): (entries: seq<Entry>)
    ensures forall i :: 0 <= i < |entries| ==> entries[i].key in f && entries[i].values == f[entries[i].key]
    decreases |f|
  {
    if |f| == 0 then []
    else
      var k := PickKey(f);
      assert (f - {k}).Keys == f.Keys - {k};
      EntriesOf(f - {k}) + [Entry(k, f[k])]
  }

  lemma {:induction false} EntriesOfDescribes(f: Filter)
    ensures EntriesToMap(EntriesOf(f)) == f
    decreases |f|
  {
    if |f| != 0 {
      var k := PickKey(f);
      var rest := f - {k};
      assert rest.Keys == f.Keys - {k};
      EntriesOfDescribes(rest);
      var entries := EntriesOf(f);
      assert entries[..|entries| - 1] == EntriesOf(rest);
      assert rest[k := f[k]] == f;
    }
  }

  /** Round trip for maps: every well-formed filter has a text that parses back to it. */
  lemma MapRoundTrip(f: Filter)
    requires WellFormed(f)
    ensures ParseFilter(Serialize(EntriesOf(f))) == f
  {
    var entries := EntriesOf(f);
    forall i | 0 <= i < |entries| ensures CleanEntry(entries[i]) {
      assert CleanEntry(Entry(entries[i].key, f[entries[i].key]));
    }
    SerializeRoundTrip(entries);
    EntriesOfDescribes(f);
  }
}
