/** Merging declarative request-body rules into a payload. */
module RequestOverrides {
  import opened Wrappers
  import opened Collections

  datatype Json =
    | Null
    | Bool(truth: bool)
    | Number(number: real)
    | Text(text: string)
    | List(items: seq<Json>)
    | Object(fields: map<string, Json>)

  type Fields = map<string, Json>

  function Get(fields: Fields, key: string): Option<Json> {
    if key in fields then Some(fields[key]) else None
  }

  // ----- Merging

  /** What a key holds after `value` is laid over `before`: objects merge, anything else replaces. */
  function Put(before: Option<Json>, value: Json): Json
    decreases value, 1
  {
    if value.Object? && before.Some? && before.value.Object? then Object(Merged(before.value.fields, value)) else value
  }

  function Merged(base: Fields, extension: Json): Fields
    requires extension.Object?
    decreases extension, 0
  {
    map key | key in base.Keys + extension.fields.Keys ::
      if key in extension.fields then Put(Get(base, key), extension.fields[key]) else base[key]
  }

  /** Fills a copy of `base` key by key, in any order. */
  method DeepMerge(base: Fields, extension: Json) returns (result: Fields)
    requires extension.Object?
    ensures result == Merged(base, extension)
    decreases extension
  {
    result := base;
    var left := extension.fields.Keys;
    while left != {}
      invariant left <= extension.fields.Keys
      invariant result.Keys == base.Keys + (extension.fields.Keys - left)
      invariant forall key :: key in base && (key !in extension.fields || key in left) ==> result[key] == base[key]
      invariant forall key :: key in extension.fields && key !in left ==> result[key] == Put(Get(base, key), extension.fields[key])
    {
      var key :| key in left;
      left := left - {key};
      var value := extension.fields[key];
      if value.Object? && key in result && result[key].Object? {
        var inner := DeepMerge(result[key].fields, value);
        result := result[key := Object(inner)];
      } else {
        result := result[key := value];
      }
    }
  }

  /** The bodies laid over the payload one after the other. */
  function Override(payload: Fields, bodies: seq<Json>): Fields
    requires forall b :: b in bodies ==> b.Object?
  {
    if bodies == [] then payload else Merged(Override(payload, bodies[..|bodies| - 1]), bodies[|bodies| - 1])
  }

  function PutAll(before: Option<Json>, values: seq<Json>): Option<Json> {
    if values == [] then before else Some(Put(PutAll(before, values[..|values| - 1]), values[|values| - 1]))
  }

  /** The values the bodies give to one key, in order. */
  function Column(bodies: seq<Json>, key: string): seq<Json>
    requires forall b :: b in bodies ==> b.Object?
  {
    if bodies == [] then []
    else
      var last := bodies[|bodies| - 1];
      Column(bodies[..|bodies| - 1], key) + (if key in last.fields then [last.fields[key]] else [])
  }

  /** A key of the merged payload depends on that key alone. */
  lemma {:induction false} KeyByKey(payload: Fields, bodies: seq<Json>, key: string)
    requires forall b :: b in bodies ==> b.Object?
    ensures Get(Override(payload, bodies), key) == PutAll(Get(payload, key), Column(bodies, key))
  {
    if bodies != [] {
      var front, last := bodies[..|bodies| - 1], bodies[|bodies| - 1];
      KeyByKey(payload, front, key);
      if key in last.fields {
        var values := Column(front, key);
        assert (values + [last.fields[key]])[..|values|] == values;
      } else {
        assert Column(bodies, key) == Column(front, key);
      }
    }
  }

  lemma FieldsEqual(a: Fields, b: Fields)
    requires forall key :: Get(a, key) == Get(b, key)
    ensures a == b
  {
    forall key ensures key in a <==> key in b {
      assert Get(a, key) == Get(b, key);
    }
    forall key | key in a ensures a[key] == b[key] {
      assert Get(a, key) == Get(b, key);
    }
  }

  // ----- Merging twice is merging once

  /** A scalar or list anywhere in the column makes what was there before irrelevant. */
  lemma {:induction false} ScalarForgets(one: Option<Json>, other: Option<Json>, values: seq<Json>, i: nat)
    requires i < |values| && !values[i].Object?
    ensures PutAll(one, values) == PutAll(other, values)
  {
    var front := values[..|values| - 1];
    if i < |front| {
      ScalarForgets(one, other, front, i);
    }
  }

  function FieldsOf(value: Option<Json>): Fields {
    if value.Some? && value.value.Object? then value.value.fields else map[]
  }

  /** A column of objects merges into the object that was there, or into an empty one. */
  lemma {:induction false} ObjectsMerge(before: Option<Json>, values: seq<Json>)
    requires values != [] && forall v :: v in values ==> v.Object?
    ensures PutAll(before, values) == Some(Object(Override(FieldsOf(before), values)))
  {
    var front, last := values[..|values| - 1], values[|values| - 1];
    assert last in values && forall v :: v in front ==> v in values;
    if front == [] {
      assert PutAll(before, front) == before;
      assert Override(FieldsOf(before), front) == FieldsOf(before);
      assert FieldsOf(before) == map[] ==> Merged(map[], last) == last.fields;
    } else {
      ObjectsMerge(before, front);
    }
  }

  ghost function Height(j: Json): nat
    decreases j
  {
    if j.Object? then 1 + Tallest(j, j.fields.Keys) else 0
  }

  ghost function Tallest(j: Json, keys: set<string>): nat
    requires j.Object? && keys <= j.fields.Keys
    decreases j, |keys|
  {
    if keys == {} then 0
    else
      var key :| key in keys;
      var rest := Tallest(j, keys - {key});
      var here := Height(j.fields[key]);
      if here < rest then rest else here
  }

  lemma {:induction false} TallestBounds(j: Json, keys: set<string>, key: string)
    requires j.Object? && keys <= j.fields.Keys && key in keys
    ensures Height(j.fields[key]) <= Tallest(j, keys)
    decreases |keys|
  {
    var first :| first in keys && Tallest(j, keys) == (
      var rest := Tallest(j, keys - {first});
      var here := Height(j.fields[first]);
      if here < rest then rest else here);
    if first != key {
      TallestBounds(j, keys - {first}, key);
    }
  }

  ghost predicate AllBelow(values: seq<Json>, height: nat) {
    forall v :: v in values ==> Height(v) <= height
  }

  lemma {:induction false} ColumnIsLower(bodies: seq<Json>, key: string, height: nat)
    requires (forall b :: b in bodies ==> b.Object?) && AllBelow(bodies, height + 1)
    ensures AllBelow(Column(bodies, key), height)
  {
    if bodies != [] {
      var front, last := bodies[..|bodies| - 1], bodies[|bodies| - 1];
      assert last in bodies && forall b :: b in front ==> b in bodies;
      ColumnIsLower(front, key, height);
      if key in last.fields {
        TallestBounds(last, last.fields.Keys, key);
      }
    }
  }

  lemma {:induction false} PutAllTwice(before: Option<Json>, values: seq<Json>, height: nat)
    requires AllBelow(values, height)
    ensures PutAll(PutAll(before, values), values) == PutAll(before, values)
    decreases height, 0
  {
    if values == [] {
    } else if i :| 0 <= i < |values| && !values[i].Object? {
      ScalarForgets(before, PutAll(before, values), values, i);
    } else {
      assert values[0] in values && values[0].Object?;
      ObjectsMerge(before, values);
      ObjectsMerge(PutAll(before, values), values);
      OverrideTwice(FieldsOf(before), values, height - 1);
    }
  }

  lemma {:induction false} OverrideTwice(payload: Fields, bodies: seq<Json>, height: nat)
    requires (forall b :: b in bodies ==> b.Object?) && AllBelow(bodies, height + 1)
    ensures Override(Override(payload, bodies), bodies) == Override(payload, bodies)
    decreases height, 1
  {
    var once := Override(payload, bodies);
    forall key ensures Get(Override(once, bodies), key) == Get(once, key) {
      KeyByKey(payload, bodies, key);
      KeyByKey(once, bodies, key);
      ColumnIsLower(bodies, key, height);
      PutAllTwice(Get(payload, key), Column(bodies, key), height);
    }
    FieldsEqual(Override(once, bodies), once);
  }

  lemma {:induction false} SomeHeight(bodies: seq<Json>) returns (height: nat)
    ensures AllBelow(bodies, height + 1)
  {
    height := 0;
    if bodies != [] {
      var front, last := bodies[..|bodies| - 1], bodies[|bodies| - 1];
      var lower := SomeHeight(front);
      height := lower + Height(last);
      assert bodies == front + [last];
    }
  }

  // ----- Rules

  const PROTECTED: set<string> := {
    "model", "messages", "input", "system", "instructions", "tools", "tool_choice", "parallel_tool_calls",
    "functions", "function_call", "file", "audio", "reference_file", "stream", "previous_response_id",
    "conversation", "background", "store"
  }

  datatype Capability = Chat | Embedding | Transcription | SpeakerMatching

  datatype Rule = Rule(capability: Capability, model: Option<string>, stream: Option<bool>, body: Json)

  /** A rule body is an object that names no host-managed field at its top level. */
  predicate Validated(rule: Rule) {
    rule.body.Object? && rule.body.fields.Keys !! PROTECTED
  }

  predicate Selects(rule: Rule, payload: Fields, capability: Capability, stream: bool) {
    && rule.capability == capability
    && (rule.model.None? || Get(payload, "model") == Some(Text(rule.model.value)))
    && (rule.stream.None? || rule.stream.value == stream)
  }

  function Selected(rules: seq<Rule>, payload: Fields, capability: Capability, stream: bool): seq<Rule> {
    if rules == [] then []
    else
      var last := rules[|rules| - 1];
      Selected(rules[..|rules| - 1], payload, capability, stream) + (if Selects(last, payload, capability, stream) then [last] else [])
  }

  /** General rules first, then stream-specific, then model-specific, then both. */
  function Specificity(rule: Rule): nat {
    (if rule.model.Some? then 2 else 0) + (if rule.stream.Some? then 1 else 0)
  }

  function OfSpecificity(rules: seq<Rule>, level: nat): seq<Rule> {
    if rules == [] then []
    else
      var last := rules[|rules| - 1];
      OfSpecificity(rules[..|rules| - 1], level) + (if Specificity(last) == level then [last] else [])
  }

  /** The stable sort by specificity. */
  function Ordered(rules: seq<Rule>): seq<Rule> {
    OfSpecificity(rules, 0) + OfSpecificity(rules, 1) + OfSpecificity(rules, 2) + OfSpecificity(rules, 3)
  }

  lemma {:induction false} OfSpecificityPicks(rules: seq<Rule>, level: nat)
    ensures forall r :: r in OfSpecificity(rules, level) <==> r in rules && Specificity(r) == level
  {
    if rules != [] {
      OfSpecificityPicks(rules[..|rules| - 1], level);
      assert rules == rules[..|rules| - 1] + [rules[|rules| - 1]];
    }
  }

  lemma OrderedBySpecificity(rules: seq<Rule>)
    ensures forall r :: r in Ordered(rules) <==> r in rules
    ensures forall i, k :: 0 <= i < k < |Ordered(rules)| ==> Specificity(Ordered(rules)[i]) <= Specificity(Ordered(rules)[k])
  {
    OfSpecificityPicks(rules, 0);
    OfSpecificityPicks(rules, 1);
    OfSpecificityPicks(rules, 2);
    OfSpecificityPicks(rules, 3);
  }

  lemma {:induction false} OfSpecificityJoin(a: seq<Rule>, b: seq<Rule>, level: nat)
    ensures OfSpecificity(a + b, level) == OfSpecificity(a, level) + OfSpecificity(b, level)
  {
    if b == [] {
      assert a + b == a;
    } else {
      assert (a + b)[..|a + b| - 1] == a + b[..|b| - 1];
      OfSpecificityJoin(a, b[..|b| - 1], level);
    }
  }

  lemma {:induction false} OfSpecificityAgain(rules: seq<Rule>, level: nat, other: nat)
    ensures OfSpecificity(OfSpecificity(rules, level), other) == if level == other then OfSpecificity(rules, level) else []
  {
    if rules != [] {
      var front, last := rules[..|rules| - 1], rules[|rules| - 1];
      OfSpecificityAgain(front, level, other);
      OfSpecificityJoin(OfSpecificity(front, level), [last], other);
      assert [last][..0] == [] && OfSpecificity(front, level) + [] == OfSpecificity(front, level);
    }
  }

  /** Rules of the same specificity, repeated ones included, keep the order they are listed in. */
  lemma OrderedIsStable(rules: seq<Rule>, level: nat)
    requires level <= 3
    ensures OfSpecificity(Ordered(rules), level) == OfSpecificity(rules, level)
  {
    hide OfSpecificity;
    var a, b, c, d := OfSpecificity(rules, 0), OfSpecificity(rules, 1), OfSpecificity(rules, 2), OfSpecificity(rules, 3);
    OfSpecificityJoin(a + b + c, d, level);
    OfSpecificityJoin(a + b, c, level);
    OfSpecificityJoin(a, b, level);
    OfSpecificityAgain(rules, 0, level);
    OfSpecificityAgain(rules, 1, level);
    OfSpecificityAgain(rules, 2, level);
    OfSpecificityAgain(rules, 3, level);
  }

  lemma {:induction false} SelectedPicks(rules: seq<Rule>, payload: Fields, capability: Capability, stream: bool)
    ensures forall r :: r in Selected(rules, payload, capability, stream) <==> r in rules && Selects(r, payload, capability, stream)
  {
    if rules != [] {
      SelectedPicks(rules[..|rules| - 1], payload, capability, stream);
      assert rules == rules[..|rules| - 1] + [rules[|rules| - 1]];
    }
  }

  function Bodies(rules: seq<Rule>): seq<Json> {
    seq(|rules|, i requires 0 <= i < |rules| => rules[i].body)
  }

  function Chosen(rules: seq<Rule>, payload: Fields, capability: Capability, stream: bool): seq<Json> {
    Bodies(Ordered(Selected(rules, payload, capability, stream)))
  }

  lemma ChosenAreValidated(rules: seq<Rule>, payload: Fields, capability: Capability, stream: bool)
    requires forall r :: r in rules ==> Validated(r)
    ensures forall b :: b in Chosen(rules, payload, capability, stream) ==> b.Object? && b.fields.Keys !! PROTECTED
  {
    var ordered := Ordered(Selected(rules, payload, capability, stream));
    SelectedPicks(rules, payload, capability, stream);
    OrderedBySpecificity(Selected(rules, payload, capability, stream));
    forall b | b in Chosen(rules, payload, capability, stream) ensures b.Object? && b.fields.Keys !! PROTECTED {
      var i :| 0 <= i < |ordered| && ordered[i].body == b;
      assert ordered[i] in ordered;
    }
  }

  ghost function Applied(payload: Fields, rules: seq<Rule>, capability: Capability, stream: bool): Fields
    requires forall r :: r in rules ==> Validated(r)
  {
    ChosenAreValidated(rules, payload, capability, stream);
    Override(payload, Chosen(rules, payload, capability, stream))
  }

  method ApplyOverrides(payload: Fields, rules: seq<Rule>, capability: Capability, stream: bool) returns (result: Fields)
    requires forall r :: r in rules ==> Validated(r)
    ensures result == Applied(payload, rules, capability, stream)
  {
    hide Merged, Chosen;
    var bodies := Chosen(rules, payload, capability, stream);
    ChosenAreValidated(rules, payload, capability, stream);
    result := payload;
    for k := 0 to |bodies|
      invariant result == Override(payload, bodies[..k])
    {
      assert bodies[..k + 1][..k] == bodies[..k];
      result := DeepMerge(result, bodies[k]);
    }
    assert bodies[..|bodies|] == bodies;
  }

  // ----- What applying promises

  lemma {:induction false} UntouchedKey(payload: Fields, bodies: seq<Json>, key: string)
    requires forall b :: b in bodies ==> b.Object? && key !in b.fields
    ensures Get(Override(payload, bodies), key) == Get(payload, key)
  {
    if bodies != [] {
      assert bodies[|bodies| - 1] in bodies && forall b :: b in bodies[..|bodies| - 1] ==> b in bodies;
      UntouchedKey(payload, bodies[..|bodies| - 1], key);
    }
  }

  /** No rule list adds, removes or changes a protected field. */
  lemma ProtectedKept(payload: Fields, rules: seq<Rule>, capability: Capability, stream: bool, key: string)
    requires forall r :: r in rules ==> Validated(r)
    requires key in {"model", "messages", "input", "system", "instructions", "tools", "tool_choice", "parallel_tool_calls",
                     "functions", "function_call", "file", "audio", "reference_file", "stream", "previous_response_id",
                     "conversation", "background", "store"}
    ensures Get(Applied(payload, rules, capability, stream), key) == Get(payload, key)
  {
    ChosenAreValidated(rules, payload, capability, stream);
    UntouchedKey(payload, Chosen(rules, payload, capability, stream), key);
  }

  lemma {:induction false} SameSelection(rules: seq<Rule>, payload: Fields, other: Fields, capability: Capability, stream: bool)
    requires Get(other, "model") == Get(payload, "model")
    ensures Selected(rules, other, capability, stream) == Selected(rules, payload, capability, stream)
  {
    if rules != [] {
      SameSelection(rules[..|rules| - 1], payload, other, capability, stream);
    }
  }

  /** Applying the same rules again selects the same rules and changes nothing. */
  lemma ApplyTwice(payload: Fields, rules: seq<Rule>, capability: Capability, stream: bool)
    requires forall r :: r in rules ==> Validated(r)
    ensures var once := Applied(payload, rules, capability, stream);
            && Selected(rules, once, capability, stream) == Selected(rules, payload, capability, stream)
            && Applied(once, rules, capability, stream) == once
  {
    var once := Applied(payload, rules, capability, stream);
    var bodies := Chosen(rules, payload, capability, stream);
    ProtectedKept(payload, rules, capability, stream, "model");
    SameSelection(rules, payload, once, capability, stream);
    ChosenAreValidated(rules, payload, capability, stream);
    var height := SomeHeight(bodies);
    OverrideTwice(payload, bodies, height);
  }

  /** The last rule with a value for a key decides it, if that value is not an object. */
  lemma {:induction false} LastScalarWins(payload: Fields, bodies: seq<Json>, key: string, i: nat)
    requires (forall b :: b in bodies ==> b.Object?) && i < |bodies|
    requires key in bodies[i].fields && !bodies[i].fields[key].Object?
    requires forall k :: i < k < |bodies| ==> key !in bodies[k].fields
    ensures Get(Override(payload, bodies), key) == Some(bodies[i].fields[key])
  {
    var front, last := bodies[..|bodies| - 1], bodies[|bodies| - 1];
    assert last in bodies && forall b :: b in front ==> b in bodies;
    var before := Override(payload, front);
    assert Override(payload, bodies) == Merged(before, last);
    if i < |front| {
      assert front[i] == bodies[i] && forall k :: i < k < |front| ==> front[k] == bodies[k];
      LastScalarWins(payload, front, key, i);
      assert bodies[|front|] == last && key !in last.fields;
      assert key in Merged(before, last) && Merged(before, last)[key] == before[key];
    } else {
      assert bodies[i] == last;
      assert key in Merged(before, last) && Merged(before, last)[key] == Put(Get(before, key), last.fields[key]);
    }
  }

  // ----- Which rules count, in their own fields

  /** A rule of another capability, for another model or for the other kind of streaming. */
  predicate Foreign(rule: Rule, payload: Fields, capability: Capability, stream: bool) {
    || rule.capability != capability
    || (rule.model.Some? && Get(payload, "model") != Some(Text(rule.model.value)))
    || rule.stream == Some(!stream)
  }

  lemma {:induction false} SelectedJoin(a: seq<Rule>, b: seq<Rule>, payload: Fields, capability: Capability, stream: bool)
    ensures Selected(a + b, payload, capability, stream) == Selected(a, payload, capability, stream) + Selected(b, payload, capability, stream)
  {
    hide Selects;
    if b == [] {
      assert a + b == a && Selected(a, payload, capability, stream) + [] == Selected(a, payload, capability, stream);
    } else {
      ConcatEnds(a, b);
      SelectedJoin(a, b[..|b| - 1], payload, capability, stream);
    }
  }

  /** Leaving out a rule of another capability, model or kind of streaming changes nothing. */
  lemma ForeignRuleIsIgnored(payload: Fields, before: seq<Rule>, rule: Rule, after: seq<Rule>, capability: Capability, stream: bool)
    requires (forall x :: x in before + [rule] + after ==> Validated(x)) && Foreign(rule, payload, capability, stream)
    ensures forall x :: x in before + after ==> x in before + [rule] + after
    ensures Applied(payload, before + [rule] + after, capability, stream) == Applied(payload, before + after, capability, stream)
  {
    assert forall x :: x in before + after ==> x in before + [rule] + after;
    SelectedJoin(before + [rule], after, payload, capability, stream);
    SelectedJoin(before, [rule], payload, capability, stream);
    SelectedJoin(before, after, payload, capability, stream);
    assert [rule][..0] == [] && Selected([rule], payload, capability, stream) == [];
    assert Selected(before, payload, capability, stream) + [] == Selected(before, payload, capability, stream);
  }

  /** What a rule has for a key. */
  function Says(rule: Rule, key: string): Option<Json> {
    if rule.body.Object? then Get(rule.body.fields, key) else None
  }

  /** The value of the last rule that names the key. */
  function LastValue(rules: seq<Rule>, key: string): Option<Json>
    requires forall x :: x in rules ==> x.body.Object?
  {
    if rules == [] then None
    else
      var front, last := rules[..|rules| - 1], rules[|rules| - 1];
      assert last in rules && forall x :: x in front ==> x in rules;
      if key in last.body.fields then Some(last.body.fields[key]) else LastValue(front, key)
  }

  lemma BodiesOf(rules: seq<Rule>)
    ensures |Bodies(rules)| == |rules| && forall k :: 0 <= k < |rules| ==> Bodies(rules)[k] == rules[k].body
    ensures rules != [] ==> Bodies(rules)[..|rules| - 1] == Bodies(rules[..|rules| - 1])
    ensures (forall x :: x in rules ==> x.body.Object?) ==> forall b :: b in Bodies(rules) ==> b.Object?
  {
    forall b | b in Bodies(rules) && (forall x :: x in rules ==> x.body.Object?) ensures b.Object? {
      var k :| 0 <= k < |rules| && Bodies(rules)[k] == b;
      assert rules[k] in rules;
    }
  }

  /** A last value that is not an object is what the merged payload holds. */
  lemma {:induction false} LastValueDecides(payload: Fields, rules: seq<Rule>, key: string)
    requires (forall x :: x in rules ==> x.body.Object?) && LastValue(rules, key).Some? && !LastValue(rules, key).value.Object?
    ensures (forall b :: b in Bodies(rules) ==> b.Object?) && Get(Override(payload, Bodies(rules)), key) == LastValue(rules, key)
  {
    var front, last := rules[..|rules| - 1], rules[|rules| - 1];
    BodiesOf(rules);
    BodiesOf(front);
    assert last in rules && forall x :: x in front ==> x in rules;
    var before := Override(payload, Bodies(front));
    assert Override(payload, Bodies(rules)) == Merged(before, last.body);
    if key in last.body.fields {
      assert Merged(before, last.body)[key] == Put(Get(before, key), last.body.fields[key]);
    } else {
      LastValueDecides(payload, front, key);
      assert key in before && Merged(before, last.body)[key] == before[key];
    }
  }

  /** Some rule gives the last value, and no later one names the key. */
  lemma {:induction false} LastNaming(rules: seq<Rule>, key: string) returns (m: nat)
    requires (forall x :: x in rules ==> x.body.Object?) && exists k :: 0 <= k < |rules| && rules[k] in rules && key in rules[k].body.fields
    ensures m < |rules| && rules[m] in rules && key in rules[m].body.fields && LastValue(rules, key) == Some(rules[m].body.fields[key])
    ensures forall k :: m < k < |rules| ==> rules[k] in rules && key !in rules[k].body.fields
  {
    var front, last := rules[..|rules| - 1], rules[|rules| - 1];
    assert last in rules && forall x :: x in front ==> x in rules;
    if key in last.body.fields {
      m := |rules| - 1;
    } else {
      var k :| 0 <= k < |rules| && rules[k] in rules && key in rules[k].body.fields;
      assert front[k] == rules[k] && front[k] in front;
      m := LastNaming(front, key);
      assert forall j :: 0 <= j < |front| ==> front[j] == rules[j];
    }
  }

  lemma ForeignOrSelected(rule: Rule, payload: Fields, capability: Capability, stream: bool)
    ensures Selects(rule, payload, capability, stream) <==> !Foreign(rule, payload, capability, stream)
  {
  }

  ghost predicate Rising(rules: seq<Rule>) {
    forall k, m :: 0 <= k < m < |rules| ==> Specificity(rules[k]) <= Specificity(rules[m])
  }

  lemma RisingAt(rules: seq<Rule>, k: nat, m: nat)
    requires Rising(rules) && k < m < |rules|
    ensures Specificity(rules[k]) <= Specificity(rules[m])
  {
  }

  lemma OrderedRises(rules: seq<Rule>)
    ensures Rising(Ordered(rules)) && forall r :: r in Ordered(rules) <==> r in rules
  {
    hide Ordered, Specificity;
    OrderedBySpecificity(rules);
  }

  /** The rules that are laid over the payload are those of the list that are not foreign, by rising specificity. */
  lemma InOrder(payload: Fields, rules: seq<Rule>, capability: Capability, stream: bool) returns (ordered: seq<Rule>)
    requires forall x :: x in rules ==> Validated(x)
    ensures ordered == Ordered(Selected(rules, payload, capability, stream)) && Rising(ordered)
    ensures forall x :: x in ordered <==> x in rules && !Foreign(x, payload, capability, stream)
    ensures forall x :: x in ordered ==> x.body.Object?
    ensures (forall b :: b in Bodies(ordered) ==> b.Object?) && Applied(payload, rules, capability, stream) == Override(payload, Bodies(ordered))
  {
    hide Selects, Foreign, Ordered, Selected, Override, Bodies, Rising;
    var selected := Selected(rules, payload, capability, stream);
    ordered := Ordered(selected);
    SelectedPicks(rules, payload, capability, stream);
    OrderedRises(selected);
    forall x ensures x in ordered <==> x in rules && !Foreign(x, payload, capability, stream) {
      ForeignOrSelected(x, payload, capability, stream);
    }
    BodiesOf(ordered);
  }

  /** If all rules that name a key agree on a value other than an object, and one of them is for this
      call, then that value is sent. */
  lemma NamedValueIsSent(payload: Fields, rules: seq<Rule>, capability: Capability, stream: bool, key: string, i: nat, value: Json)
    requires (forall x :: x in rules ==> Validated(x)) && i < |rules|
    requires !Foreign(rules[i], payload, capability, stream) && Says(rules[i], key) == Some(value) && !value.Object?
    requires forall k :: 0 <= k < |rules| && Says(rules[k], key).Some? ==> Says(rules[k], key) == Some(value)
    ensures Get(Applied(payload, rules, capability, stream), key) == Some(value)
  {
    hide Foreign, Applied, Override, Ordered, Selected, Rising, LastValue;
    var ordered := InOrder(payload, rules, capability, stream);
    assert rules[i] in ordered;
    var k :| 0 <= k < |ordered| && ordered[k] == rules[i];
    var m := LastNaming(ordered, key);
    assert ordered[m] in rules;
    var n :| 0 <= n < |rules| && rules[n] == ordered[m];
    LastValueDecides(payload, ordered, key);
  }

  /** A rule for one model counts more than one for all; where that is equal, a rule for one kind of
      streaming counts more than one for both. */
  predicate MoreSpecific(x: Rule, y: Rule) {
    || (x.model.Some? && y.model.None?)
    || (x.model.Some? == y.model.Some? && x.stream.Some? && y.stream.None?)
  }

  /** Of two rules for this call that alone name a key, the more specific one decides it, in
      whatever order they are listed. */
  lemma MoreSpecificWins(payload: Fields, rules: seq<Rule>, capability: Capability, stream: bool, key: string, i: nat, j: nat, value: Json)
    requires (forall x :: x in rules ==> Validated(x)) && i < |rules| && j < |rules|
    requires !Foreign(rules[i], payload, capability, stream) && !Foreign(rules[j], payload, capability, stream)
    requires Says(rules[i], key) == Some(value) && !value.Object? && MoreSpecific(rules[i], rules[j])
    requires forall k :: 0 <= k < |rules| && k != i && k != j ==> Says(rules[k], key).None?
    ensures Get(Applied(payload, rules, capability, stream), key) == Some(value)
  {
    assert Specificity(rules[j]) < Specificity(rules[i]);
    hide Foreign, Applied, Override, Ordered, Selected, Specificity, Rising, MoreSpecific;
    hide LastValue;
    var ordered := InOrder(payload, rules, capability, stream);
    assert rules[i] in ordered;
    forall x | x in ordered && Says(x, key).Some? ensures x == rules[i] || x == rules[j] {
      var n :| 0 <= n < |rules| && rules[n] == x;
    }
    HigherIsLast(ordered, key, rules[i], rules[j]);
    LastValueDecides(payload, ordered, key);
  }

  /** Among rules by rising specificity, of two that alone name a key the higher one is the last to. */
  lemma HigherIsLast(ordered: seq<Rule>, key: string, high: Rule, low: Rule)
    requires (forall x :: x in ordered ==> x.body.Object?) && Rising(ordered) && Specificity(low) < Specificity(high)
    requires high in ordered && Says(high, key).Some? && forall x :: x in ordered && Says(x, key).Some? ==> x == high || x == low
    ensures LastValue(ordered, key) == Says(high, key)
  {
    hide Specificity, Rising, LastValue;
    var k :| 0 <= k < |ordered| && ordered[k] == high;
    var m := LastNaming(ordered, key);
    if k < m {
      RisingAt(ordered, k, m);
    }
  }

  /** Rules of one level decide alone if the last rule naming the key is of that level. */
  lemma {:induction false} LevelDecides(rules: seq<Rule>, key: string, level: nat, m: nat)
    requires (forall x :: x in rules ==> x.body.Object?) && m < |rules| && rules[m] in rules && key in rules[m].body.fields && Specificity(rules[m]) == level
    requires forall k :: m < k < |rules| ==> rules[k] in rules && key !in rules[k].body.fields
    ensures (forall x :: x in OfSpecificity(rules, level) ==> x.body.Object?) && LastValue(OfSpecificity(rules, level), key) == Some(rules[m].body.fields[key])
  {
    OfSpecificityPicks(rules, level);
    var front, last := rules[..|rules| - 1], rules[|rules| - 1];
    assert last in rules && forall x :: x in front ==> x in rules;
    var of := OfSpecificity(front, level);
    if m == |rules| - 1 {
      assert OfSpecificity(rules, level) == of + [last];
      assert (of + [last])[|of|] == last;
    } else {
      assert forall k :: 0 <= k < |front| ==> front[k] == rules[k] && front[k] in front;
      LevelDecides(front, key, level, m);
      if Specificity(last) == level {
        assert OfSpecificity(rules, level) == of + [last];
        assert (of + [last])[..|of|] == of && (of + [last])[|of|] == last;
      } else {
        assert OfSpecificity(rules, level) == of + [] == of;
      }
    }
  }

  /** Of two equally specific rules for this call that alone name a key, the later one in the list decides it. */
  lemma LaterWins(payload: Fields, rules: seq<Rule>, capability: Capability, stream: bool, key: string, i: nat, j: nat, value: Json)
    requires (forall x :: x in rules ==> Validated(x)) && i < j < |rules|
    requires !Foreign(rules[i], payload, capability, stream) && !Foreign(rules[j], payload, capability, stream)
    requires Says(rules[j], key) == Some(value) && !value.Object?
    requires rules[i].model.Some? == rules[j].model.Some? && rules[i].stream.Some? == rules[j].stream.Some?
    requires forall k :: 0 <= k < |rules| && k != i && k != j ==> Says(rules[k], key).None?
    ensures Get(Applied(payload, rules, capability, stream), key) == Some(value)
  {
    var level := Specificity(rules[j]);
    assert Specificity(rules[i]) == level <= 3;
    hide Foreign, Applied, Override, Ordered, Selected, Specificity, OfSpecificity, Rising, LastValue;
    assert rules[j] in rules && forall k :: 0 <= k < |rules| ==> rules[k] in rules;
    var selected := Selected(rules, payload, capability, stream);
    var ordered := InOrder(payload, rules, capability, stream);
    OrderedRises(selected);
    forall x | x in rules && Says(x, key).Some? ensures Specificity(x) == level {
      var k :| 0 <= k < |rules| && rules[k] == x;
    }
    SelectedSays(rules, payload, capability, stream, key, j);
    OneLevel(selected, key, level);
    OrderedIsStable(selected, level);
    assert rules[j] in ordered;
    OneLevel(ordered, key, level);
    LastValueDecides(payload, ordered, key);
  }

  lemma LastValueSnoc(rules: seq<Rule>, last: Rule, key: string)
    requires (forall x :: x in rules ==> x.body.Object?) && last.body.Object?
    ensures forall x :: x in rules + [last] ==> x.body.Object?
    ensures LastValue(rules + [last], key) == if Says(last, key).Some? then Says(last, key) else LastValue(rules, key)
  {
    assert (rules + [last])[..|rules|] == rules && (rules + [last])[|rules|] == last;
  }

  lemma SelectedSnoc(rules: seq<Rule>, payload: Fields, capability: Capability, stream: bool)
    requires rules != []
    ensures var front, last := Selected(rules[..|rules| - 1], payload, capability, stream), rules[|rules| - 1];
            Selected(rules, payload, capability, stream) == if Foreign(last, payload, capability, stream) then front else front + [last]
  {
    var front := Selected(rules[..|rules| - 1], payload, capability, stream);
    ForeignOrSelected(rules[|rules| - 1], payload, capability, stream);
    hide Selects, Foreign;
    assert front + [] == front;
  }

  lemma {:induction false} SelectedSays(rules: seq<Rule>, payload: Fields, capability: Capability, stream: bool, key: string, j: nat)
    requires (forall x :: x in rules ==> x.body.Object?) && j < |rules| && Says(rules[j], key).Some?
    requires !Foreign(rules[j], payload, capability, stream) && forall k :: j < k < |rules| ==> Says(rules[k], key).None?
    ensures var selected := Selected(rules, payload, capability, stream);
            (forall x :: x in selected ==> x.body.Object?) && rules[j] in selected && LastValue(selected, key) == Says(rules[j], key)
  {
    hide Selected, Selects, Foreign, LastValue;
    var front, last := rules[..|rules| - 1], rules[|rules| - 1];
    SelectedPicks(front, payload, capability, stream);
    SelectedSnoc(rules, payload, capability, stream);
    assert last in rules && forall x :: x in front ==> x in rules;
    var picked := Selected(front, payload, capability, stream);
    LastValueSnoc(picked, last, key);
    if j < |front| {
      assert front[j] == rules[j] && forall k :: 0 <= k < |front| ==> front[k] == rules[k];
      SelectedSays(front, payload, capability, stream, key, j);
    }
  }

  /** If all rules naming a key are of one level, the rules of that level decide. */
  lemma OneLevel(rules: seq<Rule>, key: string, level: nat)
    requires (forall x :: x in rules ==> x.body.Object?) && exists x :: x in rules && Says(x, key).Some?
    requires forall x :: x in rules && Says(x, key).Some? ==> Specificity(x) == level
    ensures (forall x :: x in OfSpecificity(rules, level) ==> x.body.Object?) && LastValue(OfSpecificity(rules, level), key) == LastValue(rules, key)
  {
    hide OfSpecificity, Specificity, LastValue;
    var x :| x in rules && Says(x, key).Some?;
    var k :| 0 <= k < |rules| && rules[k] == x;
    var m := LastNaming(rules, key);
    LevelDecides(rules, key, level, m);
  }

  // ----- Merging along a path

  /** What stands at a path of keys, if every key on the way leads through an object. */
  function At(j: Json, path: seq<string>): Option<Json> {
    if path == [] then Some(j)
    else if j.Object? && path[0] in j.fields then At(j.fields[path[0]], path[1..])
    else None
  }

  /** The extension says nothing at the path: it stops at an object without the next key. */
  predicate Silent(j: Json, path: seq<string>) {
    path != [] && j.Object? && (path[0] in j.fields ==> Silent(j.fields[path[0]], path[1..]))
  }

  /** Wherever the extension has a value that is not an object, the result has it. */
  lemma {:induction false} MergeTakes(base: Fields, extension: Json, path: seq<string>)
    requires extension.Object? && path != [] && At(extension, path).Some? && !At(extension, path).value.Object?
    ensures At(Object(Merged(base, extension)), path) == At(extension, path)
    decreases |path|
  {
    var key := path[0];
    var value, before := extension.fields[key], Get(base, key);
    assert Merged(base, extension)[key] == Put(before, value);
    if |path| > 1 && before.Some? && before.value.Object? {
      MergeTakes(before.value.fields, value, path[1..]);
    }
  }

  /** Wherever it says nothing, the result has what the base had, as far as the way there leads
      through objects of both. */
  lemma {:induction false} MergeKeeps(base: Fields, extension: Json, path: seq<string>)
    requires extension.Object? && Silent(extension, path) && At(Object(base), path).Some?
    ensures At(Object(Merged(base, extension)), path) == At(Object(base), path)
    decreases |path|
  {
    var key := path[0];
    var merged := Merged(base, extension);
    if key in extension.fields {
      assert merged[key] == Put(Some(base[key]), extension.fields[key]);
      if |path| > 1 {
        assert path[1..] != [];
        MergeKeeps(base[key].fields, extension.fields[key], path[1..]);
      }
    } else {
      assert merged[key] == base[key];
    }
  }
}
