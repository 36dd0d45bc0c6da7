/**
  The create body is kept without its identifying values and judged later. What is kept gives the same verdict as the
  body itself would have given.
*/
module Redaction {
  import opened Wrappers
  import opened Domains

  datatype Number = Whole(n: int) | Fraction(r: real) | NotANumber | Infinite(positive: bool)

  datatype Field = Field(key: string, value: Json)

  datatype Json =
    | Null | Bool(b: bool) | Num(number: Number) | Str(s: string)
    | List(items: seq<Json>)
    | Obj(fields: seq<Field>)

  predicate IsScalar(v: Json) { !v.List? && !v.Obj? }

  type Scalar = v: Json | IsScalar(v) witness Null

  /** What a contract asks of one field: this very scalar, a list of wants element by element, or a shape. */
  datatype Want = Exact(value: Scalar) | Each(wants: seq<Want>) | Shape(matches: Json -> bool)

  type Contract = map<string, Want>

  // ----- the plain comparison ---------------------------------------------------------------------------------------

  /** Type-sensitive equality; not-a-number equals nothing. */
  predicate SameScalar(a: Scalar, b: Json) { a == b && a != Num(NotANumber) }

  predicate Same(want: Want, v: Json)
    decreases want
  {
    match want
    case Exact(value) => SameScalar(value, v)
    case Shape(matches) => matches(v)
    case Each(wants) => v.List? && |wants| == |v.items| && forall i :: 0 <= i < |wants| ==> Same(wants[i], v.items[i])
  }

  function Named(prefix: string, key: string): string {
    if prefix == "" then key else prefix + "." + key
  }

  predicate IsLeaf(v: Json) { !v.Obj? || v.fields == [] }

  /** Nested objects become dotted names, a later field replacing an earlier one of the same name. */
  function Flatten(fields: seq<Field>, prefix: string): map<string, Json>
    decreases fields
  {
    if fields == [] then map[] else
    var name, v := Named(prefix, fields[0].key), fields[0].value;
    (if IsLeaf(v) then map[name := v] else Flatten(v.fields, name)) + Flatten(fields[1..], prefix)
  }

  /** The names that differ: wrong, wrongly typed or missing ones, and the unexpected ones marked as such. */
  function Differing(wrong: set<string>, unexpected: set<string>): multiset<string> {
    multiset(wrong) + multiset((set n | n in unexpected :: "unexpected:" + n))
  }

  function ComparePayload(expected: Contract, observed: Json): multiset<string> {
    if !observed.Obj? then multiset(expected.Keys) else
    var flat := Flatten(observed.fields, "");
    Differing((set n | n in expected && !(n in flat && Same(expected[n], flat[n]))), flat.Keys - expected.Keys)
  }

  // ----- the redacted body ------------------------------------------------------------------------------------------

  const SETTINGS := {
    "accountType", "accountCountryCode", "scanningInterval", "leakedCredentialsScanningInterval", "license.licenseType",
    "license.assetsNumber", "license.domainsNumber", "license.startDate", "license.expirationDate"}

  const MAX_KEPT_TEXT := 40

  /** A kept field: as sent, or only the name of its type. */
  datatype Kept = AsSent(value: Json) | Hidden(kind: string)

  datatype Body = Body(kept: map<string, Kept>, matched: set<string>)

  predicate AllText(items: seq<Json>) { forall i :: 0 <= i < |items| ==> items[i].Str? }

  function TypeName(v: Json): string {
    match v
    case Null => "NoneType" case Bool(_) => "bool" case Num(n) => if n.Whole? then "int" else "float"
    case Str(_) => "str" case List(_) => "list" case Obj(_) => "dict"
  }

  predicate KeptAsSent(name: string, v: Json) {
    v.Null? || v.Bool? || v.Num? || v == List([]) || (name in SETTINGS && v.Str? && |v.s| <= MAX_KEPT_TEXT)
  }

  predicate Identifying(v: Json) { v.Str? || (v.List? && AllText(v.items)) }

  predicate TextOk(want: Want, s: string) {
    match want case Shape(matches) => matches(Str(s)) case Exact(value) => value == Str(s) case Each(_) => false
  }

  predicate IdentifyingOk(want: Option<Want>, v: Json)
    requires Identifying(v)
  {
    want.Some? &&
    match v
    case Str(s) => TextOk(want.value, s)
    case List(items) => want.value.Each? && |want.value.wants| == |items|
                        && forall i :: 0 <= i < |items| ==> TextOk(want.value.wants[i], items[i].s)
  }

  function WantOf(expected: Contract, name: string): Option<Want> {
    if name in expected then Some(expected[name]) else None
  }

  /** The field is dropped because its value is the expected one. */
  predicate Matches(expected: Contract, name: string, v: Json) {
    !KeptAsSent(name, v) && Identifying(v) && IdentifyingOk(WantOf(expected, name), v)
  }

  function Stored(name: string, v: Json): Kept {
    if KeptAsSent(name, v) then AsSent(v) else Hidden(TypeName(v))
  }

  /**
    The body a decoded request leaves; None for a body that is not an object. `None` in stands for undecodable bytes.
  */
  method Redact(decoded: Option<Json>, expected: Contract) returns (body: Option<Body>)
    ensures body.None? <==> decoded.None? || !decoded.value.Obj?
    ensures body.Some? ==>
      var flat := Flatten(decoded.value.fields, "");
      body.value == RedactedBody(flat, expected)
  {
    if decoded.None? || !decoded.value.Obj? { return None; }
    var flat := Flatten(decoded.value.fields, "");
    var kept: map<string, Kept>, matched: set<string> := map[], {};
    var rest := flat.Keys;
    while rest != {}
      invariant rest <= flat.Keys && kept.Keys + matched == flat.Keys - rest && kept.Keys !! matched
      invariant forall n :: n in matched <==> n in flat && n !in rest && Matches(expected, n, flat[n])
      invariant forall n :: n in kept ==> kept[n] == Stored(n, flat[n])
    {
      var name :| name in rest;
      var v := flat[name];
      if v.Null? || v.Bool? || v.Num? || v == List([]) {
        kept := kept[name := AsSent(v)];
      } else if name in SETTINGS && v.Str? && |v.s| <= MAX_KEPT_TEXT {
        kept := kept[name := AsSent(v)];
      } else if Identifying(v) {
        if IdentifyingOk(WantOf(expected, name), v) {
          matched := matched + {name};
        } else {
          kept := kept[name := Hidden(if v.Str? then "str" else "list")];
        }
      } else {
        kept := kept[name := Hidden(TypeName(v))];
      }
      rest := rest - {name};
    }
    RedactIsRedacted(flat, expected, Body(kept, matched));
    return Some(Body(kept, matched));
  }

  function RedactedBody(flat: map<string, Json>, expected: Contract): Body {
    Body((map n | n in flat && !Matches(expected, n, flat[n]) :: Stored(n, flat[n])),
         (set n | n in flat && Matches(expected, n, flat[n])))
  }

  /** What the loop leaves is one fixed body. */
  lemma RedactIsRedacted(flat: map<string, Json>, expected: Contract, body: Body)
    requires body.kept.Keys + body.matched == flat.Keys && body.kept.Keys !! body.matched
    requires forall n :: n in body.matched <==> n in flat && Matches(expected, n, flat[n])
    requires forall n :: n in body.kept ==> body.kept[n] == Stored(n, flat[n])
    ensures body == RedactedBody(flat, expected)
  {
  }

  /** A hidden value equals nothing a contract can ask for. */
  predicate SameKept(want: Want, kept: Kept) { kept.AsSent? && Same(want, kept.value) }

  /** The verdict over what was kept; the matched names are already settled. */
  function PayloadMismatches(expected: Option<Contract>, body: Option<Body>): multiset<string> {
    if expected.None? then multiset{"payload_expectation_unavailable"}
    else if body.None? then multiset{"body_unreadable"}
    else
      var pending := expected.value.Keys - body.value.matched;
      Differing((set n | n in pending && !(n in body.value.kept && SameKept(expected.value[n], body.value.kept[n]))),
                body.value.kept.Keys - pending)
  }

  // ----- the verdict is kept ----------------------------------------------------------------------------------------

  /**
    A want the redaction can judge: no shape that accepts a non-empty list or an object, and no list want that accepts
    anything but text in its elements.
  */
  ghost predicate Judgeable(want: Want) {
    match want
    case Exact(_) => true
    case Shape(matches) => forall v: Json :: IsLeaf(v) && matches(v) ==> !v.Obj? && (v.List? ==> v.items == [])
    case Each(wants) => forall items: seq<Json> :: Same(want, List(items)) ==> AllText(items)
  }

  lemma TextOkIsSame(want: Want, s: string)
    ensures TextOk(want, s) <==> Same(want, Str(s))
  {
  }

  lemma IdentifyingOkIsSame(want: Want, v: Json)
    requires Identifying(v) && (want.Shape? ==> !v.List?)
    ensures IdentifyingOk(Some(want), v) <==> Same(want, v)
  {
    match v
    case Str(s) => TextOkIsSame(want, s);
    case List(items) =>
      if want.Each? && |want.wants| == |items| {
        forall i | 0 <= i < |items| ensures TextOk(want.wants[i], items[i].s) <==> Same(want.wants[i], items[i]) {
          TextOkIsSame(want.wants[i], items[i].s);
        }
      }
  }

  /** One field: right in the body exactly when it was matched away or is right in what was kept. */
  lemma FieldVerdictKept(expected: Contract, name: string, v: Json)
    requires name in expected && Judgeable(expected[name]) && IsLeaf(v)
    ensures Same(expected[name], v) <==> Matches(expected, name, v) || SameKept(expected[name], Stored(name, v))
  {
    var want := expected[name];
    if KeptAsSent(name, v) {
    } else if Identifying(v) && !(want.Shape? && v.List?) {
      IdentifyingOkIsSame(want, v);
    } else if v.List? {
      assert v == List(v.items) && v.items != [];
    }
  }

  lemma {:induction false} FlatIsLeaves(fields: seq<Field>, prefix: string)
    ensures forall n :: n in Flatten(fields, prefix) ==> IsLeaf(Flatten(fields, prefix)[n])
    decreases fields
  {
    if fields != [] {
      if !IsLeaf(fields[0].value) { FlatIsLeaves(fields[0].value.fields, Named(prefix, fields[0].key)); }
      FlatIsLeaves(fields[1..], prefix);
    }
  }

  lemma VerdictKept(expected: Contract, body: Json)
    requires body.Obj? && forall n :: n in expected ==> Judgeable(expected[n])
    ensures PayloadMismatches(Some(expected), Some(RedactedBody(Flatten(body.fields, ""), expected)))
         == ComparePayload(expected, body)
  {
    var flat := Flatten(body.fields, "");
    var redacted := RedactedBody(flat, expected);
    var pending := expected.Keys - redacted.matched;
    FlatIsLeaves(body.fields, "");
    forall n | n in expected && n in flat
      ensures Same(expected[n], flat[n]) <==> Matches(expected, n, flat[n]) || SameKept(expected[n], Stored(n, flat[n]))
    {
      FieldVerdictKept(expected, n, flat[n]);
    }
    assert (set n | n in pending && !(n in redacted.kept && SameKept(expected[n], redacted.kept[n])))
        == (set n | n in expected && !(n in flat && Same(expected[n], flat[n])));
    assert redacted.kept.Keys - pending == flat.Keys - expected.Keys;
  }

  /** A leaf that tells the two verdicts apart when a want is not judgeable. */
  lemma UnjudgeableWitness(want: Want) returns (v: Json)
    requires !Judgeable(want)
    ensures Same(want, v) && !IsScalar(v) && IsLeaf(v)
    ensures v.List? ==> v.items != [] && (want.Shape? || !AllText(v.items))
    ensures v.Obj? ==> want.Shape?
  {
    match want
    case Shape(matches) => v :| IsLeaf(v) && matches(v) && (v.Obj? || (v.List? && v.items != []));
    case Each(wants) =>
      var items :| Same(want, List(items)) && !AllText(items);
      v := List(items);
  }

  /**
    The redacted verdict equals the plain one on every body exactly when every want is judgeable.
  */
  lemma VerdictKeptExactly(expected: Contract)
    ensures (forall n :: n in expected ==> Judgeable(expected[n]))
      <==> (forall body: Json :: body.Obj? ==>
              PayloadMismatches(Some(expected), Some(RedactedBody(Flatten(body.fields, ""), expected)))
              == ComparePayload(expected, body))
  {
    if forall n :: n in expected ==> Judgeable(expected[n]) {
      forall body: Json | body.Obj?
        ensures PayloadMismatches(Some(expected), Some(RedactedBody(Flatten(body.fields, ""), expected)))
             == ComparePayload(expected, body)
      {
        VerdictKept(expected, body);
      }
    } else {
      var n :| n in expected && !Judgeable(expected[n]);
      var v := UnjudgeableWitness(expected[n]);
      VerdictsDiffer(expected, n, v);
      assert Obj([Field(n, v)]).Obj?;
    }
  }

  lemma DifferingHas(wrong: set<string>, unexpected: set<string>, n: string)
    requires n in wrong
    ensures Differing(wrong, unexpected)[n] >= 1
  {
  }

  lemma NotDiffering(wrong: set<string>, n: string)
    requires n !in wrong
    ensures Differing(wrong, {})[n] == 0
  {
  }

  lemma HiddenIsWrong(expected: Contract, body: Body, n: string)
    requires n in expected && n !in body.matched && n in body.kept && body.kept[n].Hidden?
    ensures PayloadMismatches(Some(expected), Some(body))[n] >= 1
  {
    var pending := expected.Keys - body.matched;
    DifferingHas((set m | m in pending && !(m in body.kept && SameKept(expected[m], body.kept[m]))),
      body.kept.Keys - pending, n);
  }

  lemma OneField(n: string, v: Json)
    requires IsLeaf(v)
    ensures Flatten([Field(n, v)], "") == map[n := v]
  {
  }

  lemma RightIsNotNamed(expected: Contract, n: string, v: Json)
    requires n in expected && Same(expected[n], v) && IsLeaf(v)
    ensures ComparePayload(expected, Obj([Field(n, v)]))[n] == 0
  {
    OneField(n, v);
    var flat := Flatten([Field(n, v)], "");
    assert flat.Keys - expected.Keys == {};
    NotDiffering((set m | m in expected && !(m in flat && Same(expected[m], flat[m]))), n);
  }

  lemma LostInRedaction(expected: Contract, n: string, v: Json)
    requires n in expected && Same(expected[n], v) && !IsScalar(v) && IsLeaf(v)
    requires v.List? ==> v.items != [] && (expected[n].Shape? || !AllText(v.items))
    ensures n !in RedactedBody(map[n := v], expected).matched
    ensures n in RedactedBody(map[n := v], expected).kept && RedactedBody(map[n := v], expected).kept[n].Hidden?
  {
  }

  lemma VerdictsDiffer(expected: Contract, n: string, v: Json)
    requires n in expected && Same(expected[n], v) && !IsScalar(v) && IsLeaf(v)
    requires v.List? ==> v.items != [] && (expected[n].Shape? || !AllText(v.items))
    ensures PayloadMismatches(Some(expected), Some(RedactedBody(Flatten([Field(n, v)], ""), expected)))
         != ComparePayload(expected, Obj([Field(n, v)]))
  {
    OneField(n, v);
    LostInRedaction(expected, n, v);
    HiddenIsWrong(expected, RedactedBody(map[n := v], expected), n);
    RightIsNotNamed(expected, n, v);
  }

  // ----- when a name is reported ------------------------------------------------------------------------------------

  /**
    The value is not what is wanted: another value or type, or not-a-number; no list, one of another length or with an
    element that is not what is wanted; or a value the shape rejects.
  */
  ghost predicate Mistaken(want: Want, v: Json)
    decreases want
  {
    match want
    case Exact(value) => v != value || v == Num(NotANumber)
    case Shape(matches) => !matches(v)
    case Each(wants) =>
      !v.List? || |v.items| != |wants|
      || exists i :: 0 <= i < |wants| && i < |v.items| && Mistaken(wants[i], v.items[i])
  }

  lemma {:induction false} MistakenExactly(want: Want, v: Json)
    ensures Mistaken(want, v) <==> !Same(want, v)
    decreases want
  {
    if want.Each? && v.List? && |want.wants| == |v.items| {
      forall i | 0 <= i < |want.wants| ensures Mistaken(want.wants[i], v.items[i]) <==>
        !Same(want.wants[i], v.items[i]) {
        MistakenExactly(want.wants[i], v.items[i]);
      }
    }
  }

  /** The wanted name is missing from the body or its value is not what is wanted. */
  ghost predicate ReportedWrong(expected: Contract, flat: map<string, Json>, name: string) {
    name in expected && (name !in flat || Mistaken(expected[name], flat[name]))
  }

  /** The name is that of a field the contract does not know, with its mark in front. */
  ghost predicate ReportedUnexpected(expected: Contract, flat: map<string, Json>, name: string) {
    exists n :: n in flat && n !in expected && name == "unexpected:" + n
  }

  lemma DifferingCounts(wrong: set<string>, unexpected: set<string>, name: string)
    ensures Differing(wrong, unexpected)[name] ==
      (if name in wrong then 1 else 0) + (if exists n :: n in unexpected && name == "unexpected:" + n then 1 else 0)
  {
    var marked := set n | n in unexpected :: "unexpected:" + n;
    assert name in marked <==> exists n :: n in unexpected && name == "unexpected:" + n;
  }

  /** Every name is reported for exactly these two causes. */
  lemma ReportedExactly(expected: Contract, body: Json, name: string)
    requires body.Obj?
    ensures var flat := Flatten(body.fields, "");
            ComparePayload(expected, body)[name] ==
              (if ReportedWrong(expected, flat, name) then 1 else 0)
              + (if ReportedUnexpected(expected, flat, name) then 1 else 0)
  {
    var flat := Flatten(body.fields, "");
    var wrong := set n | n in expected && !(n in flat && Same(expected[n], flat[n]));
    DifferingCounts(wrong, flat.Keys - expected.Keys, name);
    if name in expected && name in flat { MistakenExactly(expected[name], flat[name]); }
    assert (exists n :: n in flat.Keys - expected.Keys && name == "unexpected:" + n)
      <==> ReportedUnexpected(expected, flat, name);
  }

  /** And so is it over what the redaction kept of the body, for every contract it can judge. */
  lemma ReportedExactlyFromKept(expected: Contract, body: Json, name: string)
    requires body.Obj? && forall n :: n in expected ==> Judgeable(expected[n])
    ensures var flat := Flatten(body.fields, "");
            PayloadMismatches(Some(expected), Some(RedactedBody(flat, expected)))[name] ==
              (if ReportedWrong(expected, flat, name) then 1 else 0)
              + (if ReportedUnexpected(expected, flat, name) then 1 else 0)
  {
    VerdictKept(expected, body);
    ReportedExactly(expected, body, name);
  }

  /** The contracts in use qualify: scalars, lists of texts, and shapes that look at text or numbers only. */
  lemma UsualWantsAreJudgeable(want: Want)
    requires want.Each? ==> forall i :: 0 <= i < |want.wants| ==> want.wants[i].Exact? && want.wants[i].value.Str?
    requires want.Shape? ==> forall v: Json :: want.matches(v) ==> v.Str? || v.Num?
    ensures Judgeable(want)
  {
    if want.Each? {
      forall items: seq<Json> | Same(want, List(items)) ensures AllText(items) {
        forall i | 0 <= i < |items| ensures items[i].Str? { assert Same(want.wants[i], items[i]); }
      }
    }
  }

  /** A list of numbers does not: the body that holds exactly the wanted list is reported as wrong. */
  lemma NumberListIsMisjudged()
    ensures var expected: Contract := map["n" := Each([Exact(Num(Whole(1)))])];
            var body := Obj([Field("n", List([Num(Whole(1))]))]);
            && ComparePayload(expected, body)["n"] == 0
            && PayloadMismatches(Some(expected), Some(RedactedBody(Flatten(body.fields, ""), expected)))["n"] >= 1
  {
    var expected: Contract := map["n" := Each([Exact(Num(Whole(1)))])];
    var v := List([Num(Whole(1))]);
    assert !v.items[0].Str?;
    OneField("n", v);
    RightIsNotNamed(expected, "n", v);
    LostInRedaction(expected, "n", v);
    HiddenIsWrong(expected, RedactedBody(map["n" := v], expected), "n");
  }

  // ----- what is kept -----------------------------------------------------------------------------------------------

  /** No text is kept but the short settings, and nothing of a list or object but its type. */
  lemma NoIdentifyingTextKept(flat: map<string, Json>, expected: Contract, name: string)
    requires name in RedactedBody(flat, expected).kept && RedactedBody(flat, expected).kept[name].AsSent?
    ensures var v := RedactedBody(flat, expected).kept[name].value;
            && (v.List? ==> v.items == []) && !v.Obj?
            && (v.Str? ==>
                  |v.s| <= 40
                  && name in {
                       "accountType", "accountCountryCode", "scanningInterval", "leakedCredentialsScanningInterval",
                       "license.licenseType", "license.assetsNumber", "license.domainsNumber", "license.startDate",
                       "license.expirationDate"})
  {
  }

  /** What is hidden leaves the name of its type: of a text, a list or an object. */
  lemma HiddenLeavesItsType(flat: map<string, Json>, expected: Contract, name: string)
    requires name in RedactedBody(flat, expected).kept && RedactedBody(flat, expected).kept[name].Hidden?
    ensures name in flat && (flat[name].Str? || flat[name].List? || flat[name].Obj?)
    ensures RedactedBody(flat, expected).kept[name].kind ==
      if flat[name].Str? then "str" else if flat[name].List? then "list" else "dict"
  {
  }

  /** The values of one field are told apart only by the verdict on it. */
  predicate SameToKeep(expected: Contract, name: string, a: Json, b: Json) {
    a == b || (!KeptAsSent(name, a) && !KeptAsSent(name, b) && TypeName(a) == TypeName(b)
               && (Matches(expected, name, a) <==> Matches(expected, name, b)))
  }

  /** Two bodies whose hidden values differ leave exactly the same: nothing else of an identifying value survives. */
  lemma HiddenValuesLeaveNoTrace(expected: Contract, a: map<string, Json>, b: map<string, Json>)
    requires a.Keys == b.Keys && forall n :: n in a ==> SameToKeep(expected, n, a[n], b[n])
    ensures RedactedBody(a, expected) == RedactedBody(b, expected)
  {
  }

  // ----- the flat names ---------------------------------------------------------------------------------------------

  /** `path` leads from the fields to a leaf. */
  ghost predicate LeadsToLeaf(fields: seq<Field>, path: seq<string>)
    decreases |path|, 0
  {
    path != [] && exists i :: 0 <= i < |fields| && fields[i].key == path[0] && LeafAt(fields[i].value, path[1..])
  }

  ghost predicate LeafAt(v: Json, path: seq<string>)
    decreases |path|, 1
  {
    if path == [] then IsLeaf(v) else !IsLeaf(v) && LeadsToLeaf(v.fields, path)
  }

  function Joined(prefix: string, path: seq<string>): string
    decreases path
  {
    if path == [] then prefix else Joined(Named(prefix, path[0]), path[1..])
  }

  /** The flat names are exactly the dotted paths of the leaves. */
  lemma {:induction false} FlatNamesSound(fields: seq<Field>, prefix: string, name: string) returns (path: seq<string>)
    requires name in Flatten(fields, prefix)
    ensures LeadsToLeaf(fields, path) && Joined(prefix, path) == name
    decreases fields
  {
    var v, first := fields[0].value, Named(prefix, fields[0].key);
    if name in Flatten(fields[1..], prefix) {
      path := FlatNamesSound(fields[1..], prefix, name);
      var i :| 0 <= i < |fields[1..]| && fields[1..][i].key == path[0] && LeafAt(fields[1..][i].value, path[1..]);
      assert fields[i + 1] == fields[1..][i];
    } else if IsLeaf(v) {
      path := [fields[0].key];
      assert path[1..] == [] && LeafAt(fields[0].value, path[1..]);
    } else {
      var inner := FlatNamesSound(v.fields, first, name);
      path := [fields[0].key] + inner;
      assert path[1..] == inner && LeafAt(fields[0].value, path[1..]);
    }
  }

  lemma {:induction false} FlatNamesComplete(fields: seq<Field>, prefix: string, path: seq<string>)
    requires LeadsToLeaf(fields, path)
    ensures Joined(prefix, path) in Flatten(fields, prefix)
    decreases fields
  {
    var i :| 0 <= i < |fields| && fields[i].key == path[0] && LeafAt(fields[i].value, path[1..]);
    if i == 0 {
      if path[1..] == [] {
        assert Joined(prefix, path) == Named(prefix, path[0]);
      } else {
        FlatNamesComplete(fields[0].value.fields, Named(prefix, path[0]), path[1..]);
      }
    } else {
      assert fields[1..][i - 1] == fields[i];
      FlatNamesComplete(fields[1..], prefix, path);
    }
  }

  /** Joined keys are the keys with dots between them; only leading empty keys leave no dot. */
  lemma {:induction false} JoinedExactly(prefix: string, path: seq<string>)
    requires path != [] && (prefix != "" || path[0] != "")
    ensures Joined(prefix, path) == (if prefix == "" then "" else prefix + ".") + Dotted(path)
    decreases path
  {
    var name := Named(prefix, path[0]);
    if |path| == 1 {
      assert Joined(name, path[1..]) == name;
    } else {
      JoinedExactly(name, path[1..]);
      assert Dotted(path) == path[0] + "." + Dotted(path[1..]);
    }
  }

  /** The leaves with their flat names, in the order of the body. */
  function Leaves(fields: seq<Field>, prefix: string): seq<(string, Json)>
    decreases fields
  {
    if fields == [] then [] else
    var name, v := Named(prefix, fields[0].key), fields[0].value;
    (if IsLeaf(v) then [(name, v)] else Leaves(v.fields, name)) + Leaves(fields[1..], prefix)
  }

  predicate LastLeaf(leaves: seq<(string, Json)>, i: nat, name: string, v: Json) {
    i < |leaves| && leaves[i] == (name, v) && forall j :: i < j < |leaves| ==> leaves[j].0 != name
  }

  predicate HoldsLast(flat: map<string, Json>, leaves: seq<(string, Json)>, name: string) {
    if name in flat then exists i: nat :: i < |leaves| && LastLeaf(leaves, i, name, flat[name])
    else forall i :: 0 <= i < |leaves| ==> leaves[i].0 != name
  }

  lemma LaterWins(a: map<string, Json>, b: map<string, Json>, first: seq<(string, Json)>, rest: seq<(string, Json)>,
      name: string)
    requires HoldsLast(a, first, name) && HoldsLast(b, rest, name)
    ensures HoldsLast(a + b, first + rest, name)
  {
    var all := first + rest;
    if name in b {
      var i: nat :| i < |rest| && LastLeaf(rest, i, name, b[name]);
      forall j | |first| + i < j < |all| ensures all[j].0 != name { assert all[j] == rest[j - |first|]; }
      assert LastLeaf(all, |first| + i, name, b[name]) && (a + b)[name] == b[name];
    } else if name in a {
      var i: nat :| i < |first| && LastLeaf(first, i, name, a[name]);
      forall j | |first| <= j < |all| ensures all[j].0 != name { assert all[j] == rest[j - |first|]; }
      assert LastLeaf(all, i, name, a[name]) && (a + b)[name] == a[name];
    } else {
      assert name !in a + b;
    }
  }

  /** Where two leaves have one flat name, the later one in the body is compared and kept. */
  lemma {:induction false} FlatIsLastLeaf(fields: seq<Field>, prefix: string, name: string)
    ensures HoldsLast(Flatten(fields, prefix), Leaves(fields, prefix), name)
    decreases fields
  {
    if fields != [] {
      var first, v := Named(prefix, fields[0].key), fields[0].value;
      FlatIsLastLeaf(fields[1..], prefix, name);
      var leaves := if IsLeaf(v) then [(first, v)] else Leaves(v.fields, first);
      var flat := if IsLeaf(v) then map[first := v] else Flatten(v.fields, first);
      if IsLeaf(v) {
        assert first == name ==> LastLeaf(leaves, 0, name, v);
      } else {
        FlatIsLastLeaf(v.fields, first, name);
      }
      LaterWins(flat, Flatten(fields[1..], prefix), leaves, Leaves(fields[1..], prefix), name);
    }
  }

  /** A body that is no object lacks every name; without a contract or a body the verdict is that alone. */
  lemma NothingToCompare(expected: Contract, observed: Json, body: Option<Body>)
    requires !observed.Obj?
    ensures forall name :: ComparePayload(expected, observed)[name] == if name in expected then 1 else 0
    ensures PayloadMismatches(None, body) == multiset{"payload_expectation_unavailable"}
    ensures PayloadMismatches(Some(expected), None) == multiset{"body_unreadable"}
  {
  }
}
