/** The record files: sanitized field by field, written under a name no file had, and checked again when loaded. */
module CreateRecord {
  import opened Wrappers
  import opened Text
  import opened Secrets
  import opened Sanitizer

  /** The names of a record's fields; `Unknown` stands for every name that is not one of them. */
  datatype Field =
    | CoReference | Outcome | RecordedAt | Redactions
    | Route | ApprovalRef | RefusalReason | TenantName | AccountId | AccountUuid | PlanSummary | SalesforceRevision
    | SearchControl | Operator
    | Domains | ResponseShape | ReadbackMismatches | PayloadMismatches | BlockedRequests
    | FormFieldsChecked | AdvancedSection | AdvancedControls | AdvancedMismatches | ObservationNotes
    | Unknown(name: string)

  predicate IsScalar(f: Field) {
    f.Route? || f.ApprovalRef? || f.RefusalReason? || f.TenantName? || f.AccountId? || f.AccountUuid? || f.PlanSummary?
    || f.SalesforceRevision? || f.SearchControl? || f.Operator?
  }

  predicate IsList(f: Field) {
    f.Domains? || f.ResponseShape? || f.ReadbackMismatches? || f.PayloadMismatches? || f.BlockedRequests?
  }

  predicate IsReserved(f: Field) { f.CoReference? || f.Outcome? || f.RecordedAt? || f.Redactions? }

  const OUTCOMES := {"dry_run_passed", "refused", "created_unverified", "readback_verified", "uncertain_submit",
                     "attempt_started", "owner_review_cleared"}

  // ----- lists and tables -------------------------------------------------------------------------------------------

  function CleanerOf(f: Field): Cleaner {
    match f
    case RefusalReason => Reason
    case PayloadMismatches => PayloadName
    case BlockedRequests => BlockedRequest
    case ResponseShape => Name
    case ReadbackMismatches => Name
    case Domains => FreeText
    case _ => Free
  }

  function FirstOf<T>(items: seq<T>): (r: seq<T>)
    ensures |r| <= MAX_ITEMS && (|items| <= MAX_ITEMS ==> r == items)
  {
    if |items| <= MAX_ITEMS then items else items[..MAX_ITEMS]
  }

  type Cleaning = Value -> Option<string>

  function CleaningOf(c: Cleaner): Cleaning { v => Cleaned(c, v) }

  /** The cleaned items; with `drop`, redacted ones are left out. */
  function Collected(clean: Cleaning, items: seq<Value>, drop: bool): (r: seq<string>)
    ensures |r| <= |items|
  {
    if items == [] then [] else
    var head := clean(items[0]);
    if head.None? || (drop && head.value == REDACTED) then Collected(clean, items[1..], drop)
    else [head.value] + Collected(clean, items[1..], drop)
  }

  function CleanItems(c: Cleaner, items: seq<Value>, drop: bool): seq<string> { Collected(CleaningOf(c), items, drop) }

  function Texts(items: seq<string>): seq<Value> {
    seq(|items|, i requires 0 <= i < |items| => Value.Text(items[i]))
  }

  /** Every text is its own cleaned text. */
  predicate OwnClean(clean: Cleaning, items: seq<string>, drop: bool) {
    forall i :: 0 <= i < |items| ==> clean(Value.Text(items[i])) == Some(items[i]) && (drop ==> items[i] != REDACTED)
  }

  predicate CleansTwice(clean: Cleaning, v: Value) {
    clean(v).Some? ==> clean(Value.Text(clean(v).value)) == clean(v)
  }

  lemma {:induction false} CollectedAreOwnClean(clean: Cleaning, items: seq<Value>, drop: bool)
    requires forall i :: 0 <= i < |items| ==> CleansTwice(clean, items[i])
    ensures OwnClean(clean, Collected(clean, items, drop), drop)
  {
    if items != [] {
      assert CleansTwice(clean, items[0]);
      forall i | 0 <= i < |items[1..]| ensures CleansTwice(clean, items[1..][i]) {
        assert CleansTwice(clean, items[i + 1]);
      }
      CollectedAreOwnClean(clean, items[1..], drop);
    }
  }

  lemma {:induction false} OwnCleanStay(clean: Cleaning, items: seq<string>, drop: bool)
    requires OwnClean(clean, items, drop)
    ensures Collected(clean, Texts(items), drop) == items
  {
    if items != [] {
      OwnCleanStay(clean, items[1..], drop);
      assert Texts(items)[1..] == Texts(items[1..]);
      assert [items[0]] + items[1..] == items;
    }
  }

  /** A cleaned list is its own cleaned list. */
  lemma CleanItemsStay(c: Cleaner, items: seq<Value>, drop: bool)
    ensures CleanItems(c, Texts(CleanItems(c, items, drop)), drop) == CleanItems(c, items, drop)
  {
    forall i | 0 <= i < |items| ensures CleansTwice(CleaningOf(c), items[i]) {
      if Cleaned(c, items[i]).Some? { CleanedTwice(c, items[i]); }
    }
    CollectedAreOwnClean(CleaningOf(c), items, drop);
    OwnCleanStay(CleaningOf(c), CleanItems(c, items, drop), drop);
  }

  datatype TableKind = Checks | Controls | Observations

  const VERDICTS := {"pass", "fail"}
  const STATES := {"on", "off", "absent"}

  /** The row an entry leaves in a table, if any. */
  function Noted(kind: TableKind, e: Entry): Option<(string, string)> {
    match kind
    case Checks =>
      var key := Cleaned(Name, e.key);
      if key.None? then None
      else Some((key.value, if e.value.Text? && e.value.s in VERDICTS then e.value.s else "fail"))
    case Controls =>
      var key := Cleaned(Name, e.key);
      if key.Some? && key.value != REDACTED && e.value.Text? && e.value.s in STATES then Some((key.value, e.value.s))
      else None
    case Observations =>
      if e.key.Text? && ReasonShape(e.key.s) && e.value.Text? && TokenShape(e.value.s) then Some((e.key.s, e.value.s))
      else None
  }

  /** An entry that a second pass leaves as it is. */
  predicate Settled(kind: TableKind, k: string, v: string) {
    Noted(kind, Entry(Value.Text(k), Value.Text(v))) == Some((k, v))
  }

  lemma NotedSettles(kind: TableKind, e: Entry)
    requires Noted(kind, e).Some?
    ensures Settled(kind, Noted(kind, e).value.0, Noted(kind, e).value.1)
  {
    if !kind.Observations? { CleanedTwice(Name, e.key); }
  }

  type Line = Option<(string, string)>

  /** The table the lines leave, a later line replacing an earlier one of the same key. */
  function FoldLines(lines: seq<Line>): (m: map<string, string>)
    ensures |m| <= |lines|
  {
    if lines == [] then map[] else
    var before, last := FoldLines(lines[..|lines| - 1]), lines[|lines| - 1];
    if last.None? then before
    else
      GrowsByOne(before, last.value.0, last.value.1);
      before[last.value.0 := last.value.1]
  }

  predicate HasLine(lines: seq<Line>, k: string, v: string) { Some((k, v)) in lines }

  lemma {:induction false} FoldedFromLine(lines: seq<Line>, k: string)
    requires k in FoldLines(lines)
    ensures HasLine(lines, k, FoldLines(lines)[k])
  {
    var before, last := lines[..|lines| - 1], lines[|lines| - 1];
    assert lines == before + [last];
    if last.None? || last.value.0 != k { FoldedFromLine(before, k); }
  }

  function Lines(kind: TableKind, entries: seq<Entry>): seq<Line> {
    seq(|entries|, i requires 0 <= i < |entries| => Noted(kind, entries[i]))
  }

  function Fold(kind: TableKind, entries: seq<Entry>): map<string, string> { FoldLines(Lines(kind, entries)) }

  lemma FoldSettles(kind: TableKind, entries: seq<Entry>)
    ensures |Fold(kind, entries)| <= |entries|
    ensures forall k :: k in Fold(kind, entries) ==> Settled(kind, k, Fold(kind, entries)[k])
  {
    forall k | k in Fold(kind, entries) ensures Settled(kind, k, Fold(kind, entries)[k]) {
      FoldedFromLine(Lines(kind, entries), k);
      var i :| 0 <= i < |entries| && Lines(kind, entries)[i] == Some((k, Fold(kind, entries)[k]));
      NotedSettles(kind, entries[i]);
    }
  }

  lemma GrowsByOne(m: map<string, string>, k: string, v: string)
    ensures |m[k := v]| <= |m| + 1
  {
    assert m[k := v].Keys == m.Keys + {k};
  }

  /** The entries list the table: each key once, with its value, in any order. */
  predicate ListsTable(entries: seq<Entry>, m: map<string, string>) {
    && |entries| == |m|
    && (forall i :: 0 <= i < |entries| ==>
          entries[i].key.Text? && entries[i].key.s in m && entries[i].value == Value.Text(m[entries[i].key.s]))
    && (forall i, j :: 0 <= i < j < |entries| ==> entries[i].key != entries[j].key)
  }

  /** Lines of different keys, all of the table, fold to as many rows of it. */
  lemma {:induction false} FoldWithin(lines: seq<Line>, m: map<string, string>)
    requires forall i :: 0 <= i < |lines| ==>
      lines[i].Some? && lines[i].value.0 in m && lines[i].value.1 == m[lines[i].value.0]
    requires forall i, j :: 0 <= i < j < |lines| ==> lines[i] != lines[j]
    ensures forall k :: k in FoldLines(lines) ==> k in m && FoldLines(lines)[k] == m[k]
    ensures |FoldLines(lines)| == |lines|
  {
    if lines != [] {
      var init, last := lines[..|lines| - 1], lines[|lines| - 1];
      FoldWithin(init, m);
      var before, key := FoldLines(init), last.value.0;
      if key in before {
        FoldedFromLine(init, key);
        assert false;
      }
      assert before[key := m[key]].Keys == before.Keys + {key};
    }
  }

  lemma {:induction false} SameSizeSubset(a: set<string>, b: set<string>)
    requires a <= b && |a| == |b|
    ensures a == b
  {
    if a != {} {
      var x :| x in a;
      SameSizeSubset(a - {x}, b - {x});
    }
  }

  /** A clean table, read back in any order, folds to itself. */
  lemma FoldStays(kind: TableKind, entries: seq<Entry>, m: map<string, string>)
    requires ListsTable(entries, m) && forall k :: k in m ==> Settled(kind, k, m[k])
    ensures Fold(kind, entries) == m
  {
    forall i | 0 <= i < |entries| ensures Noted(kind, entries[i]) == Some((entries[i].key.s, m[entries[i].key.s])) {
      assert Settled(kind, entries[i].key.s, m[entries[i].key.s]);
      assert entries[i] == Entry(Value.Text(entries[i].key.s), Value.Text(m[entries[i].key.s]));
    }
    FoldWithin(Lines(kind, entries), m);
    SameSizeSubset(Fold(kind, entries).Keys, m.Keys);
  }

  // ----- one field --------------------------------------------------------------------------------------------------

  /** What a field leaves in the record, None when it leaves nothing. */
  function FieldOf(f: Field, v: Value): Option<Kept> {
    if IsScalar(f) then
      var text := Cleaned(CleanerOf(f), v);
      if text.Some? then Some(KeptText(text.value)) else None
    else if IsList(f) then
      if v.Items? then Some(KeptList(CleanItems(CleanerOf(f), FirstOf(v.items), false))) else None
    else
      match f
      case AdvancedMismatches => if v.Items? then Some(KeptList(CleanItems(Name, FirstOf(v.items), true))) else None
      case FormFieldsChecked => if v.Table? then Some(KeptTable(Fold(Checks, FirstOf(v.entries)))) else None
      case AdvancedControls => if v.Table? then Some(KeptTable(Fold(Controls, FirstOf(v.entries)))) else None
      case ObservationNotes => if v.Table? then Some(KeptTable(Fold(Observations, FirstOf(v.entries)))) else None
      case AdvancedSection =>
        if v == Value.Text("found") || v == Value.Text("not_found") then Some(KeptText(v.s)) else None
      case _ => None
  }

  /** `v` is `kept` as it reads back from the file; a table may come back in any order. */
  predicate ReadsAs(v: Value, kept: Kept) {
    match kept
    case KeptText(s) => v == Value.Text(s)
    case KeptList(items) => v == Items(Texts(items))
    case KeptTable(table) => v.Table? && ListsTable(v.entries, table)
  }

  /** A field that was kept is kept again unchanged after reading back. */
  lemma FieldStays(f: Field, v: Value, w: Value)
    requires FieldOf(f, v).Some? && ReadsAs(w, FieldOf(f, v).value)
    ensures FieldOf(f, w) == FieldOf(f, v)
  {
    var kept := FieldOf(f, v).value;
    if IsScalar(f) {
      CleanedTwice(CleanerOf(f), v);
    } else if kept.KeptList? {
      CleanItemsStay(if f.AdvancedMismatches? then Name else CleanerOf(f), FirstOf(v.items), f.AdvancedMismatches?);
    } else if kept.KeptTable? {
      var kind := if f.FormFieldsChecked? then Checks else if f.AdvancedControls? then Controls else Observations;
      FoldSettles(kind, FirstOf(v.entries));
      FoldStays(kind, w.entries, kept.table);
    }
  }

  predicate TextTable(v: Value, values: set<string>) {
    v.Table? && forall i :: 0 <= i < |v.entries| ==>
      v.entries[i].key.Text? && v.entries[i].value.Text? && v.entries[i].value.s in values
  }

  predicate TextList(v: Value) { v.Items? && forall i :: 0 <= i < |v.items| ==> v.items[i].Text? }

  lemma CheckedTableStays(v: Value, w: Value)
    requires v.Table? && ReadsAs(w, KeptTable(Fold(Checks, FirstOf(v.entries))))
    ensures TextTable(w, VERDICTS)
  {
    var table := Fold(Checks, FirstOf(v.entries));
    FoldSettles(Checks, FirstOf(v.entries));
    forall i | 0 <= i < |w.entries| ensures w.entries[i].value.Text? && w.entries[i].value.s in VERDICTS {
      assert Settled(Checks, w.entries[i].key.s, table[w.entries[i].key.s]);
    }
  }

  /** The type the loader asks of a field. */
  predicate TypeFine(f: Field, w: Value) {
    (IsScalar(f) ==> w.Text?) && (IsList(f) ==> TextList(w)) && (f.FormFieldsChecked? ==> TextTable(w, VERDICTS))
  }

  /** A field read back has that type. */
  lemma FieldTypeStays(f: Field, v: Value, w: Value)
    requires FieldOf(f, v).Some? && ReadsAs(w, FieldOf(f, v).value)
    ensures TypeFine(f, w)
  {
    if f.FormFieldsChecked? { CheckedTableStays(v, w); }
  }

  type Raw = map<Field, Value>

  type Fields = map<Field, Kept>

  type Rule = (Field, Value) -> Option<Kept>

  /** The record a rule leaves: every field by itself. */
  function KeptBy(rule: Rule, data: Raw): Fields {
    map f | f in data && rule(f, data[f]).Some? :: rule(f, data[f]).value
  }

  function Sanitized(data: Raw): Fields { KeptBy(FieldOf, data) }

  /** The fields in the order they are cleaned. */
  const ORDER: seq<Field> := [
    Route, ApprovalRef, RefusalReason, TenantName, AccountId, AccountUuid, PlanSummary, SalesforceRevision,
    SearchControl, Operator,
    Domains, ResponseShape, ReadbackMismatches, PayloadMismatches, BlockedRequests,
    FormFieldsChecked, AdvancedSection, AdvancedControls, AdvancedMismatches, ObservationNotes]

  lemma OnlyOrderedFieldsKeep(f: Field, v: Value)
    requires FieldOf(f, v).Some?
    ensures f in ORDER
  {
  }

  function CountItems(c: Cleaner, items: seq<Value>): nat {
    if items == [] then 0 else (if Redacts(c, items[0]) then 1 else 0) + CountItems(c, items[1..])
  }

  function CountKeys(entries: seq<Entry>): nat {
    if entries == [] then 0 else (if Redacts(Name, entries[0].key) then 1 else 0) + CountKeys(entries[1..])
  }

  /** How many values of a field are replaced. */
  function CountField(f: Field, v: Value): nat {
    if IsScalar(f) then (if Redacts(CleanerOf(f), v) then 1 else 0)
    else if IsList(f) && v.Items? then CountItems(CleanerOf(f), FirstOf(v.items))
    else if f.AdvancedMismatches? && v.Items? then CountItems(Name, FirstOf(v.items))
    else if (f.FormFieldsChecked? || f.AdvancedControls?) && v.Table? then CountKeys(FirstOf(v.entries))
    else 0
  }

  function CountFields(data: Raw, fields: seq<Field>): nat {
    if fields == [] then 0 else
    var last := fields[|fields| - 1];
    CountFields(data, fields[..|fields| - 1]) + (if last in data then CountField(last, data[last]) else 0)
  }

  /** The count a record carries. */
  function Redacted(data: Raw): nat { CountFields(data, ORDER) }

  /** What a rule leaves of these fields, one after the other. */
  function KeptOver(rule: Rule, data: Raw, fields: seq<Field>): Fields {
    if fields == [] then map[] else
    var before, last := KeptOver(rule, data, fields[..|fields| - 1]), fields[|fields| - 1];
    if last in data && rule(last, data[last]).Some? then before[last := rule(last, data[last]).value] else before
  }

  lemma {:induction false} KeptOverExactly(rule: Rule, data: Raw, fields: seq<Field>, f: Field)
    ensures f in KeptOver(rule, data, fields) <==> f in data && f in fields && rule(f, data[f]).Some?
    ensures f in KeptOver(rule, data, fields) ==> Some(KeptOver(rule, data, fields)[f]) == rule(f, data[f])
  {
    if fields != [] {
      var before, last := fields[..|fields| - 1], fields[|fields| - 1];
      assert fields == before + [last];
      KeptOverExactly(rule, data, before, f);
    }
  }

  /** Cleaning all fields that a rule keeps, in any fixed order, leaves the whole record. */
  lemma KeptOverIsKeptBy(rule: Rule, data: Raw, fields: seq<Field>)
    requires forall f :: f in data && rule(f, data[f]).Some? ==> f in fields
    ensures KeptOver(rule, data, fields) == KeptBy(rule, data)
  {
    forall f
      ensures f in KeptOver(rule, data, fields) <==> f in KeptBy(rule, data)
      ensures f in KeptBy(rule, data) ==> KeptOver(rule, data, fields)[f] == KeptBy(rule, data)[f]
    {
      KeptOverExactly(rule, data, fields, f);
    }
  }

  method SanitizeFields(data: Raw, fields: seq<Field>) returns (out: Fields, redactions: nat)
    ensures out == KeptOver(FieldOf, data, fields) && redactions == CountFields(data, fields)
  {
    out, redactions := map[], 0;
    for i := 0 to |fields|
      invariant out == KeptOver(FieldOf, data, fields[..i]) && redactions == CountFields(data, fields[..i])
    {
      var f := fields[i];
      assert fields[..i + 1][..i] == fields[..i];
      if f in data {
        var kept := FieldOf(f, data[f]);
        if kept.Some? { out := out[f := kept.value]; }
        redactions := redactions + CountField(f, data[f]);
      }
    }
    assert fields[..|fields|] == fields;
  }

  method Sanitize(data: Raw) returns (out: Fields, redactions: nat)
    ensures out == Sanitized(data) && redactions == Redacted(data)
  {
    out, redactions := SanitizeFields(data, ORDER);
    forall f | f in data && FieldOf(f, data[f]).Some? ensures f in ORDER { OnlyOrderedFieldsKeep(f, data[f]); }
    KeptOverIsKeptBy(FieldOf, data, ORDER);
  }

  /** The raw object reads back the fields, beside the reserved ones. */
  ghost predicate ReadsBack(raw: Raw, fields: Fields) {
    && (forall f :: f in raw <==> f in fields || IsReserved(f))
    && (forall f :: f in fields ==> f in raw && ReadsAs(raw[f], fields[f]))
  }

  lemma KeptByTwice(rule: Rule, data: Raw, raw: Raw)
    requires forall f :: f in raw <==> f in KeptBy(rule, data) || IsReserved(f)
    requires forall f :: f in KeptBy(rule, data) ==> f in raw && rule(f, raw[f]) == rule(f, data[f])
    requires forall f, v :: IsReserved(f) ==> rule(f, v).None?
    ensures KeptBy(rule, raw) == KeptBy(rule, data)
  {
  }

  lemma FieldReadsBack(data: Raw, raw: Raw, f: Field)
    requires ReadsBack(raw, Sanitized(data)) && f in raw && !IsReserved(f)
    ensures f in data && FieldOf(f, data[f]).Some? && ReadsAs(raw[f], FieldOf(f, data[f]).value)
  {
  }

  /** Sanitizing a sanitized record changes no field. */
  lemma SanitizedTwice(data: Raw, raw: Raw)
    requires ReadsBack(raw, Sanitized(data))
    ensures Sanitized(raw) == Sanitized(data)
  {
    forall f | f in Sanitized(data) ensures f in raw && FieldOf(f, raw[f]) == FieldOf(f, data[f]) {
      FieldReadsBack(data, raw, f);
      FieldStays(f, data[f], raw[f]);
    }
    KeptByTwice(FieldOf, data, raw);
  }

  // ----- writing and loading ----------------------------------------------------------------------------------------

  /** `[A-Za-z0-9][A-Za-z0-9_-]{0,39}` */
  predicate RecordCoShape(s: string) {
    1 <= |s| <= 40 && IsAlnum(s[0]) && forall i :: 0 <= i < |s| ==> IsAlnum(s[i]) || s[i] == '_' || s[i] == '-'
  }

  predicate StampShape(s: string) {
    |s| == 20 && s[4] == '-' && s[7] == '-' && s[10] == 'T' && s[13] == ':' && s[16] == ':' && s[19] == 'Z'
    && forall i :: 0 <= i < 20 && i !in {4, 7, 10, 13, 16, 19} ==> IsDigit(s[i])
  }

  datatype Error =
    | InvalidCoReference | InvalidOutcome | NameSpaceExhausted | UnexpectedShape | InvalidFields | FailedRedactionCheck

  datatype File = File(co: string, outcome: string, stamp: string, redactions: nat, fields: Fields)

  function TextOf(raw: Raw, f: Field): string {
    if f in raw && raw[f].Text? then raw[f].s else ""
  }

  /** What a record call writes, or why it refuses. */
  function FileOf(data: Raw, stamp: string): Result<File, Error> {
    var co, outcome := TextOf(data, CoReference), TextOf(data, Outcome);
    if !RecordCoShape(Strip(co)) || LooksSecret(co) then Err(InvalidCoReference)
    else if outcome !in OUTCOMES then Err(InvalidOutcome)
    else Ok(File(Strip(co), outcome, stamp, Redacted(data), Sanitized(data)))
  }

  /** `raw` is the file as it parses. */
  ghost predicate ParsesAs(raw: Raw, file: File) {
    && ReadsBack(raw, file.fields)
    && raw[CoReference] == Value.Text(file.co) && raw[Outcome] == Value.Text(file.outcome)
    && raw[RecordedAt] == Value.Text(file.stamp) && raw[Redactions] == Whole(file.redactions)
  }

  predicate ReservedFine(raw: Raw) {
    && RecordCoShape(TextOf(raw, CoReference)) && TextOf(raw, Outcome) in OUTCOMES
      && StampShape(TextOf(raw, RecordedAt))
    && Redactions in raw && raw[Redactions].Whole? && raw[Redactions].n >= 0
  }

  predicate TypesFine(raw: Raw) { forall f :: f in raw ==> TypeFine(f, raw[f]) }

  /** Nothing in the object differs from the fields that sanitizing it leaves. */
  predicate Unredacted(raw: Raw, fields: Fields) {
    && (forall f :: f in raw ==> f in fields || IsReserved(f))
    && (forall f :: f in fields ==> f in raw && ReadsAs(raw[f], fields[f]))
  }

  function Validate(raw: Raw): Result<Raw, Error> {
    if exists f :: f in raw && f.Unknown? then Err(UnexpectedShape)
    else if !ReservedFine(raw) || !TypesFine(raw) then Err(InvalidFields)
    else if !Unredacted(raw, Sanitized(raw)) then Err(FailedRedactionCheck)
    else Ok(raw)
  }

  lemma FieldTypeBack(data: Raw, raw: Raw, f: Field)
    requires ReadsBack(raw, Sanitized(data)) && f in raw
    ensures !f.Unknown? && TypeFine(f, raw[f])
  {
    if !IsReserved(f) {
      FieldReadsBack(data, raw, f);
      FieldTypeStays(f, data[f], raw[f]);
    }
  }

  lemma KeptTypes(data: Raw, raw: Raw)
    requires ReadsBack(raw, Sanitized(data))
    ensures TypesFine(raw) && forall f :: f in raw ==> !f.Unknown?
  {
    forall f | f in raw ensures !f.Unknown? && TypeFine(f, raw[f]) { FieldTypeBack(data, raw, f); }
  }

  lemma ReservedBack(data: Raw, stamp: string, raw: Raw)
    requires FileOf(data, stamp).Ok? && StampShape(stamp) && ParsesAs(raw, FileOf(data, stamp).value)
    ensures ReservedFine(raw)
  {
  }

  lemma NothingDiffers(raw: Raw, fields: Fields)
    requires ReadsBack(raw, fields)
    ensures Unredacted(raw, fields)
  {
  }

  lemma FineIsAccepted(raw: Raw)
    requires (forall f :: f in raw ==> !f.Unknown?) && ReservedFine(raw) && TypesFine(raw)
    requires Unredacted(raw, Sanitized(raw))
    ensures Validate(raw) == Ok(raw)
  {
  }

  /** Whatever the writer writes, the loader accepts, in whatever order the tables come back. */
  lemma LoadAcceptsWritten(data: Raw, stamp: string, raw: Raw)
    requires FileOf(data, stamp).Ok? && StampShape(stamp) && ParsesAs(raw, FileOf(data, stamp).value)
    ensures Validate(raw) == Ok(raw)
  {
    ReservedBack(data, stamp, raw);
    SanitizedTwice(data, raw);
    NothingDiffers(raw, Sanitized(data));
    KeptTypes(data, raw);
    FineIsAccepted(raw);
  }

  /** Every field of a loaded record is as sanitizing leaves it. */
  lemma LoadedAsKept(raw: Raw, f: Field)
    requires Validate(raw).Ok? && f in raw && !IsReserved(f)
    ensures FieldOf(f, raw[f]).Some? && ReadsAs(raw[f], FieldOf(f, raw[f]).value)
  {
    assert f in Sanitized(raw) && ReadsAs(raw[f], Sanitized(raw)[f]);
  }

  lemma KeptTextIsClean(f: Field, v: Value)
    requires IsScalar(f) && !f.RefusalReason? && FieldOf(f, v).Some? && ReadsAs(v, FieldOf(f, v).value)
    ensures v.Text? && IsClean(v.s)
  {
    FreeTextIsClean(v.s);
  }

  /** And whatever the loader accepts holds no secret in a free text field. */
  lemma LoadedHoldsNoSecret(raw: Raw, f: Field)
    requires Validate(raw).Ok? && f in raw && IsScalar(f) && !f.RefusalReason?
    ensures raw[f].Text? && !LooksSecret(raw[f].s) && |raw[f].s| <= MAX_STRING
  {
    LoadedAsKept(raw, f);
    KeptTextIsClean(f, raw[f]);
  }

  lemma {:induction false} CollectedAreClean(items: seq<Value>, drop: bool)
    ensures forall i :: 0 <= i < |Collected(CleaningOf(FreeText), items, drop)| ==>
      IsClean(Collected(CleaningOf(FreeText), items, drop)[i])
  {
    if items != [] {
      CollectedAreClean(items[1..], drop);
      if items[0].Text? { FreeTextIsClean(items[0].s); }
    }
  }

  lemma KeptDomainsAreClean(v: Value, i: nat)
    requires FieldOf(Domains, v).Some? && ReadsAs(v, FieldOf(Domains, v).value)
    ensures v.Items? && |v.items| <= MAX_ITEMS && (i < |v.items| ==> v.items[i].Text? && IsClean(v.items[i].s))
  {
    CollectedAreClean(FirstOf(v.items), false);
  }

  /** Nor does any item of its list of domains, which is free text too. */
  lemma LoadedDomainsHoldNoSecret(raw: Raw, i: nat)
    requires Validate(raw).Ok? && Domains in raw
    ensures raw[Domains].Items? && |raw[Domains].items| <= MAX_ITEMS
    ensures i < |raw[Domains].items| ==>
      var item := raw[Domains].items[i];
      item.Text? && !LooksSecret(item.s) && |item.s| <= MAX_STRING
  {
    LoadedAsKept(raw, Domains);
    KeptDomainsAreClean(raw[Domains], i);
  }

  // ----- the folder -------------------------------------------------------------------------------------------------

  const MAX_SUFFIX := 10_000

  function NameOf(base: string, n: nat): string {
    if n <= 1 then base + ".json" else base + "-" + Digits(n) + ".json"
  }

  /** The name is the first of its base that is not taken. */
  predicate FirstFree(base: string, taken: set<string>, name: string) {
    exists n :: 1 <= n < MAX_SUFFIX && name == NameOf(base, n) && NamesTaken(base, taken, n)
  }

  predicate NamesTaken(base: string, taken: set<string>, n: int) {
    forall k :: 1 <= k < n ==> NameOf(base, k) in taken
  }

  class Folder {
    var files: map<string, File>

    constructor ()
      ensures files == map[]
    {
      files := map[];
    }

    /** Links the file under the first free name; no file is ever replaced or removed. */
    method WriteNew(base: string, file: File) returns (written: Option<string>)
      modifies this
      ensures written.Some? ==> written.value !in old(files) && files == old(files)[written.value := file]
      ensures written.Some? ==> FirstFree(base, old(files).Keys, written.value)
      ensures written.None? ==> files == old(files) && forall k :: 1 <= k < MAX_SUFFIX ==> NameOf(base, k) in files
    {
      var counter := 1;
      while counter < MAX_SUFFIX
        invariant 1 <= counter <= MAX_SUFFIX && files == old(files)
        invariant forall k :: 1 <= k < counter ==> NameOf(base, k) in files
      {
        var final := NameOf(base, counter);
        if final !in files {
          files := files[final := file];
          return Some(final);
        }
        counter := counter + 1;
      }
      return None;
    }

    /** One record: refused without a trace, or one more file that every later load accepts. */
    method Record(data: Raw, stamp: string, compact: string) returns (result: Result<string, Error>)
      requires StampShape(stamp)
      modifies this
      ensures result.Err? ==> files == old(files)
      ensures FileOf(data, stamp).Err? ==> result.Err? && result.error == FileOf(data, stamp).error
      ensures result.Ok? ==>
        && FileOf(data, stamp).Ok? && result.value !in old(files)
        && files == old(files)[result.value := FileOf(data, stamp).value]
        && forall raw :: ParsesAs(raw, files[result.value]) ==> Validate(raw) == Ok(raw)
    {
      var co, outcome := TextOf(data, CoReference), TextOf(data, Outcome);
      if !RecordCoShape(Strip(co)) || LooksSecret(co) { return Err(InvalidCoReference); }
      if outcome !in OUTCOMES { return Err(InvalidOutcome); }
      var fields, redactions := Sanitize(data);
      var file := File(Strip(co), outcome, stamp, redactions, fields);
      var written := WriteNew(Strip(co) + "-" + compact, file);
      if written.None? { return Err(NameSpaceExhausted); }
      forall raw | ParsesAs(raw, file) ensures Validate(raw) == Ok(raw) {
        LoadAcceptsWritten(data, stamp, raw);
      }
      return Ok(written.value);
    }
  }
}
