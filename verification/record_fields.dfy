/** What each field of a create record keeps, in terms of what it was given. */
module RecordFields {
  import opened Wrappers
  import opened Text
  import opened Sanitizer
  import opened CreateRecord
  import opened Patterns
  import Secrets

  function FirstFifty<T>(items: seq<T>): seq<T> { if |items| <= 50 then items else items[..50] }

  function TextsIn(items: seq<Value>): seq<string> {
    if items == [] then [] else (if items[0].Text? then [items[0].s] else []) + TextsIn(items[1..])
  }

  // ----- machine names ----------------------------------------------------------------------------------------------

  ghost function NameOr(c: Cleaner, s: string): string {
    if Admissible(c, Strip(s)) then Strip(s) else "[redacted]"
  }

  /** The texts that are admissible, stripped, in order. */
  ghost function AdmissibleOf(c: Cleaner, texts: seq<string>): seq<string> {
    if texts == [] then []
    else (if Admissible(c, Strip(texts[0])) then [Strip(texts[0])] else []) + AdmissibleOf(c, texts[1..])
  }

  ghost function Inadmissible(c: Cleaner, texts: seq<string>): nat {
    if texts == [] then 0
    else (if Admissible(c, Strip(texts[0])) then 0 else 1) + Inadmissible(c, texts[1..])
  }

  lemma AdmissibleIsNotRedacted(c: Cleaner, s: string)
    requires c.Name?
    ensures Admissible(c, s) ==> s != "[redacted]"
  {
    NamesFitExactly(s);
    if s == "[redacted]" { assert !NameChar(s[0]); }
  }

  predicate OfName(c: Cleaner) { !c.Free? && !c.FreeText? }

  /** One value cleaned as a machine name: no text, nothing kept and nothing counted. */
  lemma NameCleaned(c: Cleaner, v: Value)
    requires OfName(c)
    ensures Cleaned(c, v) == if v.Text? then Some(NameOr(c, v.s)) else None
    ensures Redacts(c, v) <==> v.Text? && !Admissible(c, Strip(v.s))
  {
    if v.Text? { MachineNameKept(c, v.s); }
  }

  /** A cleaner that takes texts alone, each by itself, leaves the texts of a list in order. */
  lemma {:induction false} CollectedBy(clean: Cleaning, each: string -> string, items: seq<Value>)
    requires forall v :: clean(v) == if v.Text? then Some(each(v.s)) else None
    ensures |Collected(clean, items, false)| == |TextsIn(items)|
    ensures forall i :: 0 <= i < |TextsIn(items)| ==> Collected(clean, items, false)[i] == each(TextsIn(items)[i])
  {
    if items != [] {
      CollectedBy(clean, each, items[1..]);
      assert items[0].Text? ==> TextsIn(items)[1..] == TextsIn(items[1..]);
      assert !items[0].Text? ==> TextsIn(items) == TextsIn(items[1..]);
    }
  }

  lemma NamesCollected(c: Cleaner, items: seq<Value>)
    requires OfName(c)
    ensures |CleanItems(c, items, false)| == |TextsIn(items)|
    ensures forall i :: 0 <= i < |TextsIn(items)| ==> CleanItems(c, items, false)[i] == NameOr(c, TextsIn(items)[i])
  {
    forall v ensures CleaningOf(c)(v) == if v.Text? then Some(NameOr(c, v.s)) else None { NameCleaned(c, v); }
    CollectedBy(CleaningOf(c), s => NameOr(c, s), items);
  }

  lemma {:induction false} AdmissibleCollected(items: seq<Value>)
    ensures CleanItems(Sanitizer.Name, items, true) == AdmissibleOf(Sanitizer.Name, TextsIn(items))
  {
    if items != [] {
      AdmissibleCollected(items[1..]);
      NameCleaned(Sanitizer.Name, items[0]);
      if items[0].Text? {
        AdmissibleIsNotRedacted(Sanitizer.Name, Strip(items[0].s));
        assert TextsIn(items)[1..] == TextsIn(items[1..]);
      } else {
        assert TextsIn(items) == TextsIn(items[1..]);
      }
    }
  }

  lemma {:induction false} NamesCounted(c: Cleaner, items: seq<Value>)
    requires OfName(c)
    ensures CountItems(c, items) == Inadmissible(c, TextsIn(items))
  {
    if items != [] {
      NamesCounted(c, items[1..]);
      NameCleaned(c, items[0]);
      if items[0].Text? {
        assert TextsIn(items)[1..] == TextsIn(items[1..]);
      } else {
        assert TextsIn(items) == TextsIn(items[1..]);
      }
    }
  }

  /** The machine names that each list of them holds. */
  predicate HoldsNames(f: Field, c: Cleaner) {
    match f
    case ResponseShape => c.Name?
    case ReadbackMismatches => c.Name?
    case PayloadMismatches => c.PayloadName?
    case BlockedRequests => c.BlockedRequest?
    case _ => false
  }

  /**
    A list of machine names keeps the texts among its first fifty items in order, each one stripped or, when it is not
    admissible, replaced; and every replaced one is counted.
  */
  lemma NameListExactly(f: Field, c: Cleaner, v: Value)
    requires HoldsNames(f, c)
    ensures FieldOf(f, v).Some? <==> v.Items?
    ensures v.Items? ==>
      && FieldOf(f, v).value.KeptList?
      && var kept, texts := FieldOf(f, v).value.items, TextsIn(FirstFifty(v.items));
         |kept| == |texts| && (forall i :: 0 <= i < |kept| ==> kept[i] == NameOr(c, texts[i]))
         && CountField(f, v) == Inadmissible(c, texts)
  {
    if v.Items? {
      assert FirstOf(v.items) == FirstFifty(v.items);
      NamesCollected(c, FirstFifty(v.items));
      NamesCounted(c, FirstFifty(v.items));
    }
  }

  /** The mismatches of the advanced section are only the admissible ones; the others are counted all the same. */
  lemma MismatchesExactly(v: Value)
    ensures FieldOf(AdvancedMismatches, v).Some? <==> v.Items?
    ensures v.Items? ==>
      && FieldOf(AdvancedMismatches, v)
         == Some(KeptList(AdmissibleOf(Sanitizer.Name, TextsIn(FirstFifty(v.items)))))
      && CountField(AdvancedMismatches, v) == Inadmissible(Sanitizer.Name, TextsIn(FirstFifty(v.items)))
  {
    if v.Items? {
      assert FirstOf(v.items) == FirstFifty(v.items);
      AdmissibleCollected(FirstFifty(v.items));
      NamesCounted(Sanitizer.Name, FirstFifty(v.items));
    }
  }

  // ----- free text --------------------------------------------------------------------------------------------------

  /** A free text as it is kept: without control characters and at most 300 characters, or replaced. */
  function FreeOr(s: string): string {
    var plain := Strip(Uncontrolled(s, false));
    if Secrets.LooksSecret(plain) then "[redacted]" else Strip(if |plain| <= 300 then plain else plain[..300])
  }

  predicate Secret(s: string) { Secrets.LooksSecret(Strip(Uncontrolled(s, false))) }

  lemma FreeCleaned(c: Cleaner, v: Value)
    requires c.Free? || c.FreeText?
    ensures v.Text? ==> Cleaned(c, v) == Some(FreeOr(v.s)) && (Redacts(c, v) <==> Secret(v.s))
    ensures v.Whole? ==>
      Cleaned(c, v) == (if c.Free? then Some(FreeOr(Decimal(v.n))) else None)
      && (Redacts(c, v) <==> c.Free? && Secret(Decimal(v.n)))
    ensures !v.Text? && !v.Whole? ==> Cleaned(c, v).None? && !Redacts(c, v)
  {
    if v.Text? { UnredactedIsKept(c, v.s); }
    if v.Whole? { UnredactedIsKept(c, Decimal(v.n)); }
  }

  predicate HoldsFreeText(f: Field) {
    f.Route? || f.ApprovalRef? || f.TenantName? || f.AccountId? || f.AccountUuid? || f.PlanSummary?
    || f.SalesforceRevision? || f.SearchControl? || f.Operator?
  }

  /** A scalar field by its cleaner. */
  lemma ScalarByCleaner(f: Field, c: Cleaner, v: Value)
    requires if f.RefusalReason? then c.Reason? else HoldsFreeText(f) && c.Free?
    ensures FieldOf(f, v) == if Cleaned(c, v).Some? then Some(KeptText(Cleaned(c, v).value)) else None
    ensures CountField(f, v) == if Redacts(c, v) then 1 else 0
  {
  }

  /** The nine free fields keep a text, or a whole number in its digits, the secret ones replaced and counted. */
  lemma ScalarsExactly(f: Field, v: Value)
    requires HoldsFreeText(f)
    ensures var text := if v.Text? then Some(v.s) else if v.Whole? then Some(Decimal(v.n)) else None;
            && FieldOf(f, v) == (if text.Some? then Some(KeptText(FreeOr(text.value))) else None)
            && CountField(f, v) == if text.Some? && Secret(text.value) then 1 else 0
  {
    FreeCleaned(Free, v);
    ScalarByCleaner(f, Free, v);
  }

  /** The refusal reason is a machine name. */
  lemma ReasonFieldExactly(v: Value)
    ensures FieldOf(RefusalReason, v) == if v.Text? then Some(KeptText(NameOr(Reason, v.s))) else None
    ensures CountField(RefusalReason, v) == if v.Text? && !Admissible(Reason, Strip(v.s)) then 1 else 0
  {
    NameCleaned(Reason, v);
    ScalarByCleaner(RefusalReason, Reason, v);
  }

  function SecretsIn(texts: seq<string>): nat {
    if texts == [] then 0 else (if Secret(texts[0]) then 1 else 0) + SecretsIn(texts[1..])
  }

  lemma FreeCollected(items: seq<Value>)
    ensures |CleanItems(FreeText, items, false)| == |TextsIn(items)|
    ensures forall i :: 0 <= i < |TextsIn(items)| ==> CleanItems(FreeText, items, false)[i] == FreeOr(TextsIn(items)[i])
  {
    forall v ensures CleaningOf(FreeText)(v) == if v.Text? then Some(FreeOr(v.s)) else None {
      FreeCleaned(FreeText, v);
    }
    CollectedBy(CleaningOf(FreeText), FreeOr, items);
  }

  lemma {:induction false} SecretsCounted(items: seq<Value>)
    ensures CountItems(FreeText, items) == SecretsIn(TextsIn(items))
  {
    if items != [] {
      SecretsCounted(items[1..]);
      FreeCleaned(FreeText, items[0]);
      assert items[0].Text? ==> TextsIn(items)[1..] == TextsIn(items[1..]);
      assert !items[0].Text? ==> TextsIn(items) == TextsIn(items[1..]);
    }
  }

  /** The domains are free text: the texts among the first fifty items, the secret ones replaced and counted. */
  lemma DomainsExactly(v: Value)
    ensures FieldOf(Domains, v).Some? <==> v.Items?
    ensures v.Items? ==>
      && FieldOf(Domains, v).value.KeptList?
      && var kept, texts := FieldOf(Domains, v).value.items, TextsIn(FirstFifty(v.items));
         |kept| == |texts| && (forall i :: 0 <= i < |kept| ==> kept[i] == FreeOr(texts[i]))
         && CountField(Domains, v) == SecretsIn(texts)
  {
    if v.Items? {
      assert FirstOf(v.items) == FirstFifty(v.items);
      FreeCollected(FirstFifty(v.items));
      SecretsCounted(FirstFifty(v.items));
    }
  }

  // ----- tables -----------------------------------------------------------------------------------------------------

  /** What an entry says in its table: under a cleaned name "pass" or else "fail", a state, or an observation. */
  ghost function Says(f: Field, e: Sanitizer.Entry): Option<(string, string)> {
    if !e.key.Text? then None else
    match f
    case FormFieldsChecked =>
      Some((NameOr(Sanitizer.Name, e.key.s), if e.value == Value.Text("pass") then "pass" else "fail"))
    case AdvancedControls =>
      if Admissible(Sanitizer.Name, Strip(e.key.s)) && e.value.Text? && e.value.s in {"on", "off", "absent"}
      then Some((Strip(e.key.s), e.value.s)) else None
    case ObservationNotes =>
      if FullMatch(REASON, e.key.s) && e.value.Text? && FullMatch(TOKEN, e.value.s) then Some((e.key.s, e.value.s))
      else None
    case _ => None
  }

  predicate IsTable(f: Field, kind: TableKind) {
    match f
    case FormFieldsChecked => kind.Checks?
    case AdvancedControls => kind.Controls?
    case ObservationNotes => kind.Observations?
    case _ => false
  }

  lemma EntrySays(f: Field, kind: TableKind, e: Sanitizer.Entry)
    requires IsTable(f, kind)
    ensures Noted(kind, e) == Says(f, e)
  {
    NameCleaned(Sanitizer.Name, e.key);
    if e.key.Text? {
      AdmissibleIsNotRedacted(Sanitizer.Name, Strip(e.key.s));
      ReasonExactly(e.key.s);
    }
    if e.value.Text? { TokenShapeExactly(e.value.s); }
  }

  /** Entry `i` is the last one of the table under its key. */
  ghost predicate LastSays(f: Field, entries: seq<Sanitizer.Entry>, i: nat, k: string, x: string) {
    i < |entries| && Says(f, entries[i]) == Some((k, x))
    && forall j :: i < j < |entries| && Says(f, entries[j]).Some? ==> Says(f, entries[j]).value.0 != k
  }

  predicate LastLine(lines: seq<Line>, i: nat, k: string, x: string) {
    i < |lines| && lines[i] == Some((k, x)) && forall j :: i < j < |lines| && lines[j].Some? ==> lines[j].value.0 != k
  }

  lemma LastLineInLonger(before: seq<Line>, last: Line, i: nat, k: string, x: string)
    requires last.None? || last.value.0 != k
    ensures LastLine(before + [last], i, k, x) <==> LastLine(before, i, k, x)
  {
    var all := before + [last];
    assert all[|before|] == last && forall j :: 0 <= j < |before| ==> all[j] == before[j];
  }

  lemma LastLineIsNew(before: seq<Line>, last: Line, i: nat, k: string, x: string)
    requires last.Some? && last.value.0 == k
    ensures LastLine(before + [last], i, k, x) <==> i == |before| && last.value.1 == x
  {
    var all := before + [last];
    assert all[|before|] == last;
  }

  lemma {:induction false} FoldLinesIsLast(lines: seq<Line>, k: string, x: string)
    ensures k in FoldLines(lines) && FoldLines(lines)[k] == x <==> exists i: nat :: LastLine(lines, i, k, x)
  {
    if lines != [] {
      var before, last := lines[..|lines| - 1], lines[|lines| - 1];
      FoldLinesIsLast(before, k, x);
      assert lines == before + [last];
      if last.Some? && last.value.0 == k {
        forall i: nat ensures LastLine(lines, i, k, x) <==> i == |before| && last.value.1 == x {
          LastLineIsNew(before, last, i, k, x);
        }
        assert LastLine(lines, |before|, k, x) <==> last.value.1 == x;
      } else {
        forall i: nat ensures LastLine(lines, i, k, x) <==> LastLine(before, i, k, x) {
          LastLineInLonger(before, last, i, k, x);
        }
      }
    }
  }

  lemma FoldIsLast(f: Field, kind: TableKind, entries: seq<Sanitizer.Entry>, k: string, x: string)
    requires IsTable(f, kind)
    ensures k in Fold(kind, entries) && Fold(kind, entries)[k] == x <==> exists i: nat :: LastSays(f, entries, i, k, x)
  {
    var lines := Lines(kind, entries);
    FoldLinesIsLast(lines, k, x);
    forall i | 0 <= i < |entries| ensures lines[i] == Says(f, entries[i]) { EntrySays(f, kind, entries[i]); }
    forall i: nat ensures LastLine(lines, i, k, x) <==> LastSays(f, entries, i, k, x) {}
  }

  /**
    A table keeps of its first fifty entries what the last one under each key says; a control counts as passed only when
    the last entry under its name says so.
  */
  lemma TableExactly(f: Field, kind: TableKind, v: Value, k: string, x: string)
    requires IsTable(f, kind)
    ensures FieldOf(f, v).Some? <==> v.Table?
    ensures v.Table? ==>
      && FieldOf(f, v).value.KeptTable?
      && (k in FieldOf(f, v).value.table && FieldOf(f, v).value.table[k] == x <==>
            exists i: nat :: LastSays(f, FirstFifty(v.entries), i, k, x))
  {
    if v.Table? {
      assert FirstOf(v.entries) == FirstFifty(v.entries);
      FoldIsLast(f, kind, FirstFifty(v.entries), k, x);
    }
  }

  /** Of the advanced section only the two words are kept, and nothing of an unknown or a reserved field. */
  lemma OthersExactly(f: Field, v: Value)
    ensures f.AdvancedSection? ==>
      FieldOf(f, v) == if v == Value.Text("found") || v == Value.Text("not_found") then Some(KeptText(v.s)) else None
    ensures f.Unknown? || f.CoReference? || f.Outcome? || f.RecordedAt? || f.Redactions? ==> FieldOf(f, v).None?
    ensures f.AdvancedSection? || f.ObservationNotes? || f.Unknown? ==> CountField(f, v) == 0
  {
  }

  // ----- the file ---------------------------------------------------------------------------------------------------

  /** A record is written exactly for a reference of the right shape that is no secret and one of seven outcomes. */
  lemma FileExactly(data: Raw, stamp: string)
    ensures FileOf(data, stamp).Ok? <==>
      FullMatch(RECORD_CO, Strip(TextOf(data, CoReference))) && !Secrets.LooksSecret(TextOf(data, CoReference))
      && TextOf(data, Outcome) in {
           "dry_run_passed", "refused", "created_unverified", "readback_verified", "uncertain_submit",
             "attempt_started",
           "owner_review_cleared"}
    ensures FileOf(data, stamp).Ok? ==>
      var file := FileOf(data, stamp).value;
      && file.co == Strip(TextOf(data, CoReference)) && file.outcome == TextOf(data, Outcome) && file.stamp == stamp
      && forall f :: f in file.fields <==> f in data && FieldOf(f, data[f]).Some?
  {
    RecordCoExactly(Strip(TextOf(data, CoReference)));
  }

  /** Two numbers give one base two names. */
  lemma NamesDiffer(base: string, a: nat, b: nat)
    requires 1 <= a < b
    ensures NameOf(base, a) != NameOf(base, b)
    ensures NameOf(base, 1) == base + ".json" && NameOf(base, b) == base + "-" + Digits(b) + ".json"
  {
    DigitsExactly(a);
    DigitsExactly(b);
    assert (base + ".json")[|base|] == '.' && (base + "-" + Digits(b) + ".json")[|base|] == '-';
    NumberBetween(base, Digits(a));
    NumberBetween(base, Digits(b));
  }

  lemma NumberBetween(base: string, digits: string)
    ensures var name := base + "-" + digits + ".json"; name[|base| + 1..|name| - 5] == digits
  {
  }
}
