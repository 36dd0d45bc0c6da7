/**
  The duplicate gate over minimized tenant rows: a name or domain that matches a raw tenant is still seen after the row
  was cut down, exactly within the size limits.
*/
module DuplicateGate {
  import opened Wrappers
  import opened Text
  import opened Domains
  import opened TextOrder

  const MAX_TEXT := 512
  const MAX_ALTERNATES := 5000
  const MAX_DOMAIN := 253

  // ----- normal forms -----------------------------------------------------------------------------------------------

  function DropDots(s: string): (r: string)
    ensures r <= s && (r != [] ==> r[|r| - 1] != '.')
    ensures s == [] || s[|s| - 1] != '.' ==> r == s
  {
    if s != [] && s[|s| - 1] == '.' then DropDots(s[..|s| - 1]) else s
  }

  /** A way to fold case. */
  type Folding = string -> string

  /** The canonical form of a domain, None for anything that is not a plain domain name. */
  function CanonicalBy(fold: Folding, v: Option<string>): Option<string> {
    if v.None? then None else
    var domain := DropDots(fold(Strip(v.value)));
    if |domain| <= MAX_DOMAIN && DomainShape(domain) then Some(domain) else None
  }

  function Canonical(v: Option<string>): Option<string> { CanonicalBy(Lower, v) }

  predicate DomainChar(c: char) { IsLower(c) || IsDigit(c) || c == '-' || c == '.' }

  predicate MadeOfDomainChars(s: string) { forall i :: 0 <= i < |s| ==> DomainChar(s[i]) }

  lemma {:induction false} LabelsHold(s: string, i: nat) returns (k: nat, j: nat)
    requires i < |s| && s[i] != '.'
    ensures k < |Labels(s)| && j < |Labels(s)[k]| && Labels(s)[k][j] == s[i]
  {
    if i == 0 {
      k, j := 0, 0;
    } else {
      k, j := LabelsHold(s[1..], i - 1);
      if s[0] == '.' { k := k + 1; } else if k == 0 { j := j + 1; }
    }
  }

  /** A domain name is made of lower-case letters, digits, hyphens and dots alone. */
  lemma DomainChars(s: string)
    requires DomainShape(s)
    ensures MadeOfDomainChars(s)
  {
    forall i | 0 <= i < |s| ensures DomainChar(s[i]) {
      if s[i] != '.' {
        var k, j := LabelsHold(s, i);
        assert LabelShape(Labels(s)[k]);
      }
    }
  }

  predicate AllDots(s: string) { forall i :: 0 <= i < |s| ==> s[i] == '.' }

  lemma {:induction false} DropDotsExactly(s: string)
    ensures AllDots(s[|DropDots(s)|..])
  {
    if s != [] && s[|s| - 1] == '.' {
      DropDotsExactly(s[..|s| - 1]);
      assert s[|DropDots(s)|..] == s[..|s| - 1][|DropDots(s)|..] + ['.'];
    }
  }

  lemma {:induction false} DotsDropped(d: string, dots: string)
    requires AllDots(dots) && (d == [] || d[|d| - 1] != '.')
    ensures DropDots(d + dots) == d
  {
    if dots == [] {
      assert d + dots == d;
    } else {
      assert (d + dots)[..|d + dots| - 1] == d + dots[..|dots| - 1];
      DotsDropped(d, dots[..|dots| - 1]);
    }
  }

  lemma {:induction false} LastLabelEndsIt(labels: seq<string>)
    requires labels != [] && forall i :: 0 <= i < |labels| ==> LabelShape(labels[i])
    ensures Dotted(labels) != [] && Dotted(labels)[|Dotted(labels)| - 1] != '.'
  {
    if |labels| > 1 { LastLabelEndsIt(labels[1..]); }
  }

  /**
    The canonical form of a domain: the one domain name of at most 253 characters that the value is, in letters of any
    case, with white space around it and dots behind it.
  */
  lemma CanonicalExactly(v: Option<string>, d: string)
    ensures Canonical(v) == Some(d) <==>
      v.Some? && DomainShape(d) && |d| <= 253 && exists dots :: AllDots(dots) && Lower(Strip(v.value)) == d + dots
  {
    if v.Some? {
      var text := Lower(Strip(v.value));
      DropDotsExactly(text);
      assert text == DropDots(text) + text[|DropDots(text)|..];
      if DomainShape(d) {
        DottedLabels(d);
        LastLabelEndsIt(Labels(d));
        if dots :| AllDots(dots) && text == d + dots { DotsDropped(d, dots); }
      }
    }
  }

  /** Folding leaves what a domain name is made of, as the case folding of every alphabet does. */
  ghost predicate KeepsDomains(fold: Folding) { forall s: string :: MadeOfDomainChars(s) ==> fold(s) == s }

  lemma LowerKeepsDomains()
    ensures KeepsDomains(Lower)
  {
  }

  /** Normalising twice changes nothing, however case is folded: a canonical domain is its own canonical form. */
  lemma CanonicalIsIdempotent(fold: Folding, v: Option<string>)
    requires KeepsDomains(fold) && CanonicalBy(fold, v).Some?
    ensures CanonicalBy(fold, CanonicalBy(fold, v)) == CanonicalBy(fold, v)
  {
    var domain := CanonicalBy(fold, v).value;
    DomainChars(domain);
    assert MadeOfDomainChars(domain) && Strip(domain) == domain;
  }

  /** Case-insensitive, white space collapsed; empty for no text. */
  function NameKey(v: Option<string>): string {
    if v.Some? then Collapsed(Lower(v.value)) else ""
  }

  // ----- minimized rows ---------------------------------------------------------------------------------------------

  /** A raw tenant; None for a field that is missing or of another type, the alternates also when there is no list. */
  datatype Raw = Raw(name: Option<string>, domain: Option<string>, alternates: Option<seq<Option<string>>>)

  datatype Tenant = Tenant(name: Option<string>, domain: Option<string>, alternates: Option<set<string>>)

  function Short(v: Option<string>): Option<string> {
    if v.Some? && |v.value| <= MAX_TEXT then v else None
  }

  function CanonicalSet(values: seq<Option<string>>): set<string> {
    set i | 0 <= i < |values| && Canonical(values[i]).Some? :: Canonical(values[i]).value
  }

  function Below(all: set<string>, d: string): set<string> { set e | e in all && Less(e, d) }

  /** The first domains in order, as many as are kept. */
  function FirstKept(all: set<string>): (r: set<string>)
    ensures r <= all
  {
    set d | d in all && |Below(all, d)| < MAX_ALTERNATES
  }

  function Minimized(raw: Raw): Tenant {
    Tenant(Short(raw.name), Short(raw.domain),
           if raw.alternates.Some? then Some(FirstKept(CanonicalSet(raw.alternates.value))) else None)
  }

  // ----- the check --------------------------------------------------------------------------------------------------

  datatype Reason = TenantName | PrimaryDomain | AlternateDomain

  predicate NameMatches(tenant: Option<string>, co: Option<string>) {
    NameKey(co) != "" && NameKey(tenant) == NameKey(co)
  }

  /** Two names match exactly when they have the same words but for the case of ASCII letters, and any word at all. */
  lemma NameMatchesExactly(tenant: Option<string>, co: Option<string>)
    ensures NameMatches(tenant, co) <==>
      tenant.Some? && co.Some? && Words(Lower(tenant.value)) == Words(Lower(co.value)) && Words(Lower(co.value)) != []
  {
    if co.Some? {
      CollapsedJoinsWords(Lower(co.value));
      if tenant.Some? { SameCollapsed(Lower(tenant.value), Lower(co.value)); }
    }
  }

  predicate DomainMatches(domain: Option<string>, wanted: set<string>) {
    Canonical(domain).Some? && Canonical(domain).value in wanted
  }

  /** A tenant as the check reads it: the name and the primary domain in their normal forms. */
  datatype Keyed = Keyed(name: string, domain: Option<string>, alternates: Option<set<string>>)

  function Keys(t: Tenant): Keyed { Keyed(NameKey(t.name), Canonical(t.domain), t.alternates) }

  predicate HasReason(k: Keyed, name: string, wanted: set<string>) {
    (name != "" && k.name == name) || (k.domain.Some? && k.domain.value in wanted)
    || (k.alternates.Some? && wanted * k.alternates.value != {})
  }

  function ReasonsOf(k: Keyed, name: string, wanted: set<string>): (r: seq<Reason>)
    ensures r != [] <==> HasReason(k, name, wanted)
  {
    (if name != "" && k.name == name then [TenantName] else [])
    + (if k.domain.Some? && k.domain.value in wanted then [PrimaryDomain] else [])
    + (if k.alternates.Some? && wanted * k.alternates.value != {} then [AlternateDomain] else [])
  }

  /** The reasons for which a minimized tenant is reported. */
  function Reasons(t: Tenant, co: Option<string>, wanted: set<string>): seq<Reason> {
    ReasonsOf(Keys(t), NameKey(co), wanted)
  }

  predicate AnyMatches(domains: seq<Option<string>>, wanted: set<string>) {
    exists i :: 0 <= i < |domains| && DomainMatches(domains[i], wanted)
  }

  /** A raw tenant matches the CO by its name, its primary domain or an alternate domain, each after normalization. */
  predicate RawMatches(raw: Raw, co: Option<string>, wanted: set<string>) {
    NameMatches(raw.name, co) || DomainMatches(raw.domain, wanted)
    || (raw.alternates.Some? && AnyMatches(raw.alternates.value, wanted))
  }

  predicate Limited(raw: Raw) {
    && (raw.name.Some? ==> |raw.name.value| <= 512) && (raw.domain.Some? ==> |raw.domain.value| <= 512)
    && (raw.alternates.Some? ==> |CanonicalSet(raw.alternates.value)| <= 5000)
  }

  lemma AllKept(all: set<string>)
    requires |all| <= MAX_ALTERNATES
    ensures FirstKept(all) == all
  {
    FirstAreKept(all);
    SameSize(FirstKept(all), all);
  }

  lemma SameSize(a: set<string>, b: set<string>)
    requires a <= b && |a| == |b|
    ensures a == b
  {
    if d :| d in b && d !in a { SubsetSize(a, b - {d}); }
  }

  function KeptUpTo(all: set<string>, n: nat): set<string> { set d | d in all && |Below(all, d)| < n }

  lemma {:induction false} GreatestOf(all: set<string>) returns (m: string)
    requires all != {}
    ensures m in all && forall d :: d in all && d != m ==> Less(d, m)
  {
    var x :| x in all;
    var rest := all - {x};
    m := x;
    if rest != {} {
      var y := GreatestOf(rest);
      LessTotal(x, y);
      if Less(x, y) {
        m := y;
      } else {
        forall d | d in rest && d != y ensures Less(d, x) { LessTransitive(d, y, x); }
      }
    }
  }

  lemma WithoutGreatest(all: set<string>, m: string, n: nat)
    requires m in all && n < |all| && forall d :: d in all && d != m ==> Less(d, m)
    ensures KeptUpTo(all, n) == KeptUpTo(all - {m}, n)
  {
    LessIrreflexive(m);
    assert Below(all, m) == all - {m};
    forall d | d in all && d != m ensures Below(all, d) == Below(all - {m}, d) {
      if Less(m, d) { LessTransitive(m, d, m); }
    }
  }

  lemma {:induction false} KeptSize(all: set<string>, n: nat)
    ensures |KeptUpTo(all, n)| == if |all| <= n then |all| else n
    decreases |all|
  {
    if |all| <= n {
      forall d | d in all ensures |Below(all, d)| < n {
        LessIrreflexive(d);
        assert Below(all, d) <= all - {d};
        SubsetSize(Below(all, d), all - {d});
      }
      assert KeptUpTo(all, n) == all;
    } else {
      var m := GreatestOf(all);
      WithoutGreatest(all, m, n);
      KeptSize(all - {m}, n);
    }
  }

  /** Of the domains the 5000 that come first are kept, or all: none that is dropped comes before one that is kept. */
  lemma FirstAreKept(all: set<string>)
    ensures |FirstKept(all)| == if |all| <= 5000 then |all| else 5000
    ensures forall d, e :: d in FirstKept(all) && e in all && e !in FirstKept(all) ==> Less(d, e)
  {
    KeptSize(all, 5000);
    assert FirstKept(all) == KeptUpTo(all, 5000);
    forall d, e | d in FirstKept(all) && e in all && e !in FirstKept(all) ensures Less(d, e) {
      LessTotal(d, e);
      if Less(e, d) {
        forall x | x in Below(all, e) ensures x in Below(all, d) { LessTransitive(x, e, d); }
        SubsetSize(Below(all, e), Below(all, d));
      }
    }
  }

  lemma {:induction false} SubsetSize<T>(a: set<T>, b: set<T>)
    requires a <= b
    ensures |a| <= |b|
  {
    if a != {} {
      var x :| x in a;
      SubsetSize(a - {x}, b - {x});
    }
  }

  lemma AlternateInSet(values: seq<Option<string>>, wanted: set<string>)
    ensures wanted * CanonicalSet(values) != {} <==> exists i :: 0 <= i < |values| && DomainMatches(values[i], wanted)
  {
    if i :| 0 <= i < |values| && DomainMatches(values[i], wanted) {
      assert Canonical(values[i]).value in wanted * CanonicalSet(values);
    }
    if d :| d in wanted * CanonicalSet(values) {
      var i :| 0 <= i < |values| && Canonical(values[i]).Some? && Canonical(values[i]).value == d;
      assert DomainMatches(values[i], wanted);
    }
  }

  lemma ReasonsAreTheirs(k: Keyed, name: string, wanted: set<string>)
    ensures TenantName in ReasonsOf(k, name, wanted) <==> name != "" && k.name == name
    ensures PrimaryDomain in ReasonsOf(k, name, wanted) <==> k.domain.Some? && k.domain.value in wanted
    ensures AlternateDomain in ReasonsOf(k, name, wanted) <==> k.alternates.Some? && wanted * k.alternates.value != {}
  {
  }

  predicate AlternateMatches(raw: Raw, wanted: set<string>) {
    raw.alternates.Some? && AnyMatches(raw.alternates.value, wanted)
  }

  /** Within the limits cutting a row down loses no match and invents none, reason by reason. */
  lemma MinimizedKeepsReasons(raw: Raw, co: Option<string>, wanted: set<string>)
    requires Limited(raw)
    ensures TenantName in Reasons(Minimized(raw), co, wanted) <==> NameMatches(raw.name, co)
    ensures PrimaryDomain in Reasons(Minimized(raw), co, wanted) <==> DomainMatches(raw.domain, wanted)
    ensures AlternateDomain in Reasons(Minimized(raw), co, wanted) <==> AlternateMatches(raw, wanted)
  {
    ReasonsAreTheirs(Keys(Minimized(raw)), NameKey(co), wanted);
    if raw.alternates.Some? {
      AllKept(CanonicalSet(raw.alternates.value));
      AlternateInSet(raw.alternates.value, wanted);
    }
  }

  /** A cut row never matches where the raw one did not. */
  lemma MinimizedInventsNothing(raw: Raw, co: Option<string>, wanted: set<string>)
    requires Reasons(Minimized(raw), co, wanted) != []
    ensures RawMatches(raw, co, wanted)
  {
    if raw.alternates.Some? {
      var all := CanonicalSet(raw.alternates.value);
      AlternateInSet(raw.alternates.value, wanted);
      if wanted * FirstKept(all) != {} {
        var d :| d in wanted * FirstKept(all);
        assert d in wanted * all;
      }
    }
  }

  function DomainsOf(domain: Option<string>, alternates: set<string>): set<string> {
    alternates + (if Canonical(domain).Some? then {Canonical(domain).value} else {})
  }

  function RawDomains(raw: Raw): set<string> {
    DomainsOf(raw.domain, if raw.alternates.Some? then CanonicalSet(raw.alternates.value) else {})
  }

  function KeptDomains(t: Tenant): set<string> { DomainsOf(t.domain, t.alternates.GetOr({})) }

  /** Nothing a CO could match was cut: the name, unless it is empty anyway, and every domain. */
  predicate NothingLost(raw: Raw) {
    (NameKey(raw.name) != "" ==> Minimized(raw).name == raw.name) && RawDomains(raw) <= KeptDomains(Minimized(raw))
  }

  lemma MatchesByDomains(raw: Raw, co: Option<string>, wanted: set<string>)
    ensures RawMatches(raw, co, wanted) <==> NameMatches(raw.name, co) || wanted * RawDomains(raw) != {}
  {
    if raw.alternates.Some? { AlternateInSet(raw.alternates.value, wanted); }
    var all := if raw.alternates.Some? then CanonicalSet(raw.alternates.value) else {};
    assert wanted * RawDomains(raw) != {} <==> DomainMatches(raw.domain, wanted) || wanted * all != {} by {
      if DomainMatches(raw.domain, wanted) { assert Canonical(raw.domain).value in wanted * RawDomains(raw); }
      if d :| d in wanted * all { assert d in wanted * RawDomains(raw); }
      if d :| d in wanted * RawDomains(raw) { assert d in all ==> d in wanted * all; }
    }
  }

  lemma ReasonsByDomains(t: Tenant, co: Option<string>, wanted: set<string>)
    ensures Reasons(t, co, wanted) != [] <==> NameMatches(t.name, co) || wanted * KeptDomains(t) != {}
  {
    var kept := t.alternates.GetOr({});
    if DomainMatches(t.domain, wanted) { assert Canonical(t.domain).value in wanted * KeptDomains(t); }
    if d :| d in wanted * kept { assert d in wanted * KeptDomains(t); }
    if d :| d in wanted * KeptDomains(t) { assert d in kept ==> d in wanted * kept; }
  }

  /** The gate is complete for a tenant, over every CO, exactly when nothing a CO could match was cut from its row. */
  lemma CompleteExactlyWhenNothingLost(raw: Raw)
    ensures NothingLost(raw)
      <==> forall co, wanted :: RawMatches(raw, co, wanted) ==> Reasons(Minimized(raw), co, wanted) != []
  {
    var t := Minimized(raw);
    if NothingLost(raw) {
      forall co, wanted | RawMatches(raw, co, wanted) ensures Reasons(t, co, wanted) != [] {
        MatchesByDomains(raw, co, wanted);
        ReasonsByDomains(t, co, wanted);
        if d :| d in wanted * RawDomains(raw) { assert d in wanted * KeptDomains(t); }
      }
    } else if NameKey(raw.name) != "" && t.name != raw.name {
      MatchesByDomains(raw, raw.name, {});
      ReasonsByDomains(t, raw.name, {});
    } else {
      var d :| d in RawDomains(raw) && d !in KeptDomains(t);
      MatchesByDomains(raw, None, {d});
      ReasonsByDomains(t, None, {d});
      assert d in {d} * RawDomains(raw) && {d} * KeptDomains(t) == {};
    }
  }

  lemma LimitsLoseNothing(raw: Raw)
    requires Limited(raw)
    ensures NothingLost(raw)
  {
    if raw.alternates.Some? { AllKept(CanonicalSet(raw.alternates.value)); }
  }

  // ----- the gate ---------------------------------------------------------------------------------------------------

  function ReportOf(tenants: seq<Keyed>, name: string, wanted: set<string>): seq<(nat, seq<Reason>)> {
    if tenants == [] then [] else
    var last := |tenants| - 1;
    var reasons := ReasonsOf(tenants[last], name, wanted);
    ReportOf(tenants[..last], name, wanted) + (if reasons != [] then [(last, reasons)] else [])
  }

  predicate Names(report: seq<(nat, seq<Reason>)>, i: nat) {
    exists k :: 0 <= k < |report| && report[k].0 == i
  }

  /** An entry of the report: a tenant with a reason, and its reasons. */
  predicate Entitled(tenants: seq<Keyed>, name: string, wanted: set<string>, entry: (nat, seq<Reason>)) {
    entry.0 < |tenants| && HasReason(tenants[entry.0], name, wanted)
      && entry.1 == ReasonsOf(tenants[entry.0], name, wanted)
  }

  predicate AllEntitled(tenants: seq<Keyed>, name: string, wanted: set<string>, report: seq<(nat, seq<Reason>)>) {
    forall k :: 0 <= k < |report| ==> Entitled(tenants, name, wanted, report[k])
  }

  predicate InOrder(report: seq<(nat, seq<Reason>)>) {
    forall j, k :: 0 <= j < k < |report| ==> report[j].0 < report[k].0
  }

  lemma EntitledInLonger(tenants: seq<Keyed>, name: string, wanted: set<string>, entry: (nat, seq<Reason>))
    requires tenants != [] && Entitled(tenants[..|tenants| - 1], name, wanted, entry)
    ensures Entitled(tenants, name, wanted, entry)
  {
  }

  /** Only tenants with a reason are reported, with all their reasons, in order and once each. */
  lemma {:induction false} ReportIsEntitled(tenants: seq<Keyed>, name: string, wanted: set<string>)
    ensures InOrder(ReportOf(tenants, name, wanted))
      && AllEntitled(tenants, name, wanted, ReportOf(tenants, name, wanted))
  {
    if tenants != [] {
      var last := |tenants| - 1;
      var before, report := ReportOf(tenants[..last], name, wanted), ReportOf(tenants, name, wanted);
      ReportIsEntitled(tenants[..last], name, wanted);
      forall k | 0 <= k < |before|
        ensures report[k] == before[k] && Entitled(tenants, name, wanted, before[k]) && before[k].0 < last
      {
        assert Entitled(tenants[..last], name, wanted, before[k]);
        EntitledInLonger(tenants, name, wanted, before[k]);
      }
    }
  }

  /** And every tenant with a reason is. */
  lemma {:induction false} ReportIsComplete(tenants: seq<Keyed>, name: string, wanted: set<string>, i: nat)
    requires i < |tenants| && HasReason(tenants[i], name, wanted)
    ensures Names(ReportOf(tenants, name, wanted), i)
  {
    var last := |tenants| - 1;
    var before, report := ReportOf(tenants[..last], name, wanted), ReportOf(tenants, name, wanted);
    if i < last {
      ReportIsComplete(tenants[..last], name, wanted, i);
      var k :| 0 <= k < |before| && before[k].0 == i;
      assert report[k].0 == i;
    } else {
      assert report[|before|].0 == i;
    }
  }

  lemma ReportedExactlyOnReason(tenants: seq<Keyed>, name: string, wanted: set<string>)
    ensures ReportOf(tenants, name, wanted) != [] <==> AnyReason(tenants, name, wanted)
  {
    ReportIsEntitled(tenants, name, wanted);
    var report := ReportOf(tenants, name, wanted);
    if report != [] { assert Entitled(tenants, name, wanted, report[0]); }
    if i :| 0 <= i < |tenants| && HasReason(tenants[i], name, wanted) { ReportIsComplete(tenants, name, wanted, i); }
  }

  method DuplicatePrecheck(tenants: seq<Keyed>, name: string, wanted: set<string>)
      returns (matches: seq<(nat, seq<Reason>)>)
    ensures matches == ReportOf(tenants, name, wanted)
  {
    matches := [];
    for i := 0 to |tenants|
      invariant matches == ReportOf(tenants[..i], name, wanted)
    {
      var t := tenants[i];
      assert tenants[..i + 1][..i] == tenants[..i] && tenants[..i + 1][i] == t;
      var reasons: seq<Reason> := [];
      if name != "" && t.name == name { reasons := reasons + [TenantName]; }
      if t.domain.Some? && t.domain.value in wanted { reasons := reasons + [PrimaryDomain]; }
      if t.alternates.Some? && wanted * t.alternates.value != {} { reasons := reasons + [AlternateDomain]; }
      assert reasons == ReasonsOf(t, name, wanted);
      if reasons != [] { matches := matches + [(i, reasons)]; }
    }
    assert tenants[..|tenants|] == tenants;
  }

  datatype Verdict = Unavailable | Match | Incomplete | NoMatch

  predicate AnyReason(tenants: seq<Keyed>, name: string, wanted: set<string>) {
    exists i :: 0 <= i < |tenants| && HasReason(tenants[i], name, wanted)
  }

  /**
    The production gate; None for a clone that is missing, stale or does not verify. Only a usable clone without a
    match passes.
  */
  method ProductionGate(clone: Option<seq<Keyed>>, name: string, wanted: set<string>) returns (v: Verdict)
    ensures v.Unavailable? <==> clone.None?
    ensures v.Match? <==> clone.Some? && AnyReason(clone.value, name, wanted)
    ensures v.NoMatch? <==> clone.Some? && !AnyReason(clone.value, name, wanted)
                            && exists i :: 0 <= i < |clone.value| && clone.value[i].alternates.Some?
  {
    if clone.None? { return Unavailable; }
    var matches := DuplicatePrecheck(clone.value, name, wanted);
    ReportedExactlyOnReason(clone.value, name, wanted);
    if matches != [] { return Match; }
    for i := 0 to |clone.value|
      invariant forall k :: 0 <= k < i ==> clone.value[k].alternates.None?
    {
      if clone.value[i].alternates.Some? { return NoMatch; }
    }
    return Incomplete;
  }

  /** The clone as the check reads it. */
  function Clone(raws: seq<Raw>): seq<Keyed> {
    seq(|raws|, i requires 0 <= i < |raws| => Keys(Minimized(raws[i])))
  }

  /**
    Over a clone of minimized rows the gate matches only on a raw match, and on every raw match whose row lost
    nothing.
  */
  lemma GateSeesRawTenants(raws: seq<Raw>, co: Option<string>, wanted: set<string>)
    ensures AnyReason(Clone(raws), NameKey(co), wanted) ==>
      exists i :: 0 <= i < |raws| && RawMatches(raws[i], co, wanted)
    ensures (exists i :: 0 <= i < |raws| && NothingLost(raws[i]) && RawMatches(raws[i], co, wanted))
      ==> AnyReason(Clone(raws), NameKey(co), wanted)
    ensures forall i :: 0 <= i < |raws| ==> (Clone(raws)[i].alternates.Some? <==> raws[i].alternates.Some?)
  {
    if i :| 0 <= i < |raws| && HasReason(Clone(raws)[i], NameKey(co), wanted) {
      MinimizedInventsNothing(raws[i], co, wanted);
    }
    if i :| 0 <= i < |raws| && NothingLost(raws[i]) && RawMatches(raws[i], co, wanted) {
      CompleteExactlyWhenNothingLost(raws[i]);
      assert Reasons(Minimized(raws[i]), co, wanted) != [];
      assert HasReason(Clone(raws)[i], NameKey(co), wanted);
    }
  }
}
