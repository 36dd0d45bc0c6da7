/**
  The domain lists of an order: each candidate classed by its registrable domain, the lists sorted and without
  repeats.
*/
module DomainLists {
  import opened Wrappers
  import opened TextOrder
  import opened PublicSuffix
  import Domains

  const MAX_ITEMS := 1000

  /** What reading one raw item gives: an address, or a host name as labels. */
  datatype Host = Address(text: string) | HostName(labels: Labels)

  /** The reading of raw items; None for an item that is not a host at all. */
  type Reading = string -> Option<Host>

  datatype Candidate = Root(value: string) | Subdomain(value: string) | Network(value: string)

  /** A name is a root exactly when it is its own registrable domain. */
  function Classed(read: Reading, rules: Rules, raw: string): Option<Candidate> {
    match read(raw)
    case None => None
    case Some(Address(text)) => Some(Network(text))
    case Some(HostName(labels)) =>
      match RegistrableDomain(rules, labels)
      case None => None
      case Some(registrable) => Some(if labels == registrable then Root(Domains.Dotted(labels))
        else Subdomain(Domains.Dotted(labels)))
  }

  type Classing = string -> Option<Candidate>

  datatype Error = Invalid | PrimaryNotRoot | TooMany | EmailGiven | CeNotRoot | NotOneCeDomain

  datatype Lists = Lists(primary: string, alternates: seq<string>, subdomains: seq<string>, emails: seq<string>,
                         networks: seq<string>, distinctRoots: nat)

  // ----- what the lists are -----------------------------------------------------------------------------------------

  /** The candidates of a list, all of which class. */
  function Candidates(classed: Classing, raws: seq<string>): set<Candidate>
    requires forall i :: 0 <= i < |raws| ==> classed(raws[i]).Some?
  {
    set i | 0 <= i < |raws| :: classed(raws[i]).value
  }

  predicate AllClass(classed: Classing, raws: seq<string>) { forall i :: 0 <= i < |raws| ==> classed(raws[i]).Some? }

  function Roots(cs: set<Candidate>): set<string> { set c | c in cs && c.Root? :: c.value }

  function Subdomains(cs: set<Candidate>): set<string> { set c | c in cs && c.Subdomain? :: c.value }

  function Networks(cs: set<Candidate>): set<string> { set c | c in cs && c.Network? :: c.value }

  predicate SortedSet(list: seq<string>, texts: set<string>) { Ascending(list) && Elements(list) == texts }

  /** The lists over a set of candidates, the primary domain and the one credential exposure domain. */
  predicate AreLists(out: Lists, primary: string, cs: set<Candidate>, ce: string) {
    && out.primary == primary && out.emails == [ce]
    && SortedSet(out.alternates, Roots(cs) - {primary})
    && SortedSet(out.subdomains, Subdomains(cs)) && SortedSet(out.networks, Networks(cs))
    && out.distinctRoots == |{primary, ce} + Roots(cs)|
  }

  /** One result for one set of candidates. */
  lemma OneResult(a: Lists, b: Lists, primary: string, cs: set<Candidate>, ce: string)
    requires AreLists(a, primary, cs, ce) && AreLists(b, primary, cs, ce)
    ensures a == b
  {
    OneSortedList(a.alternates, b.alternates);
    OneSortedList(a.subdomains, b.subdomains);
    OneSortedList(a.networks, b.networks);
  }

  // ----- the loops --------------------------------------------------------------------------------------------------

  datatype Split = Split(alternates: seq<string>, subdomains: seq<string>, networks: seq<string>)

  /** The candidates but the primary one, by kind, each once, in order of appearance. */
  method SplitCandidates(classed: Classing, primary: string, raws: seq<string>) returns (split: Option<Split>)
    ensures split.Some? <==> AllClass(classed, raws)
    ensures split.Some? ==>
      var cs := Candidates(classed, raws);
      && Elements(split.value.alternates) == Roots(cs) - {primary}
      && Elements(split.value.subdomains) == Subdomains(cs) && Elements(split.value.networks) == Networks(cs)
    ensures split.Some? ==>
      NoRepeat(split.value.alternates) && NoRepeat(split.value.subdomains) && NoRepeat(split.value.networks)
  {
    var alternates: seq<string>, subdomains: seq<string>, networks: seq<string> := [], [], [];
    var seen: set<Candidate> := {};
    for i := 0 to |raws|
      invariant AllClass(classed, raws[..i]) && seen == Candidates(classed, raws[..i]) - {Root(primary)}
      invariant forall x :: x in alternates <==> Root(x) in seen
      invariant forall x :: x in subdomains <==> Subdomain(x) in seen
      invariant forall x :: x in networks <==> Network(x) in seen
      invariant NoRepeat(alternates) && NoRepeat(subdomains) && NoRepeat(networks)
    {
      var c := classed(raws[i]);
      if c.None? { return None; }
      CandidatesGrow(classed, raws[..i], raws[i]);
      assert raws[..i + 1] == raws[..i] + [raws[i]];
      var candidate := c.value;
      if candidate != Root(primary) && candidate !in seen {
        seen := seen + {candidate};
        match candidate {
          case Root(x) => alternates := alternates + [x];
          case Subdomain(x) => subdomains := subdomains + [x];
          case Network(x) => networks := networks + [x];
        }
      }
    }
    assert raws[..|raws|] == raws;
    ElementsOfSeen(seen, alternates, subdomains, networks);
    SeenWithoutPrimary(Candidates(classed, raws), primary);
    return Some(Split(alternates, subdomains, networks));
  }

  lemma CandidatesGrow(classed: Classing, raws: seq<string>, raw: string)
    requires AllClass(classed, raws) && classed(raw).Some?
    ensures AllClass(classed, raws + [raw])
      && Candidates(classed, raws + [raw]) == Candidates(classed, raws) + {classed(raw).value}
  {
    var more := raws + [raw];
    assert forall i :: 0 <= i < |raws| ==> more[i] == raws[i];
    assert more[|raws|] == raw;
    forall c | c in Candidates(classed, raws) + {classed(raw).value} ensures c in Candidates(classed, more) {
      if c in Candidates(classed, raws) {
        var i :| 0 <= i < |raws| && classed(raws[i]).value == c;
        assert classed(more[i]).value == c;
      } else {
        assert classed(more[|raws|]).value == c;
      }
    }
  }

  lemma ElementsOfSeen(seen: set<Candidate>, alternates: seq<string>, subdomains: seq<string>, networks: seq<string>)
    requires forall x :: x in alternates <==> Root(x) in seen
    requires forall x :: x in subdomains <==> Subdomain(x) in seen
    requires forall x :: x in networks <==> Network(x) in seen
    ensures Elements(alternates) == Roots(seen) && Elements(subdomains) == Subdomains(seen)
      && Elements(networks) == Networks(seen)
  {
    forall x ensures x in Roots(seen) <==> Root(x) in seen {}
    forall x ensures x in Subdomains(seen) <==> Subdomain(x) in seen {}
    forall x ensures x in Networks(seen) <==> Network(x) in seen {}
  }

  lemma SeenWithoutPrimary(cs: set<Candidate>, primary: string)
    ensures Roots(cs - {Root(primary)}) == Roots(cs) - {primary}
    ensures Subdomains(cs - {Root(primary)}) == Subdomains(cs) && Networks(cs - {Root(primary)}) == Networks(cs)
  {
    forall x ensures x in Roots(cs - {Root(primary)}) <==> Root(x) in cs && x != primary {
      if Root(x) in cs && x != primary { assert Root(x) in cs - {Root(primary)}; }
    }
    forall x ensures x in Roots(cs) <==> Root(x) in cs {}
    forall x ensures x in Subdomains(cs - {Root(primary)}) <==> Subdomain(x) in cs {
      if Subdomain(x) in cs { assert Subdomain(x) in cs - {Root(primary)}; }
    }
    forall x ensures x in Subdomains(cs) <==> Subdomain(x) in cs {}
    forall x ensures x in Networks(cs - {Root(primary)}) <==> Network(x) in cs {
      if Network(x) in cs { assert Network(x) in cs - {Root(primary)}; }
    }
    forall x ensures x in Networks(cs) <==> Network(x) in cs {}
  }

  predicate AllRoots(classed: Classing, isEmail: string -> bool, raws: seq<string>) {
    forall i :: 0 <= i < |raws| ==> !isEmail(raws[i]) && classed(raws[i]).Some? && classed(raws[i]).value.Root?
  }

  /** The credential exposure domains: every item a root, and all of them one domain. */
  predicate OneCeDomain(classed: Classing, isEmail: string -> bool, raws: seq<string>, ce: string) {
    AllRoots(classed, isEmail, raws) && raws != [] && forall i :: 0 <= i < |raws| ==> classed(raws[i]).value == Root(ce)
  }

  /** Item `i` is the first that is no root, and this is what is wrong with it. */
  predicate FirstNoRoot(classed: Classing, isEmail: string -> bool, raws: seq<string>, i: nat, error: Error) {
    && i < |raws| && AllRoots(classed, isEmail, raws[..i])
    && match error
       case EmailGiven => isEmail(raws[i])
       case Invalid => !isEmail(raws[i]) && classed(raws[i]).None?
       case CeNotRoot => !isEmail(raws[i]) && classed(raws[i]).Some? && !classed(raws[i]).value.Root?
       case _ => false
  }

  /** Why a list of exposure domains is refused: its first item that is no root, or the number of domains. */
  ghost predicate CeRefusedFor(classed: Classing, isEmail: string -> bool, raws: seq<string>, error: Error) {
    if AllRoots(classed, isEmail, raws) then error.NotOneCeDomain?
    else exists i: nat :: FirstNoRoot(classed, isEmail, raws, i, error)
  }

  method CeDomain(classed: Classing, isEmail: string -> bool, raws: seq<string>) returns (ce: Result<string, Error>)
    ensures ce.Ok? ==> OneCeDomain(classed, isEmail, raws, ce.value)
    ensures ce.Err? ==> forall x :: !OneCeDomain(classed, isEmail, raws, x)
    ensures ce.Err? ==> CeRefusedFor(classed, isEmail, raws, ce.error)
  {
    var found: seq<string> := [];
    for i := 0 to |raws|
      invariant AllRoots(classed, isEmail, raws[..i]) && (found == [] <==> i == 0)
      invariant forall k :: 0 <= k < i ==> classed(raws[k]).value.value in found
      invariant forall x :: x in found ==> exists k :: 0 <= k < i && classed(raws[k]).value.value == x
      invariant forall j, k :: 0 <= j < k < |found| ==> found[j] != found[k]
    {
      assert raws[..i + 1] == raws[..i] + [raws[i]];
      if isEmail(raws[i]) {
        assert FirstNoRoot(classed, isEmail, raws, i, EmailGiven);
        return Err(EmailGiven);
      }
      var c := classed(raws[i]);
      if c.None? {
        assert FirstNoRoot(classed, isEmail, raws, i, Invalid);
        return Err(Invalid);
      }
      if !c.value.Root? {
        assert FirstNoRoot(classed, isEmail, raws, i, CeNotRoot);
        return Err(CeNotRoot);
      }
      if c.value.value !in found { found := found + [c.value.value]; }
    }
    assert raws[..|raws|] == raws;
    if |found| != 1 {
      if |found| > 1 {
        assert found[0] in found && found[1] in found;
        var j :| 0 <= j < |raws| && classed(raws[j]).value.value == found[0];
        var k :| 0 <= k < |raws| && classed(raws[k]).value.value == found[1];
        assert classed(raws[j]).value != classed(raws[k]).value;
      }
      return Err(NotOneCeDomain);
    }
    return Ok(found[0]);
  }

  /** What a call must satisfy to be accepted. */
  predicate Acceptable(classed: Classing, isEmail: string -> bool, primary: string, raws: seq<string>,
      ceRaws: seq<string>, ce: string) {
    && classed(primary).Some? && classed(primary).value.Root? && |raws| <= 1000 && AllClass(classed, raws)
    && |ceRaws| <= 1000 && OneCeDomain(classed, isEmail, ceRaws, ce)
  }

  /** Why a call is refused: the first that fails of the primary domain, the candidates and the exposure domains. */
  ghost predicate RefusedFor(classed: Classing, isEmail: string -> bool, primary: string, raws: seq<string>,
      ceRaws: seq<string>, error: Error) {
    if classed(primary).None? then error.Invalid?
    else if !classed(primary).value.Root? then error.PrimaryNotRoot?
    else if |raws| > 1000 then error.TooMany?
    else if !AllClass(classed, raws) then error.Invalid?
    else if |ceRaws| > 1000 then error.TooMany?
    else CeRefusedFor(classed, isEmail, ceRaws, error)
  }

  method NormalizeDomains(classed: Classing, isEmail: string -> bool, primary: string, raws: seq<string>,
      ceRaws: seq<string>)
    returns (result: Result<Lists, Error>)
    ensures result.Ok? ==>
      && result.value.emails != [] && Acceptable(classed, isEmail, primary, raws, ceRaws, result.value.emails[0])
      && AreLists(result.value, classed(primary).value.value, Candidates(classed, raws), result.value.emails[0])
    ensures result.Err? ==> forall ce :: !Acceptable(classed, isEmail, primary, raws, ceRaws, ce)
    ensures result.Err? ==> RefusedFor(classed, isEmail, primary, raws, ceRaws, result.error)
  {
    var root := classed(primary);
    if root.None? { return Err(Invalid); }
    if !root.value.Root? { return Err(PrimaryNotRoot); }
    var name := root.value.value;
    if |raws| > MAX_ITEMS { return Err(TooMany); }
    var split := SplitCandidates(classed, name, raws);
    if split.None? { return Err(Invalid); }
    if |ceRaws| > MAX_ITEMS { return Err(TooMany); }
    var ce := CeDomain(classed, isEmail, ceRaws);
    if ce.Err? { return Err(ce.error); }
    SortedWithoutRepeats(split.value.alternates);
    SortedWithoutRepeats(split.value.subdomains);
    SortedWithoutRepeats(split.value.networks);
    var distinct := {name, ce.value} + Elements(split.value.alternates);
    assert distinct == {name, ce.value} + Roots(Candidates(classed, raws));
    return Ok(Lists(name, Sorted(split.value.alternates), Sorted(split.value.subdomains), [ce.value],
                    Sorted(split.value.networks), |distinct|));
  }

  // ----- order and repetition ---------------------------------------------------------------------------------------

  lemma SameItemsSameCandidates(classed: Classing, a: seq<string>, b: seq<string>)
    requires AllClass(classed, a) && forall x :: x in a <==> x in b
    ensures AllClass(classed, b) && Candidates(classed, a) == Candidates(classed, b)
  {
    forall i | 0 <= i < |b| ensures classed(b[i]).Some? && classed(b[i]).value in Candidates(classed, a) {
      assert b[i] in a;
      var j :| 0 <= j < |a| && a[j] == b[i];
    }
    forall i | 0 <= i < |a| ensures classed(a[i]).value in Candidates(classed, b) {
      assert a[i] in b;
      var j :| 0 <= j < |b| && b[j] == a[i];
    }
  }

  predicate BothLists(outA: Lists, outB: Lists, primary: string, a: set<Candidate>, b: set<Candidate>, ce: string) {
    AreLists(outA, primary, a, ce) && AreLists(outB, primary, b, ce)
  }

  /**
    Of two calls with the same items, in any order and however often repeated, one accepted, the other is accepted
    exactly when its items are within the limit; then both give the same lists.
  */
  lemma OrderAndRepetitionIgnored(classed: Classing, isEmail: string -> bool, primary: string,
                                  a: seq<string>, b: seq<string>, ceA: seq<string>, ceB: seq<string>, ce: string,
                                  outA: Lists, outB: Lists)
    requires (forall x :: x in a <==> x in b) && (forall x :: x in ceA <==> x in ceB)
    requires Acceptable(classed, isEmail, primary, a, ceA, ce)
    ensures AllClass(classed, b)
    ensures Acceptable(classed, isEmail, primary, b, ceB, ce) <==> |b| <= MAX_ITEMS && |ceB| <= MAX_ITEMS
    ensures BothLists(outA, outB, classed(primary).value.value, Candidates(classed, a), Candidates(classed, b), ce) ==>
      outA == outB
  {
    SameItemsSameCandidates(classed, a, b);
    forall i | 0 <= i < |ceB|
      ensures !isEmail(ceB[i]) && classed(ceB[i]).Some? && classed(ceB[i]).value == Root(ce)
    {
      assert ceB[i] in ceA;
      var j :| 0 <= j < |ceA| && ceA[j] == ceB[i];
    }
    assert ceA[0] in ceB;
    if BothLists(outA, outB, classed(primary).value.value, Candidates(classed, a), Candidates(classed, b), ce) {
      OneResult(outA, outB, classed(primary).value.value, Candidates(classed, a), ce);
    }
  }

  /** The limit counts repeats: one item too often is refused where the item once is accepted. */
  lemma RepetitionCountsAtTheLimit(classed: Classing, isEmail: string -> bool, primary: string, x: string,
                                   raws: seq<string>, ceRaws: seq<string>, ce: string)
    requires Acceptable(classed, isEmail, primary, [x], ceRaws, ce) && raws == seq(MAX_ITEMS + 1, _ => x)
    ensures (forall y :: y in raws <==> y in [x]) && !Acceptable(classed, isEmail, primary, raws, ceRaws, ce)
  {
    assert raws[0] == x;
  }

  /** A name classed as a root is its own registrable domain; any other name is longer than its registrable domain. */
  lemma RootsAreRegistrable(read: Reading, rules: Rules, raw: string, labels: Labels)
    requires Proper(rules) && read(raw) == Some(HostName(labels)) && Classed(read, rules, raw).Some?
    ensures Classed(read, rules, raw).value.Root? <==> |labels| == SuffixLabels(rules, labels) + 1
    ensures Classed(read, rules, raw).value.Subdomain? <==> |labels| > SuffixLabels(rules, labels) + 1
  {
  }

  /**
    What an item is: an address is listed as the text it was read as; a name is listed whole, its labels joined with
    dots, as a root with one label more than its public suffix and as a subdomain with further ones; nothing else is a
    candidate.
  */
  lemma ClassedExactly(read: Reading, rules: Rules, raw: string)
    requires Proper(rules)
    ensures match read(raw)
            case None => Classed(read, rules, raw).None?
            case Some(Address(text)) => Classed(read, rules, raw) == Some(Network(text))
            case Some(HostName(labels)) =>
              Classed(read, rules, raw) ==
                if |labels| <= SuffixLabels(rules, labels) then None
                else if |labels| == SuffixLabels(rules, labels) + 1 then Some(Root(Domains.Dotted(labels)))
                else Some(Subdomain(Domains.Dotted(labels)))
  {
  }
}
