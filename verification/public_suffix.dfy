/** The registrable domain of a domain, given as its labels, under the rules of the Public Suffix List. */
module PublicSuffix {
  import opened Wrappers

  type Labels = seq<string>

  /** A rule line: its labels, with a star in front of a wildcard rule and a mark on an exception rule. */
  datatype Rule = Plain(labels: Labels) | Wildcard(rest: Labels) | Exception(labels: Labels)

  /** The three rule sets; a wildcard is kept without its star. */
  datatype Rules = Rules(exact: set<Labels>, wildcards: set<Labels>, exceptions: set<Labels>)

  predicate EndsWith(domain: Labels, suffix: Labels) {
    |suffix| <= |domain| && domain[|domain| - |suffix|..] == suffix
  }

  predicate IsMax(numbers: set<nat>, m: nat) { m in numbers && forall n :: n in numbers ==> n <= m }

  /** The largest of the numbers, at least `floor`. */
  function MaxOf(numbers: set<nat>, floor: nat): (m: nat)
    ensures floor <= m && (m == floor || m in numbers) && forall n :: n in numbers ==> n <= m
  {
    if numbers == {} then floor else
    var greatest := Greatest(numbers);
    if floor < greatest then greatest else floor
  }

  function Greatest(numbers: set<nat>): (m: nat)
    requires numbers != {}
    ensures IsMax(numbers, m)
  {
    MaxExists(numbers);
    var m :| IsMax(numbers, m);
    m
  }

  lemma {:induction false} MaxExists(numbers: set<nat>)
    requires numbers != {}
    ensures exists m :: IsMax(numbers, m)
    decreases |numbers|
  {
    var x :| x in numbers;
    var rest := numbers - {x};
    assert forall n :: n in numbers ==> n == x || n in rest;
    if rest == {} {
      assert IsMax(numbers, x);
    } else {
      MaxExists(rest);
      var best :| IsMax(rest, best);
      assert IsMax(numbers, if best < x then x else best);
    }
  }

  function ExceptionLengths(rules: Rules, domain: Labels): set<nat> {
    set r | r in rules.exceptions && EndsWith(domain, r) :: |r|
  }

  function ExactLengths(rules: Rules, domain: Labels): set<nat> {
    set r | r in rules.exact && EndsWith(domain, r) :: |r|
  }

  function WildcardLengths(rules: Rules, domain: Labels): set<nat> {
    set r | r in rules.wildcards && |r| < |domain| && EndsWith(domain, r) :: |r| + 1
  }

  /** How many labels the public suffix has. */
  function SuffixLabels(rules: Rules, domain: Labels): int {
    var exceptions := ExceptionLengths(rules, domain);
    if exceptions != {} then MaxOf(exceptions, 0) - 1
    else MaxOf(ExactLengths(rules, domain) + WildcardLengths(rules, domain), 1)
  }

  /** The public suffix and one label more, None when the domain has no more labels than its public suffix. */
  function RegistrableDomain(rules: Rules, domain: Labels): Option<Labels> {
    var n := SuffixLabels(rules, domain);
    if |domain| <= n then None else Some(domain[|domain| - n - 1..])
  }

  /** A list of rules has no empty rule. */
  predicate Proper(rules: Rules) {
    [] !in rules.exact && [] !in rules.exceptions && [] !in rules.wildcards
  }

  /** The list as it is read, line by line; refused when it has no plain rule. */
  method LoadRules(lines: seq<Rule>) returns (rules: Option<Rules>)
    ensures rules.Some? <==> exists r :: r in lines && r.Plain?
    ensures rules.Some? ==> forall r :: InList(rules.value, r) <==> r in lines
  {
    var exact: set<Labels>, wildcards: set<Labels>, exceptions: set<Labels> := {}, {}, {};
    for i := 0 to |lines|
      invariant forall r :: InList(Rules(exact, wildcards, exceptions), r) <==> r in lines[..i]
    {
      assert lines[..i + 1] == lines[..i] + [lines[i]];
      match lines[i] {
        case Plain(labels) => exact := exact + {labels};
        case Wildcard(rest) => wildcards := wildcards + {rest};
        case Exception(labels) => exceptions := exceptions + {labels};
      }
    }
    assert lines[..|lines|] == lines;
    if exact == {} {
      assert forall labels :: !InList(Rules(exact, wildcards, exceptions), Plain(labels));
      return None;
    }
    var labels :| labels in exact;
    assert InList(Rules(exact, wildcards, exceptions), Plain(labels));
    return Some(Rules(exact, wildcards, exceptions));
  }

  // ----- the published algorithm ------------------------------------------------------------------------------------

  function RuleLabels(r: Rule): nat {
    match r case Plain(labels) => |labels| case Wildcard(rest) => |rest| + 1 case Exception(labels) => |labels|
  }

  /** Label `i` from the right of the rule matches label `i` from the right of the domain: the same, or a star. */
  predicate LabelMatches(r: Rule, domain: Labels, i: nat)
    requires i < RuleLabels(r) <= |domain|
  {
    match r
    case Wildcard(rest) => i == |rest| || rest[|rest| - 1 - i] == domain[|domain| - 1 - i]
    case Plain(labels) => labels[|labels| - 1 - i] == domain[|domain| - 1 - i]
    case Exception(labels) => labels[|labels| - 1 - i] == domain[|domain| - 1 - i]
  }

  /** The domain has as many labels as the rule, and from the right every label of the rule matches. */
  predicate RuleMatches(r: Rule, domain: Labels) {
    RuleLabels(r) <= |domain| && forall i :: 0 <= i < RuleLabels(r) ==> LabelMatches(r, domain, i)
  }

  predicate InList(rules: Rules, r: Rule) {
    match r
    case Plain(labels) => labels in rules.exact
    case Wildcard(rest) => rest in rules.wildcards
    case Exception(labels) => labels in rules.exceptions
  }

  predicate Applies(rules: Rules, domain: Labels, r: Rule) { InList(rules, r) && RuleMatches(r, domain) }

  const DEFAULT := Wildcard([])

  /**
    The prevailing rule: the longest matching exception rule, without one the matching rule with the most labels, and
    without any matching rule the rule "*".
  */
  ghost predicate Prevails(rules: Rules, domain: Labels, r: Rule) {
    if exists e :: Applies(rules, domain, e) && e.Exception? then
      Applies(rules, domain, r) && r.Exception?
      && forall e :: Applies(rules, domain, e) && e.Exception? ==> RuleLabels(e) <= RuleLabels(r)
    else if exists m :: Applies(rules, domain, m) then
      Applies(rules, domain, r) && forall m :: Applies(rules, domain, m) ==> RuleLabels(m) <= RuleLabels(r)
    else r == DEFAULT
  }

  /** An exception rule counts without its leftmost label. */
  function PublicSuffixLength(r: Rule): int { if r.Exception? then RuleLabels(r) - 1 else RuleLabels(r) }

  lemma PlainMatches(domain: Labels, labels: Labels)
    ensures RuleMatches(Plain(labels), domain) <==> EndsWith(domain, labels)
    ensures RuleMatches(Exception(labels), domain) <==> EndsWith(domain, labels)
  {
    if |labels| <= |domain| {
      var tail := domain[|domain| - |labels|..];
      if RuleMatches(Plain(labels), domain) || RuleMatches(Exception(labels), domain) {
        forall k | 0 <= k < |labels| ensures tail[k] == labels[k] {
          var i := |labels| - 1 - k;
          assert RuleMatches(Plain(labels), domain) ==> LabelMatches(Plain(labels), domain, i);
          assert RuleMatches(Exception(labels), domain) ==> LabelMatches(Exception(labels), domain, i);
        }
      }
      if EndsWith(domain, labels) {
        forall i | 0 <= i < |labels|
          ensures LabelMatches(Plain(labels), domain, i) && LabelMatches(Exception(labels), domain, i)
        {
          assert tail[|labels| - 1 - i] == domain[|domain| - 1 - i];
        }
      }
    }
  }

  lemma WildcardMatches(domain: Labels, rest: Labels)
    ensures RuleMatches(Wildcard(rest), domain) <==> |rest| < |domain| && EndsWith(domain, rest)
  {
    if |rest| < |domain| {
      var tail := domain[|domain| - |rest|..];
      if RuleMatches(Wildcard(rest), domain) {
        forall k | 0 <= k < |rest| ensures tail[k] == rest[k] {
          assert LabelMatches(Wildcard(rest), domain, |rest| - 1 - k);
        }
      }
      if EndsWith(domain, rest) {
        forall i | 0 <= i < |rest| + 1 ensures LabelMatches(Wildcard(rest), domain, i) {
          if i < |rest| { assert tail[|rest| - 1 - i] == domain[|domain| - 1 - i]; }
        }
      }
    }
  }

  /** The lengths collected are those of the rules that apply. */
  lemma LengthsAreOfRules(rules: Rules, domain: Labels, n: nat)
    ensures n in ExceptionLengths(rules, domain) <==>
      exists r :: Applies(rules, domain, r) && r.Exception? && RuleLabels(r) == n
    ensures n in ExactLengths(rules, domain) + WildcardLengths(rules, domain)
      <==> exists r :: Applies(rules, domain, r) && !r.Exception? && RuleLabels(r) == n
  {
    if n in ExceptionLengths(rules, domain) {
      var l :| l in rules.exceptions && EndsWith(domain, l) && |l| == n;
      PlainMatches(domain, l);
      assert Applies(rules, domain, Exception(l));
    }
    if n in ExactLengths(rules, domain) {
      var l :| l in rules.exact && EndsWith(domain, l) && |l| == n;
      PlainMatches(domain, l);
      assert Applies(rules, domain, Plain(l));
    }
    if n in WildcardLengths(rules, domain) {
      var l :| l in rules.wildcards && |l| < |domain| && EndsWith(domain, l) && |l| + 1 == n;
      WildcardMatches(domain, l);
      assert Applies(rules, domain, Wildcard(l));
    }
    forall r | Applies(rules, domain, r) && RuleLabels(r) == n
      ensures if r.Exception? then n in ExceptionLengths(rules, domain)
              else n in ExactLengths(rules, domain) + WildcardLengths(rules, domain)
    {
      match r
      case Plain(labels) => PlainMatches(domain, labels);
      case Exception(labels) => PlainMatches(domain, labels);
      case Wildcard(rest) => WildcardMatches(domain, rest);
    }
  }

  /** Whatever rule prevails by the published algorithm, its public suffix has exactly the computed number of labels. */
  lemma SuffixIsOfPrevailingRule(rules: Rules, domain: Labels, r: Rule)
    requires Proper(rules) && Prevails(rules, domain, r)
    ensures SuffixLabels(rules, domain) == PublicSuffixLength(r)
  {
    var exceptions, others := ExceptionLengths(rules, domain),
      ExactLengths(rules, domain) + WildcardLengths(rules, domain);
    forall n ensures n in exceptions <==> exists e :: Applies(rules, domain, e) && e.Exception? && RuleLabels(e) == n {
      LengthsAreOfRules(rules, domain, n);
    }
    forall n ensures n in others <==> exists m :: Applies(rules, domain, m) && !m.Exception? && RuleLabels(m) == n {
      LengthsAreOfRules(rules, domain, n);
    }
    if e :| Applies(rules, domain, e) && e.Exception? {
      assert RuleLabels(r) in exceptions;
    } else {
      assert exceptions == {};
      if m :| Applies(rules, domain, m) {
        assert RuleLabels(r) in others && RuleLabels(r) >= 1;
      } else {
        assert others == {};
      }
    }
  }

  lemma LongestException(rules: Rules, domain: Labels) returns (r: Rule)
    requires ExceptionLengths(rules, domain) != {}
    ensures Applies(rules, domain, r) && r.Exception?
    ensures forall x :: Applies(rules, domain, x) && x.Exception? ==> RuleLabels(x) <= RuleLabels(r)
  {
    var lengths := ExceptionLengths(rules, domain);
    var n := Greatest(lengths);
    LengthsAreOfRules(rules, domain, n);
    r :| Applies(rules, domain, r) && r.Exception? && RuleLabels(r) == n;
    forall x | Applies(rules, domain, x) && x.Exception? ensures RuleLabels(x) <= n {
      LengthsAreOfRules(rules, domain, RuleLabels(x));
      assert RuleLabels(x) in lengths;
    }
  }

  lemma LongestOther(rules: Rules, domain: Labels) returns (r: Rule)
    requires ExactLengths(rules, domain) + WildcardLengths(rules, domain) != {}
    ensures Applies(rules, domain, r) && !r.Exception?
    ensures forall x :: Applies(rules, domain, x) && !x.Exception? ==> RuleLabels(x) <= RuleLabels(r)
  {
    var lengths := ExactLengths(rules, domain) + WildcardLengths(rules, domain);
    var n := Greatest(lengths);
    LengthsAreOfRules(rules, domain, n);
    r :| Applies(rules, domain, r) && !r.Exception? && RuleLabels(r) == n;
    forall x | Applies(rules, domain, x) && !x.Exception? ensures RuleLabels(x) <= n {
      LengthsAreOfRules(rules, domain, RuleLabels(x));
      assert RuleLabels(x) in lengths;
    }
  }

  lemma AppliedLength(rules: Rules, domain: Labels, r: Rule)
    requires Applies(rules, domain, r)
    ensures if r.Exception? then ExceptionLengths(rules, domain) != {}
            else ExactLengths(rules, domain) + WildcardLengths(rules, domain) != {}
  {
    LengthsAreOfRules(rules, domain, RuleLabels(r));
  }

  /** For every list and every domain some rule prevails. */
  lemma SomeRulePrevails(rules: Rules, domain: Labels) returns (r: Rule)
    ensures Prevails(rules, domain, r)
  {
    if e :| Applies(rules, domain, e) && e.Exception? {
      AppliedLength(rules, domain, e);
      r := LongestException(rules, domain);
    } else if m :| Applies(rules, domain, m) {
      AppliedLength(rules, domain, m);
      r := LongestOther(rules, domain);
    } else {
      r := DEFAULT;
    }
  }

  /**
    So the result is the algorithm's: the labels of the public suffix of the prevailing rule and one more, or none when
    the domain has no label to spare.
  */
  lemma RegistrableIsPublicSuffixPlusOne(rules: Rules, domain: Labels, r: Rule)
    requires Proper(rules) && Prevails(rules, domain, r)
    ensures RegistrableDomain(rules, domain).None? <==> |domain| <= PublicSuffixLength(r)
    ensures RegistrableDomain(rules, domain).Some? ==>
      var d := RegistrableDomain(rules, domain).value;
      |d| == PublicSuffixLength(r) + 1 && EndsWith(domain, d)
  {
    SuffixIsOfPrevailingRule(rules, domain, r);
  }

  // ----- a fixed point ----------------------------------------------------------------------------------------------

  lemma EndsWithShorter(domain: Labels, tail: Labels, rule: Labels)
    requires EndsWith(domain, tail)
    ensures EndsWith(tail, rule) ==> EndsWith(domain, rule)
    ensures EndsWith(domain, rule) && |rule| <= |tail| ==> EndsWith(tail, rule)
  {
    if EndsWith(tail, rule) {
      assert domain[|domain| - |rule|..] == domain[|domain| - |tail|..][|tail| - |rule|..];
    }
    if EndsWith(domain, rule) && |rule| <= |tail| {
      assert tail[|tail| - |rule|..] == domain[|domain| - |rule|..];
    }
  }

  lemma TailLengths(rules: Rules, domain: Labels, tail: Labels, n: nat)
    requires EndsWith(domain, tail)
    ensures n in ExceptionLengths(rules, tail) <==> n in ExceptionLengths(rules, domain) && n <= |tail|
    ensures n in ExactLengths(rules, tail) <==> n in ExactLengths(rules, domain) && n <= |tail|
    ensures n in WildcardLengths(rules, tail) <==> n in WildcardLengths(rules, domain) && n <= |tail|
  {
    forall rule: Labels
      ensures EndsWith(tail, rule) <==> EndsWith(domain, rule) && |rule| <= |tail|
    {
      EndsWithShorter(domain, tail, rule);
    }
  }

  lemma MaxOfCut(all: set<nat>, cut: set<nat>, floor: nat, limit: nat)
    requires MaxOf(all, floor) <= limit && forall n :: n in cut <==> n in all && n <= limit
    ensures MaxOf(cut, floor) == MaxOf(all, floor)
  {
  }

  /** Cutting a domain down to its registrable part cuts no rule that matters. */
  lemma SuffixOfTail(rules: Rules, domain: Labels, tail: Labels)
    requires Proper(rules) && EndsWith(domain, tail) && |tail| == SuffixLabels(rules, domain) + 1
    ensures SuffixLabels(rules, tail) == SuffixLabels(rules, domain)
  {
    forall k: nat
      ensures k in ExceptionLengths(rules, tail) <==> k in ExceptionLengths(rules, domain) && k <= |tail|
      ensures k in ExactLengths(rules, tail) <==> k in ExactLengths(rules, domain) && k <= |tail|
      ensures k in WildcardLengths(rules, tail) <==> k in WildcardLengths(rules, domain) && k <= |tail|
    {
      TailLengths(rules, domain, tail, k);
    }
    var exceptions := ExceptionLengths(rules, domain);
    if exceptions != {} {
      MaxOfCut(exceptions, ExceptionLengths(rules, tail), 0, |tail|);
      assert MaxOf(exceptions, 0) in exceptions by { var n :| n in exceptions; NotEmptyRule(rules, domain, n); }
    } else {
      MaxOfCut(ExactLengths(rules, domain) + WildcardLengths(rules, domain),
               ExactLengths(rules, tail) + WildcardLengths(rules, tail), 1, |tail|);
    }
  }

  lemma NotEmptyRule(rules: Rules, domain: Labels, n: nat)
    requires Proper(rules) && n in ExceptionLengths(rules, domain)
    ensures n >= 1
  {
  }

  /** The registrable domain of a registrable domain is itself. */
  lemma RegistrableIsFixedPoint(rules: Rules, domain: Labels)
    requires Proper(rules) && RegistrableDomain(rules, domain).Some?
    ensures RegistrableDomain(rules, RegistrableDomain(rules, domain).value) == RegistrableDomain(rules, domain)
  {
    var n := SuffixLabels(rules, domain);
    SuffixNotNegative(rules, domain);
    var tail := domain[|domain| - n - 1..];
    SuffixOfTail(rules, domain, tail);
    assert tail[|tail| - n - 1..] == tail;
  }

  lemma SuffixNotNegative(rules: Rules, domain: Labels)
    requires Proper(rules)
    ensures SuffixLabels(rules, domain) >= 0
  {
    var exceptions := ExceptionLengths(rules, domain);
    if exceptions != {} {
      var n :| n in exceptions;
      assert n >= 1;
    }
  }
}
