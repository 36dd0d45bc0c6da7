/** Texts in the order of their code points, and the one sorted list of a set of texts. */
module TextOrder {
  predicate Less(a: string, b: string) {
    if b == [] then false
    else if a == [] then true
    else a[0] < b[0] || (a[0] == b[0] && Less(a[1..], b[1..]))
  }

  /** The texts agree up to `k`, and there the first has ended or has the smaller character. */
  predicate DifferAt(a: string, b: string, k: nat) {
    k <= |a| && k < |b| && a[..k] == b[..k] && (k == |a| || a[k] < b[k])
  }

  /** One text comes before another exactly when it is less where they first differ. */
  lemma {:induction false} LessExactly(a: string, b: string)
    ensures Less(a, b) <==> exists k: nat :: DifferAt(a, b, k)
  {
    if a == [] || b == [] || a[0] != b[0] {
      if Less(a, b) { assert DifferAt(a, b, 0); }
      if k: nat :| DifferAt(a, b, k) { assert k > 0 ==> a[..k][0] == b[..k][0]; }
    } else {
      LessExactly(a[1..], b[1..]);
      if k: nat :| DifferAt(a[1..], b[1..], k) {
        assert a[..k + 1] == [a[0]] + a[1..][..k] && b[..k + 1] == [b[0]] + b[1..][..k];
        assert DifferAt(a, b, k + 1);
      }
      if k: nat :| DifferAt(a, b, k) {
        assert k > 0 && a[1..][..k - 1] == a[..k][1..] && b[1..][..k - 1] == b[..k][1..];
        assert DifferAt(a[1..], b[1..], k - 1);
      }
    }
  }

  lemma {:induction false} LessIrreflexive(a: string)
    ensures !Less(a, a)
  {
    if a != [] { LessIrreflexive(a[1..]); }
  }

  lemma {:induction false} LessTransitive(a: string, b: string, c: string)
    requires Less(a, b) && Less(b, c)
    ensures Less(a, c)
  {
    if a != [] && a[0] == b[0] && b[0] == c[0] { LessTransitive(a[1..], b[1..], c[1..]); }
  }

  lemma NotLessThrough(x: string, a: string, b: string)
    requires Less(x, a) && !Less(b, a)
    ensures !Less(b, x)
  {
    if Less(b, x) { LessTransitive(b, x, a); }
  }

  lemma {:induction false} LessTotal(a: string, b: string)
    ensures Less(a, b) || a == b || Less(b, a)
  {
    if a != [] && b != [] && a[0] == b[0] {
      LessTotal(a[1..], b[1..]);
      assert a == [a[0]] + a[1..] && b == [b[0]] + b[1..];
    }
  }

  predicate Ascending(s: seq<string>) { forall i, j :: 0 <= i < j < |s| ==> Less(s[i], s[j]) }

  /** In order, a text possibly more than once. */
  predicate InOrder(s: seq<string>) { forall i, j :: 0 <= i < j < |s| ==> !Less(s[j], s[i]) }

  predicate NoRepeat(s: seq<string>) { forall i, j :: 0 <= i < j < |s| ==> s[i] != s[j] }

  function Elements(s: seq<string>): set<string> { set x | x in s }

  /** `x` put behind the texts that are not greater. */
  function Insert(s: seq<string>, x: string): (r: seq<string>)
    ensures multiset(r) == multiset(s) + multiset{x}
  {
    if s == [] || Less(x, s[0]) then [x] + s
    else
      assert s == [s[0]] + s[1..];
      [s[0]] + Insert(s[1..], x)
  }

  lemma {:induction false} InsertKeepsOrder(s: seq<string>, x: string)
    requires InOrder(s)
    ensures InOrder(Insert(s, x))
  {
    if s == [] {
    } else if Less(x, s[0]) {
      forall j | 0 <= j < |s| ensures !Less(s[j], x) {
        LessIrreflexive(s[0]);
        NotLessThrough(x, s[0], s[j]);
      }
    } else {
      var rest := Insert(s[1..], x);
      InsertKeepsOrder(s[1..], x);
      forall j | 0 <= j < |rest| ensures !Less(rest[j], s[0]) {
        assert rest[j] in multiset(rest);
        if rest[j] != x {
          assert rest[j] in multiset(s[1..]);
          var i :| 0 <= i < |s[1..]| && s[1..][i] == rest[j];
          assert s[i + 1] == rest[j];
        }
      }
    }
  }

  /** `sorted` of a list: all its texts, repeats included, in order. */
  function Sorted(s: seq<string>): (r: seq<string>)
    ensures multiset(r) == multiset(s)
  {
    if s == [] then [] else
      assert s == s[..|s| - 1] + [s[|s| - 1]];
      Insert(Sorted(s[..|s| - 1]), s[|s| - 1])
  }

  lemma {:induction false} SortedIsInOrder(s: seq<string>)
    ensures InOrder(Sorted(s))
  {
    if s != [] {
      SortedIsInOrder(s[..|s| - 1]);
      InsertKeepsOrder(Sorted(s[..|s| - 1]), s[|s| - 1]);
    }
  }

  lemma {:induction false} NoRepeatCounts(s: seq<string>)
    ensures NoRepeat(s) <==> forall x :: multiset(s)[x] <= 1
  {
    if s != [] {
      var rest, head := s[1..], s[0];
      assert s == [head] + rest;
      NoRepeatCounts(rest);
      assert NoRepeat(s) <==> NoRepeat(rest) && head !in rest by {
        if NoRepeat(s) {
          forall i, j | 0 <= i < j < |rest| ensures rest[i] != rest[j] { assert s[i + 1] != s[j + 1]; }
          forall j | 0 <= j < |rest| ensures rest[j] != head { assert s[0] != s[j + 1]; }
        }
      }
      assert head in rest <==> multiset(rest)[head] >= 1;
      if NoRepeat(s) {
        forall x ensures multiset(s)[x] <= 1 {}
      } else if NoRepeat(rest) {
        assert multiset(s)[head] >= 2;
      } else {
        var x :| multiset(rest)[x] > 1;
        assert multiset(s)[x] > 1;
      }
    }
  }

  /** A list without repeats sorts to the ascending list of the same texts. */
  lemma SortedWithoutRepeats(s: seq<string>)
    requires NoRepeat(s)
    ensures Ascending(Sorted(s)) && Elements(Sorted(s)) == Elements(s)
  {
    var r := Sorted(s);
    SortedIsInOrder(s);
    NoRepeatCounts(s);
    NoRepeatCounts(r);
    forall i, j | 0 <= i < j < |r| ensures Less(r[i], r[j]) { LessTotal(r[i], r[j]); }
    forall x ensures x in r <==> x in s {
      assert x in multiset(r) <==> x in r;
      assert x in multiset(s) <==> x in s;
    }
  }

  lemma HeadIn(a: seq<string>)
    requires a != []
    ensures a[0] in Elements(a)
  {
  }

  /** A set of texts has one sorted list. */
  lemma {:induction false} OneSortedList(a: seq<string>, b: seq<string>)
    requires Ascending(a) && Ascending(b) && Elements(a) == Elements(b)
    ensures a == b
  {
    if b != [] { HeadIn(b); }
    if a != [] {
      HeadIn(a);
      var i :| 0 <= i < |b| && b[i] == a[0];
      var j :| 0 <= j < |a| && a[j] == b[0];
      if i > 0 && j > 0 { LessTransitive(a[0], a[j], a[0]); }
      LessIrreflexive(a[0]);
      assert a[0] == b[0];
      forall y ensures y in a[1..] <==> y in b[1..] {
        RestOf(a, y);
        RestOf(b, y);
        assert y in Elements(a) <==> y in a;
        assert y in Elements(b) <==> y in b;
      }
      OneSortedList(a[1..], b[1..]);
      assert a == [a[0]] + a[1..] && b == [b[0]] + b[1..];
    }
  }

  lemma RestOf(a: seq<string>, y: string)
    requires Ascending(a) && a != []
    ensures y in a[1..] <==> y in a && y != a[0]
  {
    LessIrreflexive(a[0]);
    if y in a && y != a[0] {
      var i :| 0 <= i < |a| && a[i] == y;
      assert a[1..][i - 1] == y;
    }
  }
}
