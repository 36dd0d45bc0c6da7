/** Domain names as text: dot-separated labels of letters, digits and inner hyphens. */
module Domains {
  import opened Text

  predicate LabelShape(s: string) {
    1 <= |s| <= 63 && s[0] != '-' && s[|s| - 1] != '-'
    && forall i :: 0 <= i < |s| ==> IsLower(s[i]) || IsDigit(s[i]) || s[i] == '-'
  }

  /** `split(".")` */
  function Labels(s: string): (r: seq<string>)
    ensures r != []
  {
    if s == [] then [""] else
    var rest := Labels(s[1..]);
    if s[0] == '.' then [""] + rest else [[s[0]] + rest[0]] + rest[1..]
  }

  predicate DomainShape(s: string) {
    var labels := Labels(s);
    2 <= |labels| && forall i :: 0 <= i < |labels| ==> LabelShape(labels[i])
  }

  function Dotted(labels: seq<string>): string {
    if labels == [] then "" else if |labels| == 1 then labels[0] else labels[0] + "." + Dotted(labels[1..])
  }

  predicate NoDot(part: string) { forall i :: 0 <= i < |part| ==> part[i] != '.' }

  predicate NoDots(labels: seq<string>) { forall i :: 0 <= i < |labels| ==> NoDot(labels[i]) }

  /** Splitting and joining: the labels of a text hold no dot, and joined with dots they are the text again. */
  lemma {:induction false} DottedLabels(s: string)
    ensures Dotted(Labels(s)) == s && NoDots(Labels(s))
  {
    if s != [] {
      var rest, labels := Labels(s[1..]), Labels(s);
      DottedLabels(s[1..]);
      assert s == [s[0]] + s[1..];
      if s[0] == '.' {
        assert labels[1..] == rest;
      } else {
        assert labels[1..] == rest[1..];
      }
    }
  }

  lemma {:induction false} LabelsWithFirst(part: string, rest: string)
    requires NoDot(part)
    ensures Labels(part) == [part] && Labels(part + "." + rest) == [part] + Labels(rest)
  {
    var all := part + "." + rest;
    if part == [] {
      assert all[1..] == rest;
    } else {
      LabelsWithFirst(part[1..], rest);
      assert all[1..] == part[1..] + "." + rest;
      assert [part[0]] + part[1..] == part;
      assert ([part[1..]] + Labels(rest))[1..] == Labels(rest);
    }
  }

  /** Joining and splitting: no labels are lost or changed. */
  lemma {:induction false} LabelsDotted(labels: seq<string>)
    requires labels != [] && NoDots(labels)
    ensures Labels(Dotted(labels)) == labels
  {
    if |labels| == 1 {
      LabelsWithFirst(labels[0], "");
    } else {
      LabelsDotted(labels[1..]);
      LabelsWithFirst(labels[0], Dotted(labels[1..]));
    }
  }

  /** A domain name is two or more labels joined with dots. */
  lemma DomainShapeExactly(s: string)
    ensures DomainShape(s) <==>
      exists labels :: |labels| >= 2 && s == Dotted(labels) && forall i :: 0 <= i < |labels| ==> LabelShape(labels[i])
  {
    DottedLabels(s);
    if labels :| |labels| >= 2 && s == Dotted(labels) && forall i :: 0 <= i < |labels| ==> LabelShape(labels[i]) {
      assert NoDots(labels);
      LabelsDotted(labels);
    }
  }
}
