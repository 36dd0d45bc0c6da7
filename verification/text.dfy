/**
  Character classes and the fixed text shapes (references, CO numbers, tenant names) the records are checked against.
*/
module Text {
  predicate IsDigit(c: char) { '0' <= c <= '9' }

  predicate IsUpper(c: char) { 'A' <= c <= 'Z' }

  predicate IsLower(c: char) { 'a' <= c <= 'z' }

  /** Python's white space, as `str.split` and `str.strip` see it. */
  predicate IsSpace(c: char) {
    var n := c as int;
    0x09 <= n <= 0x0d || 0x1c <= n <= 0x20 || n == 0x85 || n == 0xa0 || n == 0x1680 || 0x2000 <= n <= 0x200a
    || n == 0x2028 || n == 0x2029 || n == 0x202f || n == 0x205f || n == 0x3000
  }

  predicate IsControl(c: char) {
    c as int <= 0x1f || c as int == 0x7f
  }

  /** `[A-Z][A-Z0-9_-]{5,63}` */
  predicate ReferenceShape(s: string) {
    6 <= |s| <= 64 && IsUpper(s[0])
    && forall i :: 1 <= i < |s| ==> IsUpper(s[i]) || IsDigit(s[i]) || s[i] == '_' || s[i] == '-'
  }

  /** `CO-[0-9]{4,10}` */
  predicate CoShape(s: string) {
    7 <= |s| <= 13 && s[..3] == "CO-" && forall i :: 3 <= i < |s| ==> IsDigit(s[i])
  }

  /** `[^\s<>'"]{1,254}` */
  predicate IssuerShape(s: string) {
    1 <= |s| <= 254
    && forall i :: 0 <= i < |s| ==> !IsSpace(s[i]) && s[i] != '<' && s[i] != '>' && s[i] != '\'' && s[i] != '"'
  }

  /** One line, single inner spaces, no padding, no control character, at most 80 characters. */
  predicate TenantNameShape(s: string) {
    && 0 < |s| <= 80
    && s[0] != ' ' && s[|s| - 1] != ' '
    && (forall i :: 0 <= i < |s| ==> !IsControl(s[i]) && (IsSpace(s[i]) ==> s[i] == ' '))
    && (forall i :: 0 <= i < |s| - 1 ==> !(s[i] == ' ' && s[i + 1] == ' '))
  }

  predicate RevisionShape(s: string) {
    0 < |s| <= 128
  }

  predicate IsHex(c: char) { IsDigit(c) || 'a' <= c <= 'f' }

  function LowerChar(c: char): char {
    if IsUpper(c) then (c as int + 32) as char else c
  }

  function Lower(s: string): (r: string)
    ensures |r| == |s|
  {
    seq(|s|, i requires 0 <= i < |s| => LowerChar(s[i]))
  }

  function StripLeft(s: string): (r: string)
    ensures |r| <= |s| && (r != [] ==> !IsSpace(r[0]))
    ensures (s == [] || !IsSpace(s[0])) ==> r == s
  {
    if s != [] && IsSpace(s[0]) then StripLeft(s[1..]) else s
  }

  function StripRight(s: string): (r: string)
    ensures r <= s && (r != [] ==> !IsSpace(r[|r| - 1]))
    ensures (s == [] || !IsSpace(s[|s| - 1])) ==> r == s
  {
    if s != [] && IsSpace(s[|s| - 1]) then StripRight(s[..|s| - 1]) else s
  }

  /** `str.strip()` */
  function Strip(s: string): (r: string)
    ensures r != [] ==> !IsSpace(r[0]) && !IsSpace(r[|r| - 1])
    ensures s != [] && !IsSpace(s[0]) && !IsSpace(s[|s| - 1]) ==> r == s
  {
    StripRight(StripLeft(s))
  }

  lemma StripTwice(s: string)
    ensures Strip(Strip(s)) == Strip(s)
  {
  }

  /** The white space runs of `s` as single spaces, none at the ends. */
  function Collapsed(s: string): string {
    if s == [] then []
    else
      var rest := Collapsed(s[1..]);
      if !IsSpace(s[0]) then
        (if |s| > 1 && IsSpace(s[1]) && rest != [] then [s[0], ' '] + rest else [s[0]] + rest)
      else rest
  }

  // ----- what these functions leave ---------------------------------------------------------------------------------

  /** Only the capital ASCII letters change, each to its small one. */
  lemma LowerExactly(s: string, i: nat)
    requires i < |s|
    ensures Lower(s)[i] as int == s[i] as int + (if 'A' <= s[i] <= 'Z' then 32 else 0)
  {
  }

  /** The 29 characters that `str.split()` and `str.strip()` take as white space. */
  lemma WhiteSpaceExactly(c: char)
    ensures IsSpace(c) <==> c as int in {
      9, 10, 11, 12, 13, 28, 29, 30, 31, 32, 133, 160, 5760, 8192, 8193, 8194, 8195, 8196, 8197, 8198, 8199, 8200, 8201,
      8202, 8232, 8233, 8239, 8287, 12288}
  {
  }

  predicate AllSpace(s: string) { forall i :: 0 <= i < |s| ==> IsSpace(s[i]) }

  lemma {:induction false} StripLeftExactly(s: string) returns (i: nat)
    ensures i <= |s| && StripLeft(s) == s[i..] && AllSpace(s[..i])
  {
    if s != [] && IsSpace(s[0]) {
      var n := StripLeftExactly(s[1..]);
      i := n + 1;
      assert s[..i] == [s[0]] + s[1..][..n];
    } else {
      i := 0;
    }
  }

  lemma {:induction false} StripRightExactly(s: string) returns (j: nat)
    ensures j <= |s| && StripRight(s) == s[..j] && AllSpace(s[j..])
  {
    if s != [] && IsSpace(s[|s| - 1]) {
      var before := s[..|s| - 1];
      j := StripRightExactly(before);
      assert before[..j] == s[..j];
      forall k | 0 <= k < |s[j..]| ensures IsSpace(s[j..][k]) {
        if j + k < |before| { assert before[j..][k] == s[j + k]; }
      }
    } else {
      j := |s|;
    }
  }

  /** What is stripped is white space at both ends, and all of it. */
  lemma StripExactly(s: string) returns (i: nat, j: nat)
    ensures i <= j <= |s| && Strip(s) == s[i..j] && AllSpace(s[..i]) && AllSpace(s[j..])
    ensures i < j ==> !IsSpace(s[i]) && !IsSpace(s[j - 1])
  {
    i := StripLeftExactly(s);
    var rest := s[i..];
    var n := StripRightExactly(rest);
    j := i + n;
    assert rest[..n] == s[i..j] && rest[n..] == s[j..];
  }

  /** `str.split()`: the stretches of `s` without white space. */
  function Words(s: string): (r: seq<string>)
    ensures s != [] && !IsSpace(s[0]) ==> r != []
  {
    if s == [] then []
    else if IsSpace(s[0]) then Words(s[1..])
    else if |s| == 1 || IsSpace(s[1]) then [[s[0]]] + Words(s[1..])
    else [[s[0]] + Words(s[1..])[0]] + Words(s[1..])[1..]
  }

  function Spaced(words: seq<string>): string {
    if words == [] then [] else if |words| == 1 then words[0] else words[0] + " " + Spaced(words[1..])
  }

  /** Collapsing joins the words with single spaces. */
  lemma {:induction false} CollapsedJoinsWords(s: string)
    ensures Collapsed(s) == Spaced(Words(s)) && (Collapsed(s) == [] <==> Words(s) == [])
  {
    if s != [] {
      CollapsedJoinsWords(s[1..]);
      var rest := Words(s[1..]);
      if !IsSpace(s[0]) {
        if |s| == 1 || IsSpace(s[1]) {
          assert Words(s)[1..] == rest;
        } else {
          var more := [[s[0]] + rest[0]] + rest[1..];
          assert more[1..] == rest[1..];
        }
      }
    }
  }

  lemma {:induction false} WordsOfCollapsed(s: string)
    ensures Words(Collapsed(s)) == Words(s)
    ensures s != [] && !IsSpace(s[0]) ==> Collapsed(s) != [] && Collapsed(s)[0] == s[0]
    ensures Collapsed(s) != [] ==> !IsSpace(Collapsed(s)[0])
  {
    if s != [] {
      WordsOfCollapsed(s[1..]);
      var rest := Collapsed(s[1..]);
      if !IsSpace(s[0]) {
        var all := Collapsed(s);
        if |s| > 1 && IsSpace(s[1]) && rest != [] {
          assert all[1..] == [' '] + rest && ([' '] + rest)[1..] == rest;
          assert IsSpace(all[1]);
        } else {
          assert all[1..] == rest;
        }
      }
    }
  }

  /** Two texts collapse to the same exactly when they have the same words. */
  lemma SameCollapsed(s: string, t: string)
    ensures Collapsed(s) == Collapsed(t) <==> Words(s) == Words(t)
  {
    CollapsedJoinsWords(s);
    CollapsedJoinsWords(t);
    WordsOfCollapsed(s);
    WordsOfCollapsed(t);
  }

  lemma {:induction false} WordFirst(word: string, more: string)
    requires word != [] && forall k :: 0 <= k < |word| ==> !IsSpace(word[k])
    ensures Words(word) == [word] && Words(word + " " + more) == [word] + Words(more)
  {
    var all := word + " " + more;
    if |word| == 1 {
      assert all[1..] == " " + more && (" " + more)[1..] == more && IsSpace(' ');
      assert word == [word[0]] && Words(word[1..]) == [] && all[1] == ' ';
      assert Words(all) == [word] + Words(all[1..]);
    } else {
      WordFirst(word[1..], more);
      assert all[1..] == word[1..] + " " + more;
      assert [word[0]] + word[1..] == word;
      assert ([word[1..]] + Words(more))[1..] == Words(more);
    }
  }

  lemma TwoWords(a: string, b: string)
    requires a != [] && b != []
    requires (forall k :: 0 <= k < |a| ==> !IsSpace(a[k])) && forall k :: 0 <= k < |b| ==> !IsSpace(b[k])
    ensures Words(a + " " + b) == [a, b] && Spaced([a, b]) == a + " " + b
  {
    WordFirst(a, b);
    WordFirst(b, "");
    assert [a, b][1..] == [b];
  }

  predicate Contains(s: string, word: string) {
    exists i :: 0 <= i <= |s| && word <= s[i..]
  }

  lemma ContainsStep(s: string, word: string)
    requires s != []
    ensures Contains(s, word) <==> word <= s || Contains(s[1..], word)
  {
    if i :| 0 <= i <= |s| && word <= s[i..] && !(word <= s) {
      assert s == s[0..];
      assert s[1..][i - 1..] == s[i..];
    }
    if i :| 0 <= i <= |s[1..]| && word <= s[1..][i..] { assert s[1..][i..] == s[i + 1..]; }
    if word <= s { assert s == s[0..]; }
  }

  lemma {:induction false} WordStarts(s: string, word: string)
    requires s != [] && !IsSpace(s[0]) && forall k :: 0 <= k < |word| ==> !IsSpace(word[k])
    ensures word <= s <==> word <= Collapsed(s)
  {
    var rest, all := Collapsed(s[1..]), Collapsed(s);
    if word != [] && word[0] == s[0] {
      var more := word[1..];
      assert word == [s[0]] + more;
      assert word <= s <==> more <= s[1..] by { if more <= s[1..] { assert s == [s[0]] + s[1..]; } }
      assert word <= all <==> more <= all[1..] by { if more <= all[1..] { assert all == [s[0]] + all[1..]; } }
      if |s| > 1 && !IsSpace(s[1]) {
        assert all[1..] == rest;
        WordStarts(s[1..], more);
      } else if |s| > 1 && rest != [] {
        assert all[1] == ' ' && IsSpace(' ');
        assert more != [] ==> s[1..][0] == s[1] && all[1..][0] == ' ';
      } else {
        assert all[1..] == [];
      }
    } else {
      assert word != [] ==> all[0] == s[0];
    }
  }

  lemma BlankHolds(rest: string, word: string)
    requires word != [] && !IsSpace(word[0])
    ensures Contains([' '] + rest, word) <==> Contains(rest, word)
  {
    assert IsSpace(' ');
    ContainsStep([' '] + rest, word);
    assert ([' '] + rest)[1..] == rest;
  }

  lemma RestOfCollapsed(s: string)
    requires s != [] && !IsSpace(s[0])
    ensures Collapsed(s) != []
    ensures Collapsed(s)[1..] == Collapsed(s[1..]) || Collapsed(s)[1..] == [' '] + Collapsed(s[1..])
  {
  }

  /** The rest of a collapsed text, with or without one more blank, holds the same words. */
  lemma RestHolds(s: string, word: string)
    requires s != [] && !IsSpace(s[0]) && word != [] && !IsSpace(word[0])
    ensures Collapsed(s) != []
    ensures Contains(Collapsed(s)[1..], word) <==> Contains(Collapsed(s[1..]), word)
  {
    RestOfCollapsed(s);
    BlankHolds(Collapsed(s[1..]), word);
  }

  /** A word without white space in it is in a text exactly when it is in the collapsed text. */
  lemma {:induction false} WordKept(s: string, word: string)
    requires word != [] && forall k :: 0 <= k < |word| ==> !IsSpace(word[k])
    ensures Contains(Collapsed(s), word) <==> Contains(s, word)
  {
    if s != [] {
      WordKept(s[1..], word);
      ContainsStep(s, word);
      if !IsSpace(s[0]) {
        WordStarts(s, word);
        RestHolds(s, word);
        ContainsStep(Collapsed(s), word);
      }
    }
  }

  /** White space only as single blanks between other characters. */
  predicate SingleBlanks(s: string) {
    && (s != [] ==> !IsSpace(s[0]) && !IsSpace(s[|s| - 1]))
    && (forall i :: 0 <= i < |s| && IsSpace(s[i]) ==> s[i] == ' ')
    && (forall i :: 0 <= i < |s| - 1 ==> !(IsSpace(s[i]) && IsSpace(s[i + 1])))
  }

  lemma {:induction false} CollapsedHasSingleBlanks(s: string)
    ensures SingleBlanks(Collapsed(s))
  {
    if s != [] {
      CollapsedHasSingleBlanks(s[1..]);
      var rest, all := Collapsed(s[1..]), Collapsed(s);
      if !IsSpace(s[0]) && all == [s[0], ' '] + rest {
        forall i | 2 <= i < |all| ensures all[i] == rest[i - 2] {}
      }
    }
  }

  lemma {:induction false} SingleBlanksStay(s: string)
    requires SingleBlanks(s)
    ensures Collapsed(s) == s
  {
    if |s| > 1 {
      if IsSpace(s[1]) {
        assert |s| > 2 && SingleBlanks(s[2..]) && s[1..][1..] == s[2..];
        SingleBlanksStay(s[2..]);
        assert Collapsed(s[1..]) == s[2..];
      } else {
        SingleBlanksStay(s[1..]);
      }
    } else if |s| == 1 {
      assert Collapsed(s[1..]) == [];
    }
  }

  lemma SingleBlanksExactly(s: string)
    ensures SingleBlanks(s) <==> s == Spaced(Words(s))
  {
    CollapsedJoinsWords(s);
    CollapsedHasSingleBlanks(s);
    if SingleBlanks(s) { SingleBlanksStay(s); }
  }

  predicate NoC0(s: string) { forall i :: 0 <= i < |s| ==> s[i] as int >= 0x20 && s[i] as int != 0x7f }

  lemma ShapeIsSingleBlanks(s: string)
    ensures TenantNameShape(s) <==> 1 <= |s| <= 80 && SingleBlanks(s) && NoC0(s)
  {
    assert IsSpace(' ');
  }

  /** A tenant name is one to eighty characters, its own words joined with single blanks, with no control character. */
  lemma TenantNameExactly(s: string)
    ensures TenantNameShape(s) <==> 1 <= |s| <= 80 && s == Spaced(Words(s)) && NoC0(s)
  {
    ShapeIsSingleBlanks(s);
    SingleBlanksExactly(s);
  }
}
