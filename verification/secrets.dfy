/** What the record keeper takes for a secret: three searches, each for a stretch of the text. */
module Secrets {
  import opened Text

  predicate IsAlnum(c: char) { IsUpper(c) || IsLower(c) || IsDigit(c) }

  predicate SegmentChar(c: char) { IsAlnum(c) || c == '_' || c == '-' }

  predicate TailChar(c: char) { SegmentChar(c) || c == '+' || c == '/' || c == '=' }

  const WORDS := {"bearer ", "password", "cookie", "authorization", "mfa", "token"}

  predicate AllBetween(t: string, from: nat, to: nat, tail: bool)
    requires to <= |t|
  {
    forall k :: from <= k < to ==> if tail then TailChar(t[k]) else SegmentChar(t[k])
  }

  predicate BlobAt(t: string, i: nat) { i + 40 <= |t| && AllBetween(t, i, i + 40, true) }

  /** Two dotted segments of at least ten characters and the start of a third, from position `i`. */
  predicate JwtAt(t: string, i: nat, a: nat, b: nat) {
    10 <= a && 10 <= b && i + a + b + 12 <= |t|
    && AllBetween(t, i, i + a, false) && t[i + a] == '.'
    && AllBetween(t, i + a + 1, i + a + 1 + b, false) && t[i + a + 1 + b] == '.'
    && AllBetween(t, i + a + b + 2, i + a + b + 12, true)
  }

  predicate WordAt(t: string, i: nat, word: string) {
    i + |word| <= |t| && forall k :: 0 <= k < |word| ==> LowerChar(t[i + k]) == word[k]
  }

  /** A token or a long opaque stretch. */
  predicate Opaque(t: string) {
    (exists i :: 0 <= i <= |t| && BlobAt(t, i))
    || (exists i, a, b :: 0 <= i <= |t| && 0 <= a <= |t| && 0 <= b <= |t| && JwtAt(t, i, a, b))
  }

  predicate LooksSecret(t: string) {
    Opaque(t) || exists word, i :: word in WORDS && 0 <= i <= |t| && WordAt(t, i, word)
  }

  /** `u` is a stretch of `t`, starting at `o`. */
  predicate StretchAt(u: string, t: string, o: nat) { o + |u| <= |t| && t[o..o + |u|] == u }

  lemma OpaqueStretch(u: string, t: string, o: nat)
    requires StretchAt(u, t, o) && Opaque(u)
    ensures Opaque(t)
  {
    assert forall k :: 0 <= k < |u| ==> u[k] == t[o + k];
    if i :| 0 <= i <= |u| && BlobAt(u, i) {
      assert BlobAt(t, o + i);
    } else {
      var i, a, b :| 0 <= i <= |u| && 0 <= a <= |u| && 0 <= b <= |u| && JwtAt(u, i, a, b);
      JwtShifts(u, t, o, i, a, b);
    }
  }

  /** Every stretch of a harmless text is harmless: cutting a text never creates a secret. */
  lemma StretchIsHarmless(u: string, t: string, o: nat)
    requires StretchAt(u, t, o) && LooksSecret(u)
    ensures LooksSecret(t)
  {
    assert forall k :: 0 <= k < |u| ==> u[k] == t[o + k];
    if Opaque(u) {
      OpaqueStretch(u, t, o);
    } else {
      var word, i :| word in WORDS && 0 <= i <= |u| && WordAt(u, i, word);
      assert WordAt(t, o + i, word);
    }
  }

  lemma JwtShifts(u: string, t: string, o: nat, i: nat, a: nat, b: nat)
    requires StretchAt(u, t, o) && JwtAt(u, i, a, b)
    ensures JwtAt(t, o + i, a, b)
  {
    assert forall k :: 0 <= k < |u| ==> u[k] == t[o + k];
  }

  lemma {:induction false} StripLeftStretch(s: string) returns (o: nat)
    ensures StretchAt(StripLeft(s), s, o) && o + |StripLeft(s)| == |s|
  {
    if s != [] && IsSpace(s[0]) {
      var p := StripLeftStretch(s[1..]);
      o := p + 1;
    } else {
      o := 0;
    }
  }

  lemma StripStretch(s: string) returns (o: nat)
    ensures StretchAt(Strip(s), s, o)
  {
    o := StripLeftStretch(s);
    assert Strip(s) <= StripLeft(s);
    assert Strip(s) == StripLeft(s)[..|Strip(s)|];
  }
}
