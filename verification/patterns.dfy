/**
  The shapes of the other modules as the regular expressions they stand for: sequences of pieces, each a fixed text or
  so many characters of a class, that together match a text from end to end.
*/
module Patterns {
  import opened Text
  import opened Wrappers
  import Domains
  import Secrets
  import Sanitizer
  import CreateRecord
  import RateLimiter

  type Class = char -> bool

  datatype Piece = Fixed(text: string) | Of(chars: Class, low: nat, high: nat)

  type Pattern = seq<Piece>

  ghost predicate AllOf(chars: Class, s: string) { forall i :: 0 <= i < |s| ==> chars(s[i]) }

  ghost predicate PieceMatches(p: Piece, s: string) {
    match p
    case Fixed(text) => s == text
    case Of(chars, low, high) => low <= |s| <= high && AllOf(chars, s)
  }

  ghost predicate FullMatch(pattern: Pattern, s: string)
    decreases |pattern|
  {
    if pattern == [] then s == ""
    else exists n :: 0 <= n <= |s| && PieceMatches(pattern[0], s[..n]) && FullMatch(pattern[1..], s[n..])
  }

  lemma OnePiece(p: Piece, s: string)
    ensures FullMatch([p], s) <==> PieceMatches(p, s)
  {
    var pattern := [p];
    assert pattern[1..] == [];
    if n :| 0 <= n <= |s| && PieceMatches(pattern[0], s[..n]) && FullMatch(pattern[1..], s[n..]) {
      assert s[..n] == s;
    }
    if PieceMatches(p, s) {
      assert s[..|s|] == s && s[|s|..] == "";
      assert FullMatch(pattern[1..], s[|s|..]);
    }
  }

  ghost predicate HasSize(p: Piece, n: nat) {
    match p case Fixed(text) => |text| == n case Of(_, low, high) => low == high == n
  }

  lemma SizedPiece(p: Piece, rest: Pattern, n: nat, s: string)
    requires HasSize(p, n)
    ensures FullMatch([p] + rest, s) <==> n <= |s| && PieceMatches(p, s[..n]) && FullMatch(rest, s[n..])
  {
    var pattern := [p] + rest;
    assert pattern[0] == p && pattern[1..] == rest;
  }

  /** A pattern of one character and a run of another class. */
  lemma HeadAndRun(head: Class, run: Class, low: nat, high: nat, s: string)
    ensures FullMatch([Of(head, 1, 1)] + [Of(run, low, high)], s) <==>
      low + 1 <= |s| <= high + 1 && head(s[0]) && forall i :: 1 <= i < |s| ==> run(s[i])
  {
    SizedPiece(Of(head, 1, 1), [Of(run, low, high)], 1, s);
    if |s| > 0 {
      OnePiece(Of(run, low, high), s[1..]);
      assert forall i :: 1 <= i < |s| ==> s[1..][i - 1] == s[i];
      assert forall i :: 0 <= i < |s[1..]| ==> s[1..][i] == s[i + 1];
    }
  }

  /** A pattern of a fixed text and a run behind it. */
  lemma TextAndRun(text: string, run: Class, low: nat, high: nat, s: string)
    ensures FullMatch([Fixed(text)] + [Of(run, low, high)], s) <==>
      text <= s && |text| + low <= |s| <= |text| + high && forall i :: |text| <= i < |s| ==> run(s[i])
  {
    SizedPiece(Fixed(text), [Of(run, low, high)], |text|, s);
    if |text| <= |s| {
      OnePiece(Of(run, low, high), s[|text|..]);
      assert forall i :: |text| <= i < |s| ==> s[|text|..][i - |text|] == s[i];
      assert forall i :: 0 <= i < |s[|text|..]| ==> s[|text|..][i] == s[i + |text|];
    }
  }

  lemma RunAndTail(run: Class, low: nat, high: nat, tail: Class, s: string)
    ensures FullMatch([Of(run, low, high)] + [Of(tail, 1, 1)], s) <==>
      low + 1 <= |s| <= high + 1 && tail(s[|s| - 1]) && forall i :: 0 <= i < |s| - 1 ==> run(s[i])
  {
    var pattern := [Of(run, low, high)] + [Of(tail, 1, 1)];
    assert pattern[0] == Of(run, low, high) && pattern[1..] == [Of(tail, 1, 1)];
    forall n | 0 <= n <= |s| ensures FullMatch(pattern[1..], s[n..]) <==> n == |s| - 1 && tail(s[n]) {
      OnePiece(Of(tail, 1, 1), s[n..]);
    }
    if 1 <= |s| { assert FullMatch(pattern, s) ==> PieceMatches(pattern[0], s[..|s| - 1]); }
  }

  lemma HeadRunTail(head: Class, run: Class, low: nat, high: nat, tail: Class, s: string)
    ensures FullMatch([Of(head, 1, 1)] + ([Of(run, low, high)] + [Of(tail, 1, 1)]), s) <==>
      low + 2 <= |s| <= high + 2 && head(s[0]) && tail(s[|s| - 1]) && forall i :: 1 <= i < |s| - 1 ==> run(s[i])
  {
    var rest := [Of(run, low, high)] + [Of(tail, 1, 1)];
    SizedPiece(Of(head, 1, 1), rest, 1, s);
    if |s| > 0 {
      var behind := s[1..];
      RunAndTail(run, low, high, tail, behind);
      assert forall i :: 1 <= i < |s| ==> behind[i - 1] == s[i];
      assert forall i :: 0 <= i < |behind| ==> behind[i] == s[i + 1];
    }
  }

  // ----- classes ----------------------------------------------------------------------------------------------------

  predicate Capital(c: char) { 'A' <= c <= 'Z' }

  predicate Small(c: char) { 'a' <= c <= 'z' }

  predicate Digit(c: char) { '0' <= c <= '9' }

  predicate SmallOrDigit(c: char) { Small(c) || Digit(c) }

  predicate Alphanumeric(c: char) { Capital(c) || Small(c) || Digit(c) }

  /** `[A-Za-z0-9_-]` */
  predicate Segment(c: char) { Alphanumeric(c) || c == '_' || c == '-' }

  /** `[A-Za-z0-9+/=_-]` */
  predicate Tail(c: char) { Segment(c) || c == '+' || c == '/' || c == '=' }

  /** `[A-Za-z0-9_.-]` */
  predicate Name(c: char) { Segment(c) || c == '.' }

  predicate SmallDigitUnderscore(c: char) { SmallOrDigit(c) || c == '_' }

  // ----- the approval file, the rate limiter and domain labels ------------------------------------------------------

  /** `[A-Z][A-Z0-9_-]{5,63}` */
  const REFERENCE: Pattern :=
    [Of(Capital, 1, 1)] + [Of(c => Capital(c) || Digit(c) || c == '_' || c == '-', 5, 63)]

  lemma ReferenceExactly(s: string)
    ensures ReferenceShape(s) <==> FullMatch(REFERENCE, s)
  {
    HeadAndRun(Capital, c => Capital(c) || Digit(c) || c == '_' || c == '-', 5, 63, s);
  }

  /** `CO-[0-9]{4,10}` */
  const CO: Pattern := [Fixed("CO-")] + [Of(Digit, 4, 10)]

  lemma CoExactly(s: string)
    ensures CoShape(s) <==> FullMatch(CO, s)
  {
    TextAndRun("CO-", Digit, 4, 10, s);
  }

  /** `[^\s<>'"]{1,254}` */
  const ISSUER: Pattern := [Of(c => !IsSpace(c) && c !in {'<', '>', '\'', '"'}, 1, 254)]

  lemma IssuerExactly(s: string)
    ensures IssuerShape(s) <==> FullMatch(ISSUER, s)
  {
    OnePiece(Of(c => !IsSpace(c) && c !in {'<', '>', '\'', '"'}, 1, 254), s);
  }

  /** `[a-z0-9][a-z0-9._-]{0,127}` */
  const ACTOR: Pattern :=
    [Of(SmallOrDigit, 1, 1)] + [Of(c => SmallOrDigit(c) || c == '.' || c == '_' || c == '-', 0, 127)]

  lemma ActorExactly(s: string)
    ensures RateLimiter.ActorShape(s) <==> FullMatch(ACTOR, s)
  {
    HeadAndRun(SmallOrDigit, c => SmallOrDigit(c) || c == '.' || c == '_' || c == '-', 0, 127, s);
  }

  /** `[a-z0-9][a-z0-9-]{0,61}[a-z0-9]`, beside one such character alone. */
  const LONG_LABEL: Pattern :=
    [Of(SmallOrDigit, 1, 1)] + ([Of(c => SmallOrDigit(c) || c == '-', 0, 61)] + [Of(SmallOrDigit, 1, 1)])

  lemma LabelExactly(s: string)
    ensures Domains.LabelShape(s) <==> FullMatch([Of(SmallOrDigit, 1, 1)], s) || FullMatch(LONG_LABEL, s)
  {
    OnePiece(Of(SmallOrDigit, 1, 1), s);
    HeadRunTail(SmallOrDigit, c => SmallOrDigit(c) || c == '-', 0, 61, SmallOrDigit, s);
  }

  // ----- the create record ------------------------------------------------------------------------------------------

  /** `[A-Za-z0-9_.-]{1,80}` */
  const NAME: Pattern := [Of(Name, 1, 80)]

  lemma NameExactly(s: string)
    ensures Sanitizer.NameShape(s) <==> FullMatch(NAME, s)
  {
    OnePiece(Of(Name, 1, 80), s);
  }

  /** `unexpected:[A-Za-z0-9_.-]{1,80}`, beside a name alone. */
  const UNEXPECTED: Pattern := [Fixed("unexpected:")] + [Of(Name, 1, 80)]

  lemma PayloadNameExactly(s: string)
    ensures Sanitizer.PayloadNameShape(s) <==> FullMatch(NAME, s) || FullMatch(UNEXPECTED, s)
  {
    NameExactly(s);
    TextAndRun("unexpected:", Name, 1, 80, s);
    if |s| >= 11 {
      assert forall i :: 11 <= i < |s| ==> s[11..][i - 11] == s[i];
      assert forall i :: 0 <= i < |s[11..]| ==> s[11..][i] == s[i + 11];
    }
  }

  /** `[a-z][a-z0-9_]{2,80}` */
  const REASON: Pattern := [Of(Small, 1, 1)] + [Of(SmallDigitUnderscore, 2, 80)]

  lemma ReasonExactly(s: string)
    ensures Sanitizer.ReasonShape(s) <==> FullMatch(REASON, s)
  {
    HeadAndRun(Small, SmallDigitUnderscore, 2, 80, s);
  }

  /** `[a-z0-9_]{1,24}` */
  const TOKEN: Pattern := [Of(SmallDigitUnderscore, 1, 24)]

  lemma TokenShapeExactly(s: string)
    ensures Sanitizer.TokenShape(s) <==> FullMatch(TOKEN, s)
  {
    OnePiece(Of(SmallDigitUnderscore, 1, 24), s);
  }

  /** `[A-Za-z0-9][A-Za-z0-9_-]{0,39}` */
  const RECORD_CO: Pattern := [Of(Alphanumeric, 1, 1)] + [Of(Segment, 0, 39)]

  lemma RecordCoExactly(s: string)
    ensures CreateRecord.RecordCoShape(s) <==> FullMatch(RECORD_CO, s)
  {
    HeadAndRun(Alphanumeric, Segment, 0, 39, s);
  }

  // ----- what looks like a secret -----------------------------------------------------------------------------------

  /** Forty characters of one blob in a row. */
  ghost predicate HasBlob(t: string) {
    exists i: nat, x :: Secrets.StretchAt(x, t, i) && |x| >= 40 && AllOf(Tail, x)
  }

  ghost predicate ThreeParts(t: string, i: nat, x: string, y: string, z: string) {
    && Secrets.StretchAt(x + "." + y + "." + z, t, i) && |x| >= 10 && |y| >= 10 && |z| >= 10
    && AllOf(Segment, x) && AllOf(Segment, y) && AllOf(Tail, z)
  }

  /** A token of three parts with dots between them. */
  ghost predicate HasToken(t: string) { exists i: nat, x, y, z :: ThreeParts(t, i, x, y, z) }

  lemma BlobExactly(t: string)
    ensures HasBlob(t) <==> exists i :: 0 <= i <= |t| && Secrets.BlobAt(t, i)
  {
    if i :| 0 <= i <= |t| && Secrets.BlobAt(t, i) {
      var x := t[i..i + 40];
      assert forall k :: 0 <= k < 40 ==> x[k] == t[i + k];
      assert Secrets.StretchAt(x, t, i);
    }
    if i: nat, x :| Secrets.StretchAt(x, t, i) && |x| >= 40 && AllOf(Tail, x) {
      assert forall k :: i <= k < i + 40 ==> t[i..i + |x|][k - i] == t[k];
      assert Secrets.BlobAt(t, i);
    }
  }

  lemma PartsOfJwt(t: string, i: nat, a: nat, b: nat)
    requires Secrets.JwtAt(t, i, a, b)
    ensures HasToken(t)
  {
    var x, y, z := t[i..i + a], t[i + a + 1..i + a + 1 + b], t[i + a + b + 2..i + a + b + 12];
    assert t[i..i + a + b + 12] == x + "." + y + "." + z;
    assert AllOf(Segment, x) && AllOf(Segment, y) && AllOf(Tail, z) by {
      assert forall k :: 0 <= k < a ==> x[k] == t[i + k];
      assert forall k :: 0 <= k < b ==> y[k] == t[i + a + 1 + k];
      assert forall k :: 0 <= k < 10 ==> z[k] == t[i + a + b + 2 + k];
    }
    assert ThreeParts(t, i, x, y, z);
  }

  lemma JwtOfParts(t: string, i: nat, x: string, y: string, z: string)
    requires ThreeParts(t, i, x, y, z)
    ensures Secrets.JwtAt(t, i, |x|, |y|)
  {
    var all := x + "." + y + "." + z;
    assert forall k :: i <= k < i + |all| ==> t[i..i + |all|][k - i] == t[k];
    assert forall k :: 0 <= k < |x| ==> all[k] == x[k];
    assert forall k :: 0 <= k < |y| ==> all[|x| + 1 + k] == y[k];
    assert forall k :: 0 <= k < |z| ==> all[|x| + |y| + 2 + k] == z[k];
    forall k | i <= k < i + |x| ensures Secrets.SegmentChar(t[k]) { assert t[k] == x[k - i]; }
    forall k | i + |x| + 1 <= k < i + |x| + 1 + |y| ensures Secrets.SegmentChar(t[k]) {
      assert t[k] == y[k - i - |x| - 1];
    }
    forall k | i + |x| + |y| + 2 <= k < i + |x| + |y| + 12 ensures Secrets.TailChar(t[k]) {
      assert t[k] == z[k - i - |x| - |y| - 2];
    }
  }

  lemma TokenExactly(t: string)
    ensures HasToken(t) <==>
      exists i, a, b :: 0 <= i <= |t| && 0 <= a <= |t| && 0 <= b <= |t| && Secrets.JwtAt(t, i, a, b)
  {
    if i, a, b :| 0 <= i <= |t| && 0 <= a <= |t| && 0 <= b <= |t| && Secrets.JwtAt(t, i, a, b) {
      PartsOfJwt(t, i, a, b);
    }
    if i: nat, x, y, z :| ThreeParts(t, i, x, y, z) { JwtOfParts(t, i, x, y, z); }
  }

  lemma KeywordFound(t: string, word: string)
    ensures Contains(Lower(t), word) <==> exists i :: 0 <= i <= |t| && Secrets.WordAt(t, i, word)
  {
    forall i | 0 <= i <= |t| ensures word <= Lower(t)[i..] <==> Secrets.WordAt(t, i, word) {
      if i + |word| <= |t| { assert Lower(t)[i..][..|word|] == Lower(t)[i..i + |word|]; }
      if Secrets.WordAt(t, i, word) { assert Lower(t)[i..i + |word|] == word; }
    }
  }

  /** What looks like a secret: one of six words in letters of any case, a token of three parts, or a long blob. */
  lemma SecretExactly(t: string)
    ensures Secrets.Opaque(t) <==> HasBlob(t) || HasToken(t)
    ensures Secrets.LooksSecret(t) <==>
      HasBlob(t) || HasToken(t) || Contains(Lower(t), "bearer ") || Contains(Lower(t), "password")
      || Contains(Lower(t), "cookie") || Contains(Lower(t), "authorization") || Contains(Lower(t), "mfa")
      || Contains(Lower(t), "token")
  {
    BlobExactly(t);
    TokenExactly(t);
    KeywordFound(t, "bearer ");
    KeywordFound(t, "password");
    KeywordFound(t, "cookie");
    KeywordFound(t, "authorization");
    KeywordFound(t, "mfa");
    KeywordFound(t, "token");
    assert Secrets.LooksSecret(t) ==>
      Secrets.Opaque(t) || exists word :: word in Secrets.WORDS && Contains(Lower(t), word) by {
      if word, i :| word in Secrets.WORDS && 0 <= i <= |t| && Secrets.WordAt(t, i, word) { KeywordFound(t, word); }
    }
  }

  // ----- requests ---------------------------------------------------------------------------------------------------

  predicate NoSlash(s: string) { forall i :: 0 <= i < |s| ==> s[i] != '/' }

  /** `part` is a stretch of `s` without a slash. */
  ghost predicate PathPart(part: string, s: string) {
    NoSlash(part) && exists o: nat :: Secrets.StretchAt(part, s, o)
  }

  lemma PartDeeper(part: string, s: string, before: string)
    requires PathPart(part, s)
    ensures PathPart(part, before + s)
  {
    var o: nat :| Secrets.StretchAt(part, s, o);
    assert (before + s)[|before| + o..|before| + o + |part|] == s[o..o + |part|];
    assert Secrets.StretchAt(part, before + s, |before| + o);
  }

  lemma {:induction false} SegmentIsPart(s: string, current: string, segment: string)
    requires NoSlash(current) && segment in Sanitizer.Segments(s, current)
    ensures PathPart(segment, current + s)
  {
    if s == [] {
      assert Secrets.StretchAt(current, current + s, 0);
    } else if s[0] == '/' {
      if segment == current {
        assert (current + s)[..|current|] == current && Secrets.StretchAt(segment, current + s, 0);
      } else {
        SegmentIsPart(s[1..], [], segment);
        assert [] + s[1..] == s[1..] && current + s == (current + ['/']) + s[1..];
        PartDeeper(segment, s[1..], current + ['/']);
      }
    } else {
      SegmentIsPart(s[1..], current + [s[0]], segment);
      assert current + [s[0]] + s[1..] == current + s;
    }
  }

  lemma {:induction false} PartInSegment(s: string, current: string, part: string, o: nat)
    returns (segment: string, p: nat)
    requires NoSlash(current) && NoSlash(part) && part != [] && Secrets.StretchAt(part, current + s, o)
    ensures segment in Sanitizer.Segments(s, current) && Secrets.StretchAt(part, segment, p)
  {
    var all := current + s;
    if s == [] {
      segment, p := current, o;
      assert all == current;
    } else if s[0] == '/' {
      if o + |part| <= |current| {
        segment, p := current, o;
        assert all[o..o + |part|] == current[o..o + |part|];
      } else {
        forall j | o <= j < o + |part| ensures all[j] != '/' { assert part[j - o] == all[j]; }
        assert all[|current|] == '/';
        assert [] + s[1..] == s[1..] && all[|current| + 1..] == s[1..];
        assert s[1..][o - |current| - 1..o - |current| - 1 + |part|] == all[o..o + |part|];
        segment, p := PartInSegment(s[1..], [], part, o - |current| - 1);
      }
    } else {
      assert current + [s[0]] + s[1..] == all;
      segment, p := PartInSegment(s[1..], current + [s[0]], part, o);
    }
  }

  lemma OpaqueIsLong(t: string)
    requires Secrets.Opaque(t)
    ensures t != []
  {
  }

  /** A path has an opaque segment exactly when some stretch of it without a slash is opaque. */
  lemma OpaqueSegmentExactly(path: string)
    ensures (exists segment :: segment in Sanitizer.Segments(path, []) && Secrets.Opaque(segment)) <==>
      exists part :: PathPart(part, path) && Secrets.Opaque(part)
  {
    assert [] + path == path;
    if segment :| segment in Sanitizer.Segments(path, []) && Secrets.Opaque(segment) {
      SegmentIsPart(path, [], segment);
    }
    if part :| PathPart(part, path) && Secrets.Opaque(part) {
      var o: nat :| Secrets.StretchAt(part, path, o);
      OpaqueIsLong(part);
      var segment, p := PartInSegment(path, [], part, o);
      Secrets.OpaqueStretch(part, segment, p);
    }
  }

  predicate PathClass(c: char) { Name(c) || c == '/' || c == '{' || c == '}' }

  /** `[A-Z]{3,7} /api/[A-Za-z0-9_./{}-]{1,160}` */
  const REQUEST: Pattern := [Of(Capital, 3, 7)] + ([Fixed(" /api/")] + [Of(PathClass, 1, 160)])

  lemma {:induction false} FirstBlankExactly(s: string)
    ensures forall k :: 0 <= k < Sanitizer.FirstBlank(s) ==> s[k] != ' '
    ensures Sanitizer.FirstBlank(s) < |s| ==> s[Sanitizer.FirstBlank(s)] == ' '
  {
    if s != [] && s[0] != ' ' { FirstBlankExactly(s[1..]); }
  }

  ghost predicate RunTextRunAt(head: Class, text: string, run: Class, low: nat, high: nat, s: string, n: nat) {
    && n <= |s| && AllOf(head, s[..n]) && text <= s[n..] && |text| + low <= |s| - n <= |text| + high
    && forall k :: n + |text| <= k < |s| ==> run(s[k])
  }

  lemma TextAndRunFrom(text: string, run: Class, low: nat, high: nat, s: string, n: nat)
    requires n <= |s|
    ensures FullMatch([Fixed(text)] + [Of(run, low, high)], s[n..]) <==>
      text <= s[n..] && |text| + low <= |s| - n <= |text| + high && forall k :: n + |text| <= k < |s| ==> run(s[k])
  {
    TextAndRun(text, run, low, high, s[n..]);
    assert forall k :: n <= k < |s| ==> s[n..][k - n] == s[k];
    assert forall k :: 0 <= k < |s[n..]| ==> s[n..][k] == s[n + k];
  }

  /** A pattern of a run, a fixed text and a run of another class. */
  lemma RunTextRun(head: Class, least: nat, most: nat, text: string, run: Class, low: nat, high: nat, s: string)
    ensures FullMatch([Of(head, least, most)] + ([Fixed(text)] + [Of(run, low, high)]), s) <==>
      exists n :: least <= n <= most && RunTextRunAt(head, text, run, low, high, s, n)
  {
    var rest := [Fixed(text)] + [Of(run, low, high)];
    var pattern := [Of(head, least, most)] + rest;
    assert pattern[0] == Of(head, least, most) && pattern[1..] == rest;
    forall n | 0 <= n <= |s|
      ensures PieceMatches(pattern[0], s[..n]) && FullMatch(rest, s[n..]) <==>
        least <= n <= most && RunTextRunAt(head, text, run, low, high, s, n)
    {
      TextAndRunFrom(text, run, low, high, s, n);
    }
  }

  lemma RequestStarts(s: string)
    ensures Sanitizer.RequestShape(s) <==>
      exists n :: 3 <= n <= 7 && RunTextRunAt(Capital, " /api/", PathClass, 1, 160, s, n)
  {
    FirstBlankExactly(s);
    var i := Sanitizer.FirstBlank(s);
    if Sanitizer.RequestShape(s) {
      assert s[i..][..6] == s[i..i + 6];
      assert RunTextRunAt(Capital, " /api/", PathClass, 1, 160, s, i);
    }
    if n :| 3 <= n <= 7 && RunTextRunAt(Capital, " /api/", PathClass, 1, 160, s, n) {
      assert s[n] == s[n..][0] == ' ' && s[n..][..6] == s[n..n + 6];
      forall k | 0 <= k < n ensures Capital(s[k]) { assert s[..n][k] == s[k]; }
    }
  }

  lemma RequestExactly(s: string)
    ensures Sanitizer.RequestShape(s) <==> FullMatch(REQUEST, s)
  {
    RequestStarts(s);
    RunTextRun(Capital, 3, 7, " /api/", PathClass, 1, 160, s);
  }

  // ----- machine names ----------------------------------------------------------------------------------------------

  ghost predicate CleanPath(path: string) {
    forall part :: PathPart(part, path) ==> !HasBlob(part) && !HasToken(part)
  }

  /** What a machine name must be to be kept: the shape of its kind, and nothing like a token or a blob in it. */
  ghost predicate Admissible(c: Sanitizer.Cleaner, s: string) {
    match c
    case Name => FullMatch(NAME, s) && !HasBlob(s) && !HasToken(s)
    case PayloadName =>
      (FullMatch(NAME, s) || FullMatch(UNEXPECTED, s)) && !HasBlob(s) && !HasToken(s)
    case BlockedRequest => FullMatch(REQUEST, s) && CleanBehindBlanks(s)
    case Reason => FullMatch(REASON, s)
    case _ => false
  }

  lemma NamesFitExactly(s: string)
    ensures Sanitizer.Fits(Sanitizer.Name, s) <==> Admissible(Sanitizer.Name, s)
    ensures Sanitizer.Fits(Sanitizer.PayloadName, s) <==> Admissible(Sanitizer.PayloadName, s)
    ensures Sanitizer.Fits(Sanitizer.Reason, s) <==> Admissible(Sanitizer.Reason, s)
  {
    NameExactly(s);
    PayloadNameExactly(s);
    ReasonExactly(s);
    SecretExactly(s);
  }

  lemma CleanPathExactly(path: string)
    ensures CleanPath(path) <==>
      !exists segment :: segment in Sanitizer.Segments(path, []) && Secrets.Opaque(segment)
  {
    OpaqueSegmentExactly(path);
    forall part ensures Secrets.Opaque(part) <==> HasBlob(part) || HasToken(part) { SecretExactly(part); }
  }

  lemma OnlyBlank(s: string, n: nat)
    requires Sanitizer.RequestShape(s) && n < |s|
    ensures s[n] == ' ' <==> n == Sanitizer.FirstBlank(s)
  {
    FirstBlankExactly(s);
    MiddleHasOneBlank(s, Sanitizer.FirstBlank(s));
  }

  lemma MiddleHasOneBlank(s: string, i: nat)
    requires i + 6 <= |s| && s[i..i + 6] == " /api/"
    ensures s[i] == ' ' && forall k :: i < k < i + 6 ==> s[k] != ' '
  {
    var middle := " /api/";
    assert forall k :: 1 <= k < 6 ==> middle[k] != ' ';
    assert forall k :: i <= k < i + 6 ==> s[k] == s[i..i + 6][k - i];
  }

  ghost predicate CleanBehindBlanks(s: string) {
    forall n :: 0 <= n < |s| && s[n] == ' ' ==> CleanPath(s[n + 1..])
  }

  lemma SegmentsAreClean(s: string)
    requires Sanitizer.RequestShape(s)
    ensures Sanitizer.OpaqueSegment(s) <==> !CleanBehindBlanks(s)
  {
    var i := Sanitizer.FirstBlank(s);
    CleanPathExactly(s[i + 1..]);
    OnlyBlank(s, i);
    forall n: nat | n < |s| && s[n] == ' ' ensures n == i { OnlyBlank(s, n); }
    assert CleanBehindBlanks(s) <==> CleanPath(s[i + 1..]);
  }

  lemma RequestsFitExactly(s: string)
    ensures Sanitizer.Fits(Sanitizer.BlockedRequest, s) <==> Admissible(Sanitizer.BlockedRequest, s)
  {
    RequestExactly(s);
    if Sanitizer.RequestShape(s) { SegmentsAreClean(s); }
  }

  /** A machine name is kept, stripped, exactly when it is admissible; else it is replaced, and counted as replaced. */
  lemma MachineNameKept(c: Sanitizer.Cleaner, s: string)
    requires !c.Free? && !c.FreeText?
    ensures Sanitizer.Cleaned(c, Sanitizer.Text(s)) == Some(if Admissible(c, Strip(s)) then Strip(s) else "[redacted]")
    ensures Sanitizer.Redacts(c, Sanitizer.Text(s)) <==> !Admissible(c, Strip(s))
  {
    NamesFitExactly(Strip(s));
    RequestsFitExactly(Strip(s));
  }
}
