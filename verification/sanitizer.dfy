/**
  The record of a production create attempt: only known fields, every text cleaned, secrets replaced. Sanitizing a
  sanitized record changes nothing, so whatever the writer wrote the loader accepts again.
*/
module Sanitizer {
  import opened Wrappers
  import opened Text
  import opened Secrets

  datatype Entry = Entry(key: Value, value: Value)

  /** A value as handed to the writer, or as read back from the file. */
  datatype Value = Text(s: string) | Whole(n: int) | Items(items: seq<Value>) | Table(entries: seq<Entry>) | Other

  /** A value as kept in a record. */
  datatype Kept = KeptText(s: string) | KeptList(items: seq<string>) | KeptTable(table: map<string, string>)

  const REDACTED := "[redacted]"
  const MAX_STRING := 300
  const MAX_ITEMS := 50

  // ----- one text ---------------------------------------------------------------------------------------------------

  predicate ControlChar(c: char) {
    var n := c as int;
    n <= 0x1f || 0x7f <= n <= 0x9f || n == 0x2028 || n == 0x2029
  }

  /**
    Every run of control characters becomes one blank; `inRun` says that the blank for the current run is already
    there.
  */
  function Uncontrolled(s: string, inRun: bool): (r: string)
    ensures forall i :: 0 <= i < |r| ==> !ControlChar(r[i])
    ensures (forall i :: 0 <= i < |s| ==> !ControlChar(s[i])) ==> r == s
  {
    if s == [] then []
    else if ControlChar(s[0]) then (if inRun then [] else [' ']) + Uncontrolled(s[1..], true)
    else [s[0]] + Uncontrolled(s[1..], false)
  }

  function Digits(n: nat): string {
    if n < 10 then [('0' as int + n) as char] else Digits(n / 10) + [('0' as int + n % 10) as char]
  }

  function Decimal(n: int): string { if n < 0 then "-" + Digits(-n) else Digits(n) }

  function Cut(s: string): (r: string)
    ensures r <= s && |r| <= MAX_STRING && (|s| <= MAX_STRING ==> r == s)
  {
    if |s| <= MAX_STRING then s else s[..MAX_STRING]
  }

  function Plain(s: string): string { Strip(Uncontrolled(s, false)) }

  function CleanedText(s: string): string {
    if LooksSecret(Plain(s)) then REDACTED else Strip(Cut(Plain(s)))
  }

  predicate NameChar(c: char) { IsAlnum(c) || c == '_' || c == '.' || c == '-' }

  /** `[A-Za-z0-9_.-]{1,80}` */
  predicate NameShape(s: string) { 1 <= |s| <= 80 && forall i :: 0 <= i < |s| ==> NameChar(s[i]) }

  const UNEXPECTED := "unexpected:"

  predicate PayloadNameShape(s: string) {
    NameShape(s) || (|s| >= |UNEXPECTED| && s[..|UNEXPECTED|] == UNEXPECTED && NameShape(s[|UNEXPECTED|..]))
  }

  /** `[a-z][a-z0-9_]{2,80}` */
  predicate ReasonShape(s: string) {
    3 <= |s| <= 81 && IsLower(s[0]) && forall i :: 0 <= i < |s| ==> IsLower(s[i]) || IsDigit(s[i]) || s[i] == '_'
  }

  /** `[a-z0-9_]{1,24}` */
  predicate TokenShape(s: string) {
    1 <= |s| <= 24 && forall i :: 0 <= i < |s| ==> IsLower(s[i]) || IsDigit(s[i]) || s[i] == '_'
  }

  predicate PathChar(c: char) { NameChar(c) || c == '/' || c == '{' || c == '}' }

  function FirstBlank(s: string): (i: nat)
    ensures i <= |s|
  {
    if s == [] || s[0] == ' ' then 0 else 1 + FirstBlank(s[1..])
  }

  /** `[A-Z]{3,7} /api/[A-Za-z0-9_./{}-]{1,160}` */
  predicate RequestShape(s: string) {
    var i := FirstBlank(s);
    && 3 <= i <= 7 && (forall k :: 0 <= k < i ==> IsUpper(s[k]))
    && i + 7 <= |s| <= i + 166 && s[i..i + 6] == " /api/" && forall k :: i + 6 <= k < |s| ==> PathChar(s[k])
  }

  function Segments(s: string, current: string): seq<string> {
    if s == [] then [current]
    else if s[0] == '/' then [current] + Segments(s[1..], [])
    else Segments(s[1..], current + [s[0]])
  }

  /** Judged per path segment: a long path is not opaque, a long opaque segment is. */
  predicate OpaqueSegment(s: string) {
    RequestShape(s) && exists segment :: segment in Segments(s[FirstBlank(s) + 1..], []) && Opaque(segment)
  }

  datatype Cleaner = Free | FreeText | Name | PayloadName | BlockedRequest | Reason

  /** The strict shapes a machine name must have to be kept as it is. */
  predicate Fits(c: Cleaner, s: string) {
    match c
    case Name => NameShape(s) && !Opaque(s)
    case PayloadName => PayloadNameShape(s) && !Opaque(s)
    case BlockedRequest => RequestShape(s) && !OpaqueSegment(s)
    case Reason => ReasonShape(s)
    case _ => true
  }

  /** The cleaned text, None for a value that is no text (or, for free fields, no whole number). */
  function Cleaned(c: Cleaner, v: Value): Option<string> {
    match v
    case Text(s) =>
      if c.Free? || c.FreeText? then Some(CleanedText(s)) else Some(if Fits(c, Strip(s)) then Strip(s) else REDACTED)
    case Whole(n) => if c.Free? then Some(CleanedText(Decimal(n))) else None
    case _ => None
  }

  /** Whether cleaning the value counts as a redaction. */
  predicate Redacts(c: Cleaner, v: Value) {
    match v
    case Text(s) => if c.Free? || c.FreeText? then LooksSecret(Plain(s)) else !Fits(c, Strip(s))
    case Whole(n) => c.Free? && LooksSecret(Plain(Decimal(n)))
    case _ => false
  }

  /** A text that does not count as redacted is kept: whole for a machine name, plain and cut for a free text. */
  lemma UnredactedIsKept(c: Cleaner, s: string)
    ensures Redacts(c, Text(s)) ==> Cleaned(c, Text(s)) == Some("[redacted]")
    ensures !Redacts(c, Text(s)) ==>
      Cleaned(c, Text(s)) == Some(if !c.Free? && !c.FreeText? then Strip(s)
                                  else Strip(if |Plain(s)| <= 300 then Plain(s) else Plain(s)[..300]))
    ensures c.Free? || c.FreeText? ==> (Redacts(c, Text(s)) <==> LooksSecret(Plain(s)))
    ensures Plain(s) == Strip(Uncontrolled(s, false))
  {
  }

  lemma NotInRedacted(word: string, i: nat)
    requires word in WORDS
    ensures !WordAt(REDACTED, i, word)
  {
    var k := if word == "cookie" || word == "authorization" || word == "token" then 1 else 0;
    assert WordAt(REDACTED, i, word) ==> LowerChar(REDACTED[i + k]) == word[k];
    RedactedLetters();
  }

  lemma RedactedLetters()
    ensures forall i :: 0 <= i < |REDACTED| ==> LowerChar(REDACTED[i]) in {'[', ']', 'r', 'e', 'd', 'a', 'c', 't'}
  {
  }

  lemma RedactedNotOpaque()
    ensures !Opaque(REDACTED)
  {
    assert |REDACTED| == 10;
  }

  lemma RedactedIsHarmless()
    ensures !LooksSecret(REDACTED)
  {
    RedactedNotOpaque();
    forall word, i | word in WORDS && 0 <= i <= |REDACTED| ensures !WordAt(REDACTED, i, word) {
      NotInRedacted(word, i);
    }
  }

  ghost predicate NoControl(s: string) { forall i :: 0 <= i < |s| ==> !ControlChar(s[i]) }

  lemma StretchHasNoControl(u: string, t: string, o: nat)
    requires StretchAt(u, t, o) && NoControl(t)
    ensures NoControl(u)
  {
    forall i | 0 <= i < |u| ensures !ControlChar(u[i]) { assert u[i] == t[o + i]; }
  }

  lemma PlainHasNoControl(s: string)
    ensures NoControl(Plain(s))
  {
    var o := StripStretch(Uncontrolled(s, false));
    StretchHasNoControl(Plain(s), Uncontrolled(s, false), o);
  }

  /** Cutting a harmless text and stripping it again leaves a harmless text. */
  lemma CutStaysClean(plain: string)
    requires !LooksSecret(plain) && NoControl(plain)
    ensures IsClean(Strip(Cut(plain)))
  {
    var r := Strip(Cut(plain));
    var o := StripStretch(Cut(plain));
    assert StretchAt(r, plain, o) by { assert Cut(plain) == plain[..|Cut(plain)|]; }
    if LooksSecret(r) { StretchIsHarmless(r, plain, o); }
    StretchHasNoControl(r, plain, o);
    StripTwice(Cut(plain));
  }

  /** No control character, no secret, at most 300 characters, nothing more to strip. */
  ghost predicate IsClean(s: string) { !LooksSecret(s) && NoControl(s) && |s| <= 300 && Strip(s) == s }

  lemma RedactedIsClean()
    ensures IsClean(REDACTED)
  {
    RedactedIsHarmless();
  }

  /** What a cleaned free text promises. */
  lemma FreeTextIsClean(s: string)
    ensures IsClean(CleanedText(s))
  {
    if LooksSecret(Plain(s)) {
      RedactedIsClean();
    } else {
      PlainHasNoControl(s);
      CutStaysClean(Plain(s));
    }
  }

  lemma CleanTextStays(s: string)
    requires IsClean(s)
    ensures CleanedText(s) == s
  {
  }

  /** Cleaning a cleaned value changes nothing. */
  lemma CleanedTwice(c: Cleaner, v: Value)
    requires Cleaned(c, v).Some?
    ensures Cleaned(c, Text(Cleaned(c, v).value)) == Cleaned(c, v)
  {
    if c.Free? || c.FreeText? {
      var s := if v.Text? then v.s else Decimal(v.n);
      FreeTextIsClean(s);
      CleanTextStays(CleanedText(s));
    } else {
      StripTwice(v.s);
      assert Strip(REDACTED) == REDACTED;
    }
  }

  // ----- what cleaning leaves ---------------------------------------------------------------------------------------

  /** The C0 and C1 control characters, DEL among them, and the two Unicode line separators. */
  predicate Unprintable(c: char) {
    var n := c as int;
    n < 0x20 || 0x7f <= n < 0xa0 || n == 0x2028 || n == 0x2029
  }

  predicate AllUnprintable(s: string) { forall i :: 0 <= i < |s| ==> Unprintable(s[i]) }

  lemma {:induction false} RunSkipped(run: string, rest: string)
    requires AllUnprintable(run) && (rest == [] || !Unprintable(rest[0]))
    ensures Uncontrolled(run + rest, true) == Uncontrolled(rest, false)
  {
    if run == [] {
      assert run + rest == rest;
    } else {
      assert (run + rest)[1..] == run[1..] + rest;
      RunSkipped(run[1..], rest);
    }
  }

  lemma JoinsThrough(h: string, x: string, y: string)
    ensures h + (x + " " + y) == (h + x) + " " + y
  {
  }

  lemma {:induction false} RunFrom(text: string, run: string, rest: string, inRun: bool)
    requires run != [] && AllUnprintable(run) && (rest == [] || !Unprintable(rest[0]))
    requires if text == [] then !inRun else !Unprintable(text[|text| - 1])
    ensures Uncontrolled(text + (run + rest), inRun) == Uncontrolled(text, inRun) + " " + Uncontrolled(rest, false)
  {
    var behind := run + rest;
    if text == [] {
      assert text + behind == behind && behind[1..] == run[1..] + rest && behind[0] == run[0];
      RunSkipped(run[1..], rest);
      assert "" + " " == " ";
    } else {
      var more, blank := text[1..], ControlChar(text[0]);
      assert (text + behind)[1..] == more + behind;
      RunFrom(more, run, rest, blank);
      JoinsThrough(if !blank then [text[0]] else if inRun then [] else [' '], Uncontrolled(more, blank),
                   Uncontrolled(rest, false));
    }
  }

  /** Each run of control characters becomes one blank; what stands before and behind it is treated by itself. */
  lemma RunIsOneBlank(text: string, run: string, rest: string)
    requires run != [] && AllUnprintable(run) && (rest == [] || !Unprintable(rest[0]))
    requires text == [] || !Unprintable(text[|text| - 1])
    ensures Uncontrolled(text + run + rest, false) == Uncontrolled(text, false) + " " + Uncontrolled(rest, false)
  {
    assert text + run + rest == text + (run + rest);
    RunFrom(text, run, rest, false);
  }

  /** The number that a text of decimal digits stands for. */
  function NumberOf(s: string): int {
    if s == [] then 0 else 10 * NumberOf(s[..|s| - 1]) + (s[|s| - 1] as int - '0' as int)
  }

  /** The digits of a number: no leading zero, and the number they stand for. */
  lemma {:induction false} DigitsExactly(n: nat)
    ensures Digits(n) != [] && (forall i :: 0 <= i < |Digits(n)| ==> '0' <= Digits(n)[i] <= '9')
    ensures NumberOf(Digits(n)) == n && (n > 0 ==> Digits(n)[0] != '0')
  {
    var s := Digits(n);
    if n < 10 {
      assert s[..0] == [];
    } else {
      DigitsExactly(n / 10);
      assert s[..|s| - 1] == Digits(n / 10);
    }
  }

  predicate Numeral(s: string) { s != [] && forall i :: 0 <= i < |s| ==> s[i] == '-' || '0' <= s[i] <= '9' }

  lemma DecimalIsNumeral(n: int)
    ensures Numeral(Decimal(n))
    ensures if n >= 0 then NumberOf(Decimal(n)) == n else Decimal(n)[0] == '-' && NumberOf(Decimal(n)[1..]) == -n
  {
    DigitsExactly(if n < 0 then -n else n);
  }

  lemma NoWordInNumeral(s: string, word: string, i: nat)
    requires Numeral(s) && word in WORDS && i <= |s|
    ensures !WordAt(s, i, word)
  {
    assert 'a' <= word[0] <= 'z';
    assert i < |s| ==> LowerChar(s[i + 0]) != word[0];
  }

  lemma NumeralIsHarmless(s: string)
    requires Numeral(s) && |s| < 40
    ensures !LooksSecret(s) && NoControl(s) && Strip(s) == s
  {
    forall word, i | word in WORDS && 0 <= i <= |s| ensures !WordAt(s, i, word) { NoWordInNumeral(s, word, i); }
    forall i, a, b | 0 <= i <= |s| && 0 <= a <= |s| && 0 <= b <= |s| ensures !JwtAt(s, i, a, b) {
      assert i + a < |s| ==> s[i + a] != '.';
    }
  }

  lemma HarmlessStays(s: string)
    requires !LooksSecret(s) && NoControl(s) && Strip(s) == s && |s| <= 300
    ensures CleanedText(s) == s && Plain(s) == s
  {
  }

  /** A whole number in a free field is kept in decimal digits, unless these alone are as long as a secret. */
  lemma NumberKept(n: int)
    requires |Decimal(n)| < 40
    ensures Cleaned(Free, Whole(n)) == Some(Decimal(n)) && !Redacts(Free, Whole(n))
    ensures if n >= 0 then NumberOf(Decimal(n)) == n else Decimal(n)[0] == '-' && NumberOf(Decimal(n)[1..]) == -n
  {
    DecimalIsNumeral(n);
    var s := Decimal(n);
    NumeralIsHarmless(s);
    HarmlessStays(s);
  }
}
