/** The tenant inventory: every row's identity checked over the whole capture, repeats dropped, the total proved. */
module Inventory {
  import opened Wrappers
  import opened Text

  /** The account UUID field: only an explicit null may stand for "none". */
  datatype UuidField = NoField | Null | Given(text: string) | Malformed

  /** The isDeleted field, compared as sent. */
  datatype Flag = NoFlag | Flag(value: bool) | OtherFlag(token: int)

  /** A raw row; None for an id or name that is not a text. `token` stands for everything else in it. */
  datatype Row = NotARow | Row(id: Option<string>, name: Option<string>, uuid: UuidField, deleted: Flag, token: int)

  datatype Error = SchemaUnavailable | IdConflict | Inconsistent | TooLarge | Empty

  predicate WellFormed(r: Row) {
    && r.Row? && r.id.GetOr("") != "" && r.name.GetOr("") != ""
    && (r.uuid.Null? || (r.uuid.Given? && r.uuid.text != ""))
  }

  function Id(r: Row): string
    requires WellFormed(r)
  {
    r.id.value
  }

  /** The case-folded UUID, empty for a null one. */
  function Key(r: Row): string
    requires WellFormed(r)
  {
    if r.uuid.Given? then Lower(r.uuid.text) else ""
  }

  /** The same character, or the two cases of one ASCII letter. */
  predicate SameLetter(c: char, d: char) {
    c == d || ('A' <= c <= 'Z' && d as int == c as int + 32) || ('A' <= d <= 'Z' && c as int == d as int + 32)
  }

  /** Two rows have the same key exactly when both have no UUID, or the same one but for the case of its letters. */
  lemma SameKeyExactly(a: Row, b: Row)
    requires WellFormed(a) && WellFormed(b)
    ensures Key(a) == Key(b) <==>
      (a.uuid.Null? && b.uuid.Null?)
      || (a.uuid.Given? && b.uuid.Given? && |a.uuid.text| == |b.uuid.text|
          && forall i :: 0 <= i < |a.uuid.text| ==> SameLetter(a.uuid.text[i], b.uuid.text[i]))
  {
    if a.uuid.Given? && b.uuid.Given? && |a.uuid.text| == |b.uuid.text| {
      var s, t := a.uuid.text, b.uuid.text;
      forall i | 0 <= i < |s| ensures Lower(s)[i] == Lower(t)[i] <==> SameLetter(s[i], t[i]) {
        LowerExactly(s, i);
        LowerExactly(t, i);
      }
    }
  }

  function Facts(r: Row): (string, Flag)
    requires WellFormed(r)
  {
    (r.name.value, r.deleted)
  }

  /**
    Two rows agree: the same id exactly with the same UUID, a UUID with one id, and when strict an id with one name
    and flag.
  */
  predicate Agree(a: Row, b: Row, strict: bool)
    requires WellFormed(a) && WellFormed(b)
  {
    && (Id(a) == Id(b) ==> Key(a) == Key(b))
    && (Key(a) != "" && Key(a) == Key(b) ==> Id(a) == Id(b))
    && (strict && Id(a) == Id(b) ==> Facts(a) == Facts(b))
  }

  predicate AllWellFormed(table: seq<Row>) { forall i :: 0 <= i < |table| ==> WellFormed(table[i]) }

  /** What a whole table must satisfy, dropped repeats included: a partial bijection between ids and UUIDs. */
  predicate Acceptable(table: seq<Row>, strict: bool) {
    AllWellFormed(table) && forall i, j :: 0 <= i < |table| && 0 <= j < |table| ==> Agree(table[i], table[j], strict)
  }

  function Ids(table: seq<Row>): set<string>
    requires AllWellFormed(table)
  {
    if table == [] then {} else Ids(table[..|table| - 1]) + {Id(table[|table| - 1])}
  }

  lemma {:induction false} IdsExactly(table: seq<Row>, id: string)
    requires AllWellFormed(table)
    ensures id in Ids(table) <==> exists i :: 0 <= i < |table| && Id(table[i]) == id
  {
    if table != [] {
      var before, last := table[..|table| - 1], |table| - 1;
      IdsExactly(before, id);
      if i :| 0 <= i < |before| && Id(before[i]) == id { assert Id(table[i]) == id; }
      if i :| 0 <= i < |table| && Id(table[i]) == id { assert i < last ==> Id(before[i]) == id; }
    }
  }

  /** The first row of every id, in order. */
  function FirstOfEach(table: seq<Row>): (rows: seq<Row>)
    requires AllWellFormed(table)
    ensures AllWellFormed(rows) && |rows| <= |table|
  {
    if table == [] then [] else
    var before, last := table[..|table| - 1], table[|table| - 1];
    if Id(last) in Ids(before) then FirstOfEach(before) else FirstOfEach(before) + [last]
  }

  lemma IdsOfAppend(table: seq<Row>, r: Row)
    requires AllWellFormed(table) && WellFormed(r)
    ensures AllWellFormed(table + [r]) && Ids(table + [r]) == Ids(table) + {Id(r)}
  {
    assert (table + [r])[..|table|] == table;
  }

  /** The kept rows have all the ids of the table, as many as there are. */
  lemma {:induction false} FirstOfEachIsComplete(table: seq<Row>)
    requires AllWellFormed(table)
    ensures Ids(FirstOfEach(table)) == Ids(table) && |FirstOfEach(table)| == |Ids(table)|
  {
    if table != [] {
      var before, last := table[..|table| - 1], table[|table| - 1];
      FirstOfEachIsComplete(before);
      if Id(last) !in Ids(before) { IdsOfAppend(FirstOfEach(before), last); }
    }
  }

  predicate DistinctIds(rows: seq<Row>)
    requires AllWellFormed(rows)
  {
    forall i, j :: 0 <= i < j < |rows| ==> Id(rows[i]) != Id(rows[j])
  }

  lemma NewIdStaysDistinct(rows: seq<Row>, last: Row)
    requires AllWellFormed(rows) && WellFormed(last) && DistinctIds(rows) && Id(last) !in Ids(rows)
    ensures DistinctIds(rows + [last])
  {
    forall i | 0 <= i < |rows| ensures Id(rows[i]) != Id(last) { IdsExactly(rows, Id(rows[i])); }
  }

  /** They are rows of the table, with pairwise different ids. */
  lemma {:induction false} FirstOfEachIsDistinct(table: seq<Row>)
    requires AllWellFormed(table)
    ensures DistinctIds(FirstOfEach(table))
    ensures forall r :: r in FirstOfEach(table) ==> r in table
  {
    if table != [] {
      var before, last := table[..|table| - 1], table[|table| - 1];
      var rows := FirstOfEach(before);
      FirstOfEachIsDistinct(before);
      FirstOfEachIsComplete(before);
      assert table == before + [last];
      if Id(last) !in Ids(before) { NewIdStaysDistinct(rows, last); }
    }
  }

  /** No earlier row has the id of row `i`. */
  predicate IsFirst(table: seq<Row>, i: nat) {
    i < |table| && table[i].Row? && forall j :: 0 <= j < i ==> table[j].Row? && table[j].id != table[i].id
  }

  lemma LastIsFirst(before: seq<Row>, last: Row)
    requires AllWellFormed(before) && WellFormed(last)
    ensures IsFirst(before + [last], |before|) <==> Id(last) !in Ids(before)
  {
    IdsExactly(before, Id(last));
    var all := before + [last];
    assert all[|before|] == last && forall j :: 0 <= j < |before| ==> all[j] == before[j];
    forall j | 0 <= j < |before| ensures all[j].Row? && (all[j].id == last.id <==> Id(before[j]) == Id(last)) {
      assert WellFormed(before[j]);
    }
  }

  lemma FirstInLonger(before: seq<Row>, last: Row, i: nat)
    requires i < |before|
    ensures IsFirst(before + [last], i) <==> IsFirst(before, i)
  {
    var all := before + [last];
    assert forall j :: 0 <= j <= i ==> all[j] == before[j];
  }

  /** The kept rows are, in the table's order, exactly those whose id no earlier row has. */
  lemma {:induction false} FirstOfEachExactly(table: seq<Row>) returns (places: seq<nat>)
    requires AllWellFormed(table)
    ensures |places| == |FirstOfEach(table)| && forall i, j :: 0 <= i < j < |places| ==> places[i] < places[j]
    ensures forall k :: 0 <= k < |places| ==> IsFirst(table, places[k]) && FirstOfEach(table)[k] == table[places[k]]
    ensures forall i: nat :: IsFirst(table, i) ==> i in places
  {
    places := [];
    if table != [] {
      var before, last := table[..|table| - 1], table[|table| - 1];
      assert table == before + [last];
      places := FirstOfEachExactly(before);
      LastIsFirst(before, last);
      forall i: nat | i < |before| ensures IsFirst(table, i) <==> IsFirst(before, i) { FirstInLonger(before, last, i); }
      if Id(last) !in Ids(before) { places := places + [|before|]; }
    }
  }

  // ----- the one pass -----------------------------------------------------------------------------------------------

  type Texts = map<string, string>

  type Seen = map<string, (string, Flag)>

  ghost predicate UuidTable(table: seq<Row>, m: Texts)
    requires AllWellFormed(table)
  {
    m.Keys == Ids(table) && forall i :: 0 <= i < |table| ==> Id(table[i]) in m && m[Id(table[i])] == Key(table[i])
  }

  ghost predicate KeySeen(table: seq<Row>, u: string)
    requires AllWellFormed(table)
  {
    u != "" && exists i :: 0 <= i < |table| && Key(table[i]) == u
  }

  ghost predicate IdTable(table: seq<Row>, m: Texts)
    requires AllWellFormed(table)
  {
    && (forall u :: u in m ==> KeySeen(table, u))
    && (forall i :: 0 <= i < |table| && Key(table[i]) != "" ==> Key(table[i]) in m && m[Key(table[i])] == Id(table[i]))
  }

  ghost predicate SeenTable(table: seq<Row>, m: Seen, strict: bool)
    requires AllWellFormed(table)
  {
    m.Keys == Ids(table)
      && (strict ==> forall i :: 0 <= i < |table| ==> Id(table[i]) in m && m[Id(table[i])] == Facts(table[i]))
  }

  predicate UuidFits(r: Row, m: Texts)
    requires WellFormed(r)
  {
    Id(r) in m ==> m[Id(r)] == Key(r)
  }

  predicate IdFits(r: Row, m: Texts)
    requires WellFormed(r)
  {
    Key(r) != "" && Key(r) in m ==> m[Key(r)] == Id(r)
  }

  predicate SeenFits(r: Row, m: Seen, strict: bool)
    requires WellFormed(r)
  {
    strict && Id(r) in m ==> m[Id(r)] == Facts(r)
  }

  function NotedId(r: Row, m: Texts): Texts
    requires WellFormed(r)
  {
    if Key(r) == "" then m else m[Key(r) := Id(r)]
  }

  function NotedSeen(r: Row, m: Seen): Seen
    requires WellFormed(r)
  {
    if Id(r) in m then m else m[Id(r) := Facts(r)]
  }

  ghost predicate UuidAgrees(table: seq<Row>, r: Row)
    requires AllWellFormed(table) && WellFormed(r)
  {
    forall i :: 0 <= i < |table| && Id(table[i]) == Id(r) ==> Key(table[i]) == Key(r)
  }

  ghost predicate IdAgrees(table: seq<Row>, r: Row)
    requires AllWellFormed(table) && WellFormed(r)
  {
    Key(r) != "" ==> forall i :: 0 <= i < |table| && Key(table[i]) == Key(r) ==> Id(table[i]) == Id(r)
  }

  ghost predicate FactsAgree(table: seq<Row>, r: Row, strict: bool)
    requires AllWellFormed(table) && WellFormed(r)
  {
    strict ==> forall i :: 0 <= i < |table| && Id(table[i]) == Id(r) ==> Facts(table[i]) == Facts(r)
  }

  lemma AgreesInParts(table: seq<Row>, r: Row, strict: bool)
    requires AllWellFormed(table) && WellFormed(r)
    ensures UuidAgrees(table, r) && IdAgrees(table, r) && FactsAgree(table, r, strict)
      <==> forall i :: 0 <= i < |table| ==> Agree(table[i], r, strict)
  {
    if UuidAgrees(table, r) && IdAgrees(table, r) && FactsAgree(table, r, strict) {
      forall i | 0 <= i < |table| ensures Agree(table[i], r, strict) {}
    }
    if forall i :: 0 <= i < |table| ==> Agree(table[i], r, strict) {
      forall i | 0 <= i < |table|
        ensures Id(table[i]) == Id(r) ==> Key(table[i]) == Key(r)
        ensures Key(r) != "" && Key(table[i]) == Key(r) ==> Id(table[i]) == Id(r)
        ensures strict && Id(table[i]) == Id(r) ==> Facts(table[i]) == Facts(r)
      {
        assert Agree(table[i], r, strict);
      }
    }
  }

  lemma UuidFitsMeans(table: seq<Row>, r: Row, m: Texts)
    requires AllWellFormed(table) && WellFormed(r) && UuidTable(table, m)
    ensures UuidFits(r, m) <==> UuidAgrees(table, r)
  {
    IdsExactly(table, Id(r));
  }

  lemma UuidTableAfter(table: seq<Row>, r: Row, m: Texts)
    requires AllWellFormed(table) && WellFormed(r) && UuidTable(table, m) && UuidFits(r, m)
    ensures AllWellFormed(table + [r]) && UuidTable(table + [r], m[Id(r) := Key(r)])
  {
    IdsOfAppend(table, r);
  }

  lemma IdFitsMeans(table: seq<Row>, r: Row, m: Texts)
    requires AllWellFormed(table) && WellFormed(r) && IdTable(table, m)
    ensures IdFits(r, m) <==> IdAgrees(table, r)
  {
    if Key(r) != "" && Key(r) in m {
      assert KeySeen(table, Key(r));
      var i :| 0 <= i < |table| && Key(table[i]) == Key(r);
    }
  }

  lemma IdTableAfter(table: seq<Row>, r: Row, m: Texts)
    requires AllWellFormed(table) && WellFormed(r) && IdTable(table, m) && IdFits(r, m)
    ensures AllWellFormed(table + [r]) && IdTable(table + [r], NotedId(r, m))
  {
    var longer, n := table + [r], NotedId(r, m);
    assert longer[|table|] == r && forall i :: 0 <= i < |table| ==> longer[i] == table[i];
    forall u | u in n ensures KeySeen(longer, u) {
      if u != Key(r) || Key(r) == "" {
        var i :| 0 <= i < |table| && Key(table[i]) == u;
        assert Key(longer[i]) == u;
      } else {
        assert Key(longer[|table|]) == u;
      }
    }
  }

  lemma SeenFitsMeans(table: seq<Row>, r: Row, m: Seen, strict: bool)
    requires AllWellFormed(table) && WellFormed(r) && SeenTable(table, m, strict)
    ensures SeenFits(r, m, strict) <==> FactsAgree(table, r, strict)
  {
    IdsExactly(table, Id(r));
  }

  lemma SeenTableAfter(table: seq<Row>, r: Row, m: Seen, strict: bool)
    requires AllWellFormed(table) && WellFormed(r) && SeenTable(table, m, strict) && SeenFits(r, m, strict)
    ensures AllWellFormed(table + [r]) && SeenTable(table + [r], NotedSeen(r, m), strict)
  {
    IdsOfAppend(table, r);
  }

  predicate Fits(r: Row, uuidById: Texts, idByUuid: Texts, firstSeen: Seen, strict: bool)
    requires WellFormed(r)
  {
    UuidFits(r, uuidById) && IdFits(r, idByUuid) && SeenFits(r, firstSeen, strict)
  }

  lemma AcceptableAppend(table: seq<Row>, r: Row, strict: bool)
    requires Acceptable(table, strict) && WellFormed(r)
    ensures Acceptable(table + [r], strict) <==> forall i :: 0 <= i < |table| ==> Agree(table[i], r, strict)
  {
    var longer := table + [r];
    assert longer[|table|] == r && forall i :: 0 <= i < |table| ==> longer[i] == table[i];
  }

  /** The dictionaries judge a row as the whole table does. */
  lemma DictionariesJudge(table: seq<Row>, r: Row, uuidById: Texts, idByUuid: Texts, firstSeen: Seen, strict: bool)
    requires Acceptable(table, strict) && WellFormed(r)
    requires UuidTable(table, uuidById) && IdTable(table, idByUuid) && SeenTable(table, firstSeen, strict)
    ensures Fits(r, uuidById, idByUuid, firstSeen, strict) <==> Acceptable(table + [r], strict)
  {
    UuidFitsMeans(table, r, uuidById);
    IdFitsMeans(table, r, idByUuid);
    SeenFitsMeans(table, r, firstSeen, strict);
    AgreesInParts(table, r, strict);
    AcceptableAppend(table, r, strict);
  }

  /** And they stay right when the row is taken. */
  lemma DictionariesAfter(table: seq<Row>, r: Row, uuidById: Texts, idByUuid: Texts, firstSeen: Seen, strict: bool)
    requires AllWellFormed(table) && WellFormed(r) && AllWellFormed(table + [r])
    requires UuidTable(table, uuidById) && IdTable(table, idByUuid) && SeenTable(table, firstSeen, strict)
    requires Fits(r, uuidById, idByUuid, firstSeen, strict)
    ensures UuidTable(table + [r], uuidById[Id(r) := Key(r)])
    ensures IdTable(table + [r], NotedId(r, idByUuid)) && SeenTable(table + [r], NotedSeen(r, firstSeen), strict)
  {
    UuidTableAfter(table, r, uuidById);
    IdTableAfter(table, r, idByUuid);
    SeenTableAfter(table, r, firstSeen, strict);
  }

  /** A repeat changes no dictionary. */
  lemma RepeatIsKnown(table: seq<Row>, r: Row, uuidById: Texts, idByUuid: Texts)
    requires AllWellFormed(table) && WellFormed(r) && UuidTable(table, uuidById) && IdTable(table, idByUuid)
    requires UuidFits(r, uuidById) && Id(r) in uuidById
    ensures uuidById[Id(r) := Key(r)] == uuidById && NotedId(r, idByUuid) == idByUuid
  {
    IdsExactly(table, Id(r));
  }

  lemma AcceptablePrefix(table: seq<Row>, n: nat, strict: bool)
    requires n <= |table| && Acceptable(table, strict)
    ensures Acceptable(table[..n], strict)
  {
  }

  /** The first row that breaks the capture names the error. */
  predicate FirstBadRow(table: seq<Row>, k: nat, strict: bool, error: Error) {
    && k < |table| && Acceptable(table[..k], strict) && !Acceptable(table[..k + 1], strict)
    && error == if WellFormed(table[k]) then IdConflict else SchemaUnavailable
  }

  lemma BadRowRejects(table: seq<Row>, k: nat, strict: bool)
    requires k < |table| && Acceptable(table[..k], strict) && !Acceptable(table[..k + 1], strict)
    ensures !Acceptable(table, strict)
    ensures FirstBadRow(table, k, strict, if WellFormed(table[k]) then IdConflict else SchemaUnavailable)
  {
    if Acceptable(table, strict) { AcceptablePrefix(table, k + 1, strict); }
  }

  lemma FirstOfEachAppend(done: seq<Row>, r: Row)
    requires AllWellFormed(done) && WellFormed(r) && AllWellFormed(done + [r])
    ensures FirstOfEach(done + [r]) == if Id(r) in Ids(done) then FirstOfEach(done) else FirstOfEach(done) + [r]
  {
    assert (done + [r])[..|done|] == done;
  }

  /** The state of the pass: what is kept, how many repeats were counted, and the three dictionaries. */
  datatype Pass = Pass(rows: seq<Row>, duplicates: nat, uuidById: Texts, idByUuid: Texts, firstSeen: Seen)

  const START := Pass([], 0, map[], map[], map[])

  function Taken(p: Pass, r: Row): Pass
    requires WellFormed(r)
  {
    if Id(r) in p.uuidById then p.(duplicates := p.duplicates + 1)
    else Pass(p.rows + [r], p.duplicates, p.uuidById[Id(r) := Key(r)], NotedId(r, p.idByUuid),
      p.firstSeen[Id(r) := Facts(r)])
  }

  function Take(p: Pass, r: Row, strict: bool): Option<Pass> {
    if WellFormed(r) && Fits(r, p.uuidById, p.idByUuid, p.firstSeen, strict) then Some(Taken(p, r)) else None
  }

  function Passed(table: seq<Row>, strict: bool): Option<Pass> {
    if table == [] then Some(START) else
    var before := Passed(table[..|table| - 1], strict);
    if before.None? then None else Take(before.value, table[|table| - 1], strict)
  }

  /** The pass holds what it should about the rows it took. */
  ghost predicate Right(table: seq<Row>, p: Pass, strict: bool) {
    && Acceptable(table, strict)
    && UuidTable(table, p.uuidById) && IdTable(table, p.idByUuid) && SeenTable(table, p.firstSeen, strict)
    && p.rows == FirstOfEach(table) && |p.rows| + p.duplicates == |table|
  }

  lemma TakeStaysRight(table: seq<Row>, p: Pass, r: Row, strict: bool)
    requires Right(table, p, strict)
    ensures Take(p, r, strict).Some? <==> WellFormed(r) && Acceptable(table + [r], strict)
    ensures Take(p, r, strict).Some? ==> Right(table + [r], Take(p, r, strict).value, strict)
  {
    if WellFormed(r) {
      DictionariesJudge(table, r, p.uuidById, p.idByUuid, p.firstSeen, strict);
      if Take(p, r, strict).Some? {
        DictionariesAfter(table, r, p.uuidById, p.idByUuid, p.firstSeen, strict);
        FirstOfEachAppend(table, r);
        if Id(r) in p.uuidById { RepeatIsKnown(table, r, p.uuidById, p.idByUuid); }
      }
    }
  }

  lemma {:induction false} PassIsRight(table: seq<Row>, strict: bool)
    ensures Passed(table, strict).Some? <==> Acceptable(table, strict)
    ensures Passed(table, strict).Some? ==> Right(table, Passed(table, strict).value, strict)
  {
    if table != [] {
      var before, last := table[..|table| - 1], table[|table| - 1];
      assert table == before + [last];
      PassIsRight(before, strict);
      if Passed(before, strict).Some? {
        TakeStaysRight(before, Passed(before, strict).value, last, strict);
      } else if Acceptable(table, strict) {
        AcceptablePrefix(table, |before|, strict);
      }
    }
  }

  lemma SameKeys(table: seq<Row>, strict: bool)
    requires Passed(table, strict).Some?
    ensures Passed(table, strict).value.uuidById.Keys == Passed(table, strict).value.firstSeen.Keys
  {
    PassIsRight(table, strict);
  }

  lemma PassStopsHere(table: seq<Row>, k: nat, strict: bool)
    requires k < |table| && Passed(table[..k], strict).Some?
      && Take(Passed(table[..k], strict).value, table[k], strict).None?
    ensures !Acceptable(table, strict)
    ensures FirstBadRow(table, k, strict, if WellFormed(table[k]) then IdConflict else SchemaUnavailable)
  {
    PassIsRight(table[..k], strict);
    PassIsRight(table[..k + 1], strict);
    assert table[..k + 1][..k] == table[..k];
    BadRowRejects(table, k, strict);
  }

  /**
    Accepted exactly when the whole table, dropped repeats included, is a partial bijection of ids and UUIDs (and
    strict: repeats agree in name and flag); then the first row of each id is kept and the rest counted.
  */
  method ValidatedRows(table: seq<Row>, strict: bool) returns (result: Result<(seq<Row>, nat), Error>)
    ensures result.Ok? <==> Acceptable(table, strict)
    ensures result.Ok? ==> result.value.0 == FirstOfEach(table) && |result.value.0| + result.value.1 == |table|
    ensures result.Err? ==> exists k :: FirstBadRow(table, k, strict, result.error)
  {
    var rows: seq<Row>, duplicates: nat := [], 0;
    var firstSeen: Seen := map[];
    var uuidById: Texts, idByUuid: Texts := map[], map[];
    for i := 0 to |table|
      invariant Passed(table[..i], strict) == Some(Pass(rows, duplicates, uuidById, idByUuid, firstSeen))
    {
      var r := table[i];
      assert table[..i + 1][..i] == table[..i];
      if !WellFormed(r) {
        PassStopsHere(table, i, strict);
        return Err(SchemaUnavailable);
      }
      if (Id(r) in uuidById && uuidById[Id(r)] != Key(r))
        || (Key(r) != "" && Key(r) in idByUuid && idByUuid[Key(r)] != Id(r)) {
        PassStopsHere(table, i, strict);
        return Err(IdConflict);
      }
      if Id(r) in uuidById {
        if strict && Id(r) in firstSeen && firstSeen[Id(r)] != Facts(r) {
          PassStopsHere(table, i, strict);
          return Err(IdConflict);
        }
        duplicates := duplicates + 1;
      } else {
        SameKeys(table[..i], strict);
        firstSeen := firstSeen[Id(r) := Facts(r)];
        uuidById := uuidById[Id(r) := Key(r)];
        if Key(r) != "" { idByUuid := idByUuid[Key(r) := Id(r)]; }
        rows := rows + [r];
      }
    }
    assert table[..|table|] == table;
    PassIsRight(table, strict);
    return Ok((rows, duplicates));
  }

  /** What an accepted table promises: distinct kept ids that are all the ids there are. */
  lemma KeptRowsAreTheTenants(table: seq<Row>, strict: bool)
    requires Acceptable(table, strict)
    ensures var rows := FirstOfEach(table);
            && Acceptable(rows, strict) && Ids(rows) == Ids(table) && |rows| == |Ids(table)|
            && (forall i, j :: 0 <= i < j < |rows| ==> Id(rows[i]) != Id(rows[j]))
            && (forall i, j :: 0 <= i < j < |rows| && Key(rows[i]) != "" ==> Key(rows[i]) != Key(rows[j]))
  {
    FirstOfEachIsComplete(table);
    FirstOfEachIsDistinct(table);
    var rows := FirstOfEach(table);
    forall i, j | 0 <= i < |rows| && 0 <= j < |rows| ensures Agree(rows[i], rows[j], strict) {
      assert rows[i] in table && rows[j] in table;
    }
    forall i, j | 0 <= i < j < |rows| && Key(rows[i]) != "" ensures Key(rows[i]) != Key(rows[j]) {
      assert Agree(rows[i], rows[j], strict) && Id(rows[i]) != Id(rows[j]);
    }
  }

  /**
    Even the strict pass compares only name and flag of a repeat: whatever else a later row says is dropped with it.
  */
  lemma RepeatsMayDiffer(a: Row, b: Row)
    requires WellFormed(a) && WellFormed(b) && Id(a) == Id(b) && Key(a) == Key(b) && Facts(a) == Facts(b)
    ensures Acceptable([a, b], true) && FirstOfEach([a, b]) == [a]
  {
    assert [a, b][..1] == [a] && [a][..0] == [];
    IdsExactly([a], Id(b));
    assert Id([a][0]) == Id(b);
  }

  /** A row that can be read: an id, a name and either no UUID or one that is a text. */
  predicate Legible(r: Row) {
    && r.Row? && r.id.Some? && r.id.value != "" && r.name.Some? && r.name.value != ""
    && (r.uuid.Null? || (r.uuid.Given? && r.uuid.text != ""))
  }

  predicate SameUuid(a: Row, b: Row)
    requires Legible(a) && Legible(b)
  {
    a.uuid.Given? && b.uuid.Given? && |a.uuid.text| == |b.uuid.text|
    && forall i :: 0 <= i < |a.uuid.text| ==> SameLetter(a.uuid.text[i], b.uuid.text[i])
  }

  /** One id has one UUID or none, one UUID one id, and when strict one id has one name and one deletion flag. */
  predicate Compatible(a: Row, b: Row, strict: bool)
    requires Legible(a) && Legible(b)
  {
    && (a.id == b.id ==> SameUuid(a, b) || (a.uuid.Null? && b.uuid.Null?))
    && (SameUuid(a, b) ==> a.id == b.id)
    && (strict && a.id == b.id ==> a.name == b.name && a.deleted == b.deleted)
  }

  lemma AgreeExactly(a: Row, b: Row, strict: bool)
    requires WellFormed(a) && WellFormed(b)
    ensures Agree(a, b, strict) <==> Compatible(a, b, strict)
  {
    SameKeyExactly(a, b);
  }

  /** A table is accepted exactly when every row can be read and every two rows are compatible. */
  lemma AcceptedExactly(table: seq<Row>, strict: bool)
    ensures Acceptable(table, strict) <==>
      (forall i :: 0 <= i < |table| ==> Legible(table[i]))
      && forall i, j :: 0 <= i < |table| && 0 <= j < |table| ==> Compatible(table[i], table[j], strict)
  {
    if AllWellFormed(table) {
      forall i, j | 0 <= i < |table| && 0 <= j < |table|
        ensures Agree(table[i], table[j], strict) <==> Compatible(table[i], table[j], strict)
      {
        AgreeExactly(table[i], table[j], strict);
      }
    } else {
      var i :| 0 <= i < |table| && !WellFormed(table[i]);
      assert !Legible(table[i]);
    }
  }

  // ----- complete captures ------------------------------------------------------------------------------------------

  const MAX_PAGES := 200
  const MAX_TOTAL := 5000

  /** The capture of one page; None for a part of a wrong type, `sort` and `filters` compared as sent. */
  datatype Page = Page(
    readable: bool, offset: Option<int>, perPage: Option<int>, sort: int, filters: int,
    total: Option<int>, table: Option<seq<Row>>)

  datatype Assembled = Assembled(rows: seq<Row>, total: nat, pages: nat, dropped: nat)

  predicate PartsFine(p: Page) { p.readable && p.total.Some? && p.total.value >= 0 && p.table.Some? }

  /** The pages follow each other, under one sort and one filter, with one total. */
  predicate InStep(pages: seq<Page>, pageSize: int) {
    forall i :: 0 <= i < |pages| ==>
      pages[i].offset == Some(i * pageSize) && pages[i].perPage == Some(pageSize)
      && pages[i].sort == pages[0].sort && pages[i].filters == pages[0].filters
  }

  predicate AllPartsFine(pages: seq<Page>) { forall i :: 0 <= i < |pages| ==> PartsFine(pages[i]) }

  predicate SameTotals(pages: seq<Page>) { forall i :: 0 <= i < |pages| ==> pages[i].total == pages[0].total }

  function AllRows(pages: seq<Page>): seq<Row>
    requires AllPartsFine(pages)
  {
    if pages == [] then [] else AllRows(pages[..|pages| - 1]) + pages[|pages| - 1].table.value
  }

  /** A complete capture: every page in place and as many different tenants as every page announced. */
  predicate Complete(pages: seq<Page>, pageSize: int) {
    && 0 < pageSize && 0 < |pages| <= MAX_PAGES
    && AllPartsFine(pages) && SameTotals(pages)
    && 0 < pages[0].total.value <= MAX_TOTAL && InStep(pages, pageSize)
    && Acceptable(AllRows(pages), false) && |Ids(AllRows(pages))| == pages[0].total.value
  }

  /** Page `i` was read whole, is the `i`-th of its size, and has the order, the filters and the total of the first. */
  predicate PageFits(pages: seq<Page>, i: nat, pageSize: int) {
    && i < |pages| && pages[i].readable && pages[i].table.Some?
    && pages[i].total.Some? && pages[i].total == pages[0].total && 1 <= pages[i].total.value <= 5000
    && pages[i].offset == Some(i * pageSize) && pages[i].perPage == Some(pageSize)
    && pages[i].sort == pages[0].sort && pages[i].filters == pages[0].filters
  }

  lemma PagesFitExactly(pages: seq<Page>, pageSize: int)
    requires pages != []
    ensures (forall i: nat :: i < |pages| ==> PageFits(pages, i, pageSize)) <==>
      AllPartsFine(pages) && SameTotals(pages) && 0 < pages[0].total.value <= MAX_TOTAL && InStep(pages, pageSize)
  {
    if forall i: nat :: i < |pages| ==> PageFits(pages, i, pageSize) {
      forall i | 0 <= i < |pages|
        ensures PartsFine(pages[i]) && pages[i].total == pages[0].total
        ensures pages[i].offset == Some(i * pageSize) && pages[i].perPage == Some(pageSize)
                && pages[i].sort == pages[0].sort && pages[i].filters == pages[0].filters
      {
        assert PageFits(pages, i, pageSize) && PageFits(pages, 0, pageSize);
      }
      assert AllPartsFine(pages) && SameTotals(pages) && PageFits(pages, 0, pageSize);
      assert InStep(pages, pageSize);
    }
    if AllPartsFine(pages) && SameTotals(pages) && 0 < pages[0].total.value <= MAX_TOTAL && InStep(pages, pageSize) {
      forall i: nat | i < |pages| ensures PageFits(pages, i, pageSize) { assert PartsFine(pages[i]); }
    }
  }

  /**
    A capture is complete exactly when its pages, at most 200, all fit, its rows are an acceptable table, and they have
    as many ids as every page announces.
  */
  lemma CompleteExactly(pages: seq<Page>, pageSize: int)
    ensures Complete(pages, pageSize) <==>
      0 < pageSize && 1 <= |pages| <= 200 && (forall i: nat :: i < |pages| ==> PageFits(pages, i, pageSize))
      && AllPartsFine(pages) && Acceptable(AllRows(pages), false)
      && Some(|Ids(AllRows(pages))|) == pages[0].total
  {
    if pages != [] { PagesFitExactly(pages, pageSize); }
  }

  lemma OutOfStep(pages: seq<Page>, k: nat, pageSize: int)
    requires k < |pages|
    requires pages[k].offset != Some(k * pageSize) || pages[k].perPage != Some(pageSize)
          || pages[k].sort != pages[0].sort || pages[k].filters != pages[0].filters
    ensures !InStep(pages, pageSize)
  {
  }

  method JoinPages(pages: seq<Page>) returns (table: Option<seq<Row>>)
    ensures table.Some? <==> AllPartsFine(pages)
    ensures table.Some? ==> table.value == AllRows(pages)
  {
    var rows: seq<Row> := [];
    for i := 0 to |pages|
      invariant AllPartsFine(pages[..i]) && rows == AllRows(pages[..i])
    {
      if !PartsFine(pages[i]) { return None; }
      assert pages[..i + 1] == pages[..i] + [pages[i]] && pages[..i + 1][..i] == pages[..i];
      rows := rows + pages[i].table.value;
    }
    assert pages[..|pages|] == pages;
    return Some(rows);
  }

  method CheckSteps(pages: seq<Page>, pageSize: int) returns (inStep: bool)
    ensures inStep <==> InStep(pages, pageSize)
  {
    for i := 0 to |pages|
      invariant InStep(pages[..i], pageSize)
    {
      var p := pages[i];
      if p.offset != Some(i * pageSize) || p.perPage != Some(pageSize)
         || p.sort != pages[0].sort || p.filters != pages[0].filters {
        OutOfStep(pages, i, pageSize);
        return false;
      }
      assert pages[..i + 1] == pages[..i] + [p];
    }
    assert pages[..|pages|] == pages;
    return true;
  }

  /** Why a capture is refused: the first condition that fails, in the order they are judged. */
  ghost predicate PagesRefusedFor(pages: seq<Page>, pageSize: int, error: Error) {
    if pageSize <= 0 then error.Inconsistent?
    else if |pages| > MAX_PAGES then error.TooLarge?
    else if pages == [] || !AllPartsFine(pages) then error.SchemaUnavailable?
    else if !SameTotals(pages) then error.Inconsistent?
    else if pages[0].total.value > MAX_TOTAL then error.TooLarge?
    else if pages[0].total.value == 0 then error.Empty?
    else if !InStep(pages, pageSize) then error.Inconsistent?
    else if !Acceptable(AllRows(pages), false) then exists k :: FirstBadRow(AllRows(pages), k, false, error)
    else error.Inconsistent? && |Ids(AllRows(pages))| != pages[0].total.value
  }

  method AssemblePages(pages: seq<Page>, pageSize: int) returns (result: Result<Assembled, Error>)
    ensures result.Ok? <==> Complete(pages, pageSize)
    ensures result.Ok? ==>
      var all := AllRows(pages);
      && result.value.rows == FirstOfEach(all) && result.value.total == pages[0].total.value == |result.value.rows|
      && Ids(result.value.rows) == Ids(all) && |result.value.rows| + result.value.dropped == |all|
    ensures result.Err? ==> PagesRefusedFor(pages, pageSize, result.error)
  {
    if pageSize <= 0 { return Err(Inconsistent); }
    if |pages| > MAX_PAGES { return Err(TooLarge); }
    if pages == [] { return Err(SchemaUnavailable); }
    var table := JoinPages(pages);
    if table.None? { return Err(SchemaUnavailable); }
    var total := pages[0].total.value;
    for i := 0 to |pages|
      invariant forall k :: 0 <= k < i ==> pages[k].total == pages[0].total
    {
      if pages[i].total.value != total { return Err(Inconsistent); }
    }
    if total > MAX_TOTAL { return Err(TooLarge); }
    if total == 0 { return Err(Empty); }
    var inStep := CheckSteps(pages, pageSize);
    if !inStep { return Err(Inconsistent); }
    var checked := ValidatedRows(table.value, false);
    if checked.Err? { return Err(checked.error); }
    KeptRowsAreTheTenants(table.value, false);
    if |checked.value.0| != total { return Err(Inconsistent); }
    return Ok(Assembled(checked.value.0, total, |pages|, checked.value.1));
  }

  lemma SomeRowSomeId(table: seq<Row>)
    requires AllWellFormed(table) && table != []
    ensures |Ids(table)| > 0
  {
    IdsExactly(table, Id(table[0]));
  }

  method AssembleRows(table: seq<Row>, maxTotal: nat) returns (result: Result<Assembled, Error>)
    ensures result.Ok? <==> Acceptable(table, true) && table != [] && |table| <= maxTotal
    ensures result.Ok? ==>
      && result.value.rows == FirstOfEach(table) && result.value.total == |result.value.rows| == |Ids(table)|
      && |result.value.rows| + result.value.dropped == |table|
    ensures result.Err? ==>
      if !Acceptable(table, true) then exists k :: FirstBadRow(table, k, true, result.error)
      else result.error == if table == [] then Empty else TooLarge
  {
    var checked := ValidatedRows(table, true);
    if checked.Err? { return Err(checked.error); }
    KeptRowsAreTheTenants(table, true);
    var (rows, duplicates) := checked.value;
    if table != [] { SomeRowSomeId(table); }
    if rows == [] { return Err(Empty); }
    if |rows| + duplicates > maxTotal { return Err(TooLarge); }
    return Ok(Assembled(rows, |rows|, 1, duplicates));
  }
}
