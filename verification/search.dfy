/** The predicate search every node of the second-generation cluster runs on
    its own store (`perform_search`, identical on the leader and on the
    followers).

    Up to three clauses are read from the request: `name` and `city` match by
    case-insensitive substring, `age` by integer equality, and an age text that
    does not parse as an integer is dropped. The clauses are AND-combined and
    evaluated left to right with short-circuiting, as TinyDB's `&` does. A
    record lacking a field fails that clause; a clause whose test raises (a
    non-string `name`, say) aborts the whole store scan, and the search then
    returns no records at all. With no clause left the result is empty. */
module Search {
  import opened Base
  import opened Text
  import opened Documents

  datatype Clause = NameContains(q: string) | AgeEquals(n: int) | CityContains(q: string)

  /** Python's `data.get(key, '').strip()`: a missing key reads as `""`, a
      value that is not a string raises. */
  function Field(data: map<string, Value>, key: string): Result<string> {
    if key !in data then Ok("")
    else match data[key]
      case Str(s) => Ok(Strip(s))
      case _ => Raised
  }

  /** The integer an age text asks for: none when the text is blank or is
      not an integer (the `ValueError` is swallowed). */
  function AgeWanted(age: string): Option<int> {
    if age != "" then ParseInt(age) else None
  }

  /** The clauses built from the stripped `name` text, the wanted age and the
      stripped `city` text, in that order; a blank text adds none. */
  function Clauses(name: string, age: Option<int>, city: string): seq<Clause> {
    (if name != "" then [NameContains(name)] else [])
    + (if age.Some? then [AgeEquals(age.value)] else [])
    + (if city != "" then [CityContains(city)] else [])
  }

  /** The clauses a request yields, or `Raised` when reading a field raises. */
  function Criteria(data: map<string, Value>): Result<seq<Clause>> {
    match (Field(data, "name"), Field(data, "age"), Field(data, "city"))
    case (Ok(name), Ok(age), Ok(city)) => Ok(Clauses(name, AgeWanted(age), city))
    case _ => Raised
  }

  /** `search.lower() in field.lower()` on the string stored under `key`; a
      missing field is a non-match (TinyDB's path lookup), any other value
      raises on `.lower()`. */
  function ContainsTest(d: Doc, key: string, q: string): Result<bool> {
    if key !in d then Ok(false)
    else match d[key]
      case Str(s) => Ok(IsSubstring(Lower(q), Lower(s)))
      case _ => Raised
  }

  /** One clause applied to one record. */
  function TestClause(c: Clause, d: Doc): Result<bool> {
    match c
    case NameContains(q) => ContainsTest(d, "name", q)
    case AgeEquals(n) => Ok("age" in d && d["age"] == Int(n))
    case CityContains(q) => ContainsTest(d, "city", q)
  }

  /** Every clause holds of `d`: the AND-combination. */
  predicate MatchesAll(cs: seq<Clause>, d: Doc) {
    forall i :: 0 <= i < |cs| ==> TestClause(cs[i], d) == Ok(true)
  }

  /** Short-circuit evaluation of the clauses on `d` reaches a clause that
      raises: every clause before it held. */
  predicate Faults(cs: seq<Clause>, d: Doc) {
    exists i :: 0 <= i < |cs| && TestClause(cs[i], d) == Raised && forall j :: 0 <= j < i ==> TestClause(cs[j], d) == Ok(true)
  }

  /** Left-to-right short-circuit AND of the clauses on one record. */
  function TestAll(cs: seq<Clause>, d: Doc): (r: Result<bool>)
    ensures r == Ok(true) <==> MatchesAll(cs, d)
    ensures r == Raised <==> Faults(cs, d)
  {
    if cs == [] then Ok(true)
    else match TestClause(cs[0], d)
      case Raised => Raised
      case Ok(false) => Ok(false)
      case Ok(true) =>
        var r := TestAll(cs[1..], d);
        assert forall i :: 1 <= i < |cs| ==> cs[1..][i - 1] == cs[i];
        assert r == Raised ==> Faults(cs, d) by {
          if r == Raised {
            var i :| 0 <= i < |cs[1..]| && TestClause(cs[1..][i], d) == Raised && forall j :: 0 <= j < i ==> TestClause(cs[1..][j], d) == Ok(true);
            assert forall j :: 0 <= j < i + 1 ==> TestClause(cs[j], d) == Ok(true) by {
              forall j | 0 <= j < i + 1 ensures TestClause(cs[j], d) == Ok(true) {
                if j > 0 {
                  assert cs[j] == cs[1..][j - 1];
                }
              }
            }
            assert TestClause(cs[i + 1], d) == Raised;
          }
        }
        assert Faults(cs, d) ==> r == Raised by {
          if Faults(cs, d) {
            var i :| 0 <= i < |cs| && TestClause(cs[i], d) == Raised && forall j :: 0 <= j < i ==> TestClause(cs[j], d) == Ok(true);
            assert i > 0;
            assert TestClause(cs[1..][i - 1], d) == Raised;
            assert forall j :: 0 <= j < i - 1 ==> TestClause(cs[1..][j], d) == Ok(true);
          }
        }
        r
  }

  /** No record of the store makes the clauses raise. */
  predicate NoFault(store: seq<Doc>, cs: seq<Clause>) {
    forall k :: 0 <= k < |store| ==> !Faults(cs, store[k])
  }

  /** TinyDB's `db.search(cond)`: the records satisfying every clause, each as
      often as it is stored; an exception from any record aborts the scan. */
  function SearchStore(store: seq<Doc>, cs: seq<Clause>): (r: Result<seq<Doc>>)
    ensures r.Ok? <==> NoFault(store, cs)
    ensures r.Ok? ==> forall d :: multiset(r.value)[d] == if MatchesAll(cs, d) then multiset(store)[d] else 0
  {
    if store == [] then Ok([])
    else
      var init := store[..|store| - 1];
      var last := store[|store| - 1];
      assert store == init + [last];
      match SearchStore(init, cs)
      case Raised => Raised
      case Ok(found) =>
        match TestAll(cs, last)
        case Raised => Raised
        case Ok(b) =>
          assert NoFault(store, cs) by {
            forall k | 0 <= k < |store| ensures !Faults(cs, store[k]) {
              if k < |init| {
                assert store[k] == init[k];
              }
            }
          }
          if b then Ok(found + [last]) else Ok(found)
  }

  /** `perform_search(db, data)`: the stored records that satisfy every clause
      the request yields. The result is empty when reading a field raises,
      when no clause survives, and when any stored record makes a clause
      raise. */
  function PerformSearch(store: seq<Doc>, data: map<string, Value>): (r: seq<Doc>)
    ensures forall d :: d in r <==>
      && Criteria(data).Ok?
      && Criteria(data).value != []
      && NoFault(store, Criteria(data).value)
      && d in store
      && MatchesAll(Criteria(data).value, d)
    ensures Criteria(data).Ok? && Criteria(data).value != [] && NoFault(store, Criteria(data).value) ==>
      forall d :: multiset(r)[d] == if MatchesAll(Criteria(data).value, d) then multiset(store)[d] else 0
  {
    match Criteria(data)
    case Raised => []
    case Ok(cs) =>
      if cs == [] then []
      else match SearchStore(store, cs)
        case Raised => []
        case Ok(found) => found
  }
}

/** Properties of `perform_search` for the request shapes the nodes see. */
module SearchProperties {
  import opened Base
  import opened Text
  import opened Documents
  import opened Search

  /** A `name` or `city` clause: it holds exactly when the field is a string
      containing the lower-cased query, and raises exactly when the field is
      present but not a string. */
  lemma ContainsClauseIff(d: Doc, key: string, q: string)
    ensures ContainsTest(d, key, q) == Ok(true) <==>
      key in d && d[key].Str? && exists i :: OccursAt(Lower(q), Lower(d[key].s), i)
    ensures ContainsTest(d, key, q) == Raised <==> key in d && !d[key].Str?
  {
    if key in d && d[key].Str? {
      IsSubstringIff(Lower(q), Lower(d[key].s));
    }
  }

  /** Matches keep the store's order: searching two stretches of the store
      one after the other is searching the whole store. */
  lemma {:induction false} SearchStoreAppend(a: seq<Doc>, b: seq<Doc>, cs: seq<Clause>)
    ensures SearchStore(a, cs).Ok? && SearchStore(b, cs).Ok? ==>
      SearchStore(a + b, cs) == Ok(SearchStore(a, cs).value + SearchStore(b, cs).value)
  {
    if b == [] {
      assert a + b == a;
      assert SearchStore(a, cs).Ok? ==> SearchStore(a, cs).value + [] == SearchStore(a, cs).value;
    } else if SearchStore(a, cs).Ok? && SearchStore(b, cs).Ok? {
      var init, d := b[..|b| - 1], b[|b| - 1];
      assert b == init + [d];
      assert a + b == (a + init) + [d];
      NoFaultSnoc(init, d, cs);
      SearchStoreAppend(a, init, cs);
      SearchStoreSnoc(a + init, d, cs);
      SearchStoreSnoc(init, d, cs);
      if TestAll(cs, d).value {
        Associative(SearchStore(a, cs).value, SearchStore(init, cs).value, [d]);
      }
    }
  }

  lemma NoFaultSnoc(s: seq<Doc>, d: Doc, cs: seq<Clause>)
    ensures NoFault(s + [d], cs) ==> NoFault(s, cs) && !Faults(cs, d)
  {
    var t := s + [d];
    if NoFault(t, cs) {
      forall k | 0 <= k < |s| ensures !Faults(cs, s[k]) {
        assert s[k] == t[k];
      }
      assert t[|s|] == d;
    }
  }

  lemma SearchStoreSnoc(s: seq<Doc>, d: Doc, cs: seq<Clause>)
    requires SearchStore(s, cs).Ok? && TestAll(cs, d).Ok?
    ensures SearchStore(s + [d], cs) ==
      var found := SearchStore(s, cs).value;
      Ok(if TestAll(cs, d).value then found + [d] else found)
  {
    var t := s + [d];
    assert t[..|t| - 1] == s;
    assert t[|t| - 1] == d;
  }

  /** The answer keeps the store's order: on a store no record of which makes
      the clauses raise, the answer for two stretches of it is the answer
      for the first followed by the answer for the second. */
  lemma PerformSearchAppend(a: seq<Doc>, b: seq<Doc>, data: map<string, Value>)
    ensures Criteria(data).Ok? && NoFault(a + b, Criteria(data).value) ==>
      PerformSearch(a + b, data) == PerformSearch(a, data) + PerformSearch(b, data)
  {
    if Criteria(data).Ok? && Criteria(data).value != [] && NoFault(a + b, Criteria(data).value) {
      var cs := Criteria(data).value;
      assert NoFault(a, cs) by {
        forall k | 0 <= k < |a| ensures !Faults(cs, a[k]) {
          assert a[k] == (a + b)[k];
        }
      }
      assert NoFault(b, cs) by {
        forall k | 0 <= k < |b| ensures !Faults(cs, b[k]) {
          assert b[k] == (a + b)[|a| + k];
        }
      }
      SearchStoreAppend(a, b, cs);
    }
  }

  /** The clauses of a request whose three fields read without raising. */
  lemma CriteriaOf(data: map<string, Value>, name: string, age: string, city: string)
    requires Field(data, "name") == Ok(name) && Field(data, "age") == Ok(age) && Field(data, "city") == Ok(city)
    ensures Criteria(data) == Ok(Clauses(name, AgeWanted(age), city))
  {
  }

  /** With clauses that no stored record makes raise, the search returns the
      records that satisfy them all. */
  lemma SearchWith(store: seq<Doc>, data: map<string, Value>, cs: seq<Clause>)
    requires Criteria(data) == Ok(cs) && cs != []
    requires forall d: Doc :: d in store ==> !Faults(cs, d)
    ensures forall d: Doc :: d in PerformSearch(store, data) <==> d in store && MatchesAll(cs, d)
  {
    assert NoFault(store, cs);
  }

  /** A search on `name` alone (or `city` alone) over a store whose values in
      that field are strings returns exactly the records whose field contains
      the stripped query, ignoring ASCII case. */
  lemma SubstringSearch(store: seq<Doc>, data: map<string, Value>, key: string, q: string)
    requires key == "name" || key == "city"
    requires Field(data, key) == Ok(q) && q != ""
    requires Field(data, "age") == Ok("")
    requires Field(data, if key == "name" then "city" else "name") == Ok("")
    requires forall d: Doc :: d in store && key in d ==> d[key].Str?
    ensures forall d: Doc :: d in PerformSearch(store, data) <==>
      d in store && key in d && exists i :: OccursAt(Lower(q), Lower(d[key].s), i)
  {
    var cs := SingleClause(data, key, q);
    forall d: Doc | d in store
      ensures !Faults(cs, d)
      ensures MatchesAll(cs, d) <==> key in d && exists i :: OccursAt(Lower(q), Lower(d[key].s), i)
    {
      ClauseOnRecord(key, q, d);
    }
    SearchWith(store, data, cs);
  }

  /** A query on `name` alone (or `city` alone) yields its one clause. */
  lemma SingleClause(data: map<string, Value>, key: string, q: string) returns (cs: seq<Clause>)
    requires key == "name" || key == "city"
    requires Field(data, key) == Ok(q) && q != ""
    requires Field(data, "age") == Ok("")
    requires Field(data, if key == "name" then "city" else "name") == Ok("")
    ensures cs == [if key == "name" then NameContains(q) else CityContains(q)]
    ensures Criteria(data) == Ok(cs)
  {
    cs := [if key == "name" then NameContains(q) else CityContains(q)];
    assert AgeWanted("") == None;
    if key == "name" {
      CriteriaOf(data, q, "", "");
      assert Clauses(q, None, "") == cs;
    } else {
      CriteriaOf(data, "", "", q);
      assert Clauses("", None, q) == cs;
    }
  }

  /** The one substring clause on a record whose field, when present, is a
      string: it never raises, and holds exactly when the field contains the
      query ignoring ASCII case. */
  lemma ClauseOnRecord(key: string, q: string, d: Doc)
    requires key == "name" || key == "city"
    requires key in d ==> d[key].Str?
    ensures var cs := [if key == "name" then NameContains(q) else CityContains(q)];
      && !Faults(cs, d)
      && (MatchesAll(cs, d) <==> key in d && exists i :: OccursAt(Lower(q), Lower(d[key].s), i))
  {
    var cs := [if key == "name" then NameContains(q) else CityContains(q)];
    ContainsClauseIff(d, key, q);
    assert TestClause(cs[0], d) == ContainsTest(d, key, q);
    assert MatchesAll(cs, d) <==> TestClause(cs[0], d) == Ok(true);
  }

  /** A search on an integer `age` alone returns exactly the records whose
      `age` field is that integer. */
  lemma AgeSearch(store: seq<Doc>, data: map<string, Value>, a: string, n: int)
    requires Field(data, "age") == Ok(a) && ParseInt(a) == Some(n)
    requires Field(data, "name") == Ok("") && Field(data, "city") == Ok("")
    ensures forall d: Doc :: d in PerformSearch(store, data) <==> d in store && "age" in d && d["age"] == Int(n)
  {
    var cs := [AgeEquals(n)];
    assert AgeWanted(a) == Some(n);
    CriteriaOf(data, "", a, "");
    assert Clauses("", Some(n), "") == cs;
    forall d: Doc
      ensures !Faults(cs, d)
      ensures MatchesAll(cs, d) <==> "age" in d && d["age"] == Int(n)
    {
      assert TestClause(cs[0], d).Ok?;
    }
    SearchWith(store, data, cs);
  }

  /** An age text whose stripped form is not an integer is dropped without
      error: the search answers as if the age field had been left blank. */
  lemma UnparsableAgeIgnored(store: seq<Doc>, data: map<string, Value>)
    requires "age" in data && data["age"].Str? && ParseInt(Strip(data["age"].s)) == None
    ensures PerformSearch(store, data) == PerformSearch(store, data["age" := Str("")])
  {
    UnparsableAgeSameCriteria(data);
  }

  lemma UnparsableAgeSameCriteria(data: map<string, Value>)
    requires "age" in data && data["age"].Str? && ParseInt(Strip(data["age"].s)) == None
    ensures Criteria(data) == Criteria(data["age" := Str("")])
  {
    var data' := data["age" := Str("")];
    var a := UnparsableAgeField(data);
    BlankAgeField(data);
    var name := Field(data, "name");
    var city := Field(data, "city");
    assert Field(data', "name") == name;
    assert Field(data', "city") == city;
    if name.Ok? && city.Ok? {
      CriteriaOf(data, name.value, a, city.value);
      CriteriaOf(data', name.value, "", city.value);
    }
  }

  lemma UnparsableAgeField(data: map<string, Value>) returns (a: string)
    requires "age" in data && data["age"].Str? && ParseInt(Strip(data["age"].s)) == None
    ensures Field(data, "age") == Ok(a) && AgeWanted(a) == None
  {
    a := Strip(data["age"].s);
  }

  lemma BlankAgeField(data: map<string, Value>)
    ensures Field(data["age" := Str("")], "age") == Ok("")
    ensures AgeWanted("") == None
  {
    StripEmpty();
  }

  /** A request whose three fields are all missing or whitespace yields no
      clause, so the search finds nothing, whatever the store holds. */
  lemma BlankQueryFindsNothing(store: seq<Doc>, data: map<string, Value>)
    requires "name" in data ==> data["name"].Str? && AllSpace(data["name"].s)
    requires "age" in data ==> data["age"].Str? && AllSpace(data["age"].s)
    requires "city" in data ==> data["city"].Str? && AllSpace(data["city"].s)
    ensures PerformSearch(store, data) == []
  {
    if "name" in data { StripEmptyIff(data["name"].s); }
    if "age" in data { StripEmptyIff(data["age"].s); }
    if "city" in data { StripEmptyIff(data["city"].s); }
    assert Field(data, "name") == Ok("");
    assert Field(data, "age") == Ok("");
    assert Field(data, "city") == Ok("");
    assert Clauses("", None, "") == [];
    assert Criteria(data) == Ok([]);
  }

  /** One stored record whose `name` is not a string makes every name search
      raise inside the store scan; the exception is swallowed and the search
      returns nothing, even for records that would have matched. */
  lemma NonStringNameEmptiesSearch(store: seq<Doc>, data: map<string, Value>, d: Doc)
    requires Field(data, "name").Ok? && Field(data, "name").value != ""
    requires d in store && "name" in d && !d["name"].Str?
    ensures PerformSearch(store, data) == []
  {
    if Criteria(data).Ok? {
      var cs := Criteria(data).value;
      assert cs[0] == NameContains(Field(data, "name").value);
      assert Faults(cs, d);
    }
  }
}
