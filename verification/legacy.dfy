/** The first-generation cluster at the repository root (leader.py,
    follower.py): a leader on port 5000 with two fixed followers, JSON-only
    routes, and a single `{key, op, value}` comparison query that the leader
    and every follower evaluate the same way. */

/** The comparison query both root nodes evaluate against their TinyDB store
    (`perform_local_search` in leader.py, `handle_local_search` in
    follower.py). */
module LegacyQuery {
  import opened Base
  import opened Documents

  datatype Op = Gt | Lt | Eq

  /** The operator table `ops`: only the strings ">", "<" and "==" name an
      operator. */
  function OpOf(v: Value): Option<Op> {
    if v == Str(">") then Some(Gt)
    else if v == Str("<") then Some(Lt)
    else if v == Str("==") then Some(Eq)
    else None
  }

  /** Python's `a > b`, `a < b` and `a == b` on a stored field value `a` and
      the query value `b`; ordering a pair that is not two integers or two
      strings raises. */
  function Compare(op: Op, a: Value, b: Value): Result<bool> {
    match op
    case Gt => Less(b, a)
    case Lt => Less(a, b)
    case Eq => Ok(a == b)
  }

  /** A query whose three fields were read and whose operator is known. */
  datatype Cond = Cond(key: Value, op: Op, value: Value)

  /** Reading `query['key']`, `query['op']` and `query['value']`: a query that
      is not an object or lacks a field raises; an unknown operator selects
      nothing (`Ok(None)`). */
  function Parse(query: Payload): Result<Option<Cond>> {
    match query
    case Scalar(_) => Raised
    case Object(q) =>
      if "key" !in q || "op" !in q || "value" !in q then Raised
      else match OpOf(q["op"])
        case None => Ok(None)
        case Some(op) => Ok(Some(Cond(q["key"], op, q["value"])))
  }

  /** TinyDB's test of `User[key] <op> value` on one record: a missing field,
      and a key that is not a string, make the test false; the comparison
      itself may raise. */
  function Test(c: Cond, d: Doc): Result<bool> {
    if !c.key.Str? || c.key.s !in d then Ok(false) else Compare(c.op, d[c.key.s], c.value)
  }

  /** `db.search(...)` with the condition: the records passing the test, each
      as often as stored; a test that raises aborts the scan. */
  function Scan(store: seq<Doc>, c: Cond): (r: Result<seq<Doc>>)
    ensures r.Raised? <==> exists k :: 0 <= k < |store| && Test(c, store[k]).Raised?
    ensures r.Ok? ==> forall d :: multiset(r.value)[d] == if Test(c, d) == Ok(true) then multiset(store)[d] else 0
  {
    if store == [] then Ok([])
    else
      var init := store[..|store| - 1];
      var last := store[|store| - 1];
      assert store == init + [last];
      assert forall k :: 0 <= k < |init| ==> init[k] == store[k];
      match Scan(init, c)
      case Raised =>
        var k :| 0 <= k < |init| && Test(c, init[k]).Raised?;
        assert Test(c, store[k]).Raised?;
        Raised
      case Ok(found) =>
        match Test(c, last)
        case Raised =>
          assert Test(c, store[|init|]).Raised?;
          Raised
        case Ok(b) =>
          var r := if b then found + [last] else found;
          assert multiset(store) == multiset(init) + multiset{last};
          assert multiset(r) == multiset(found) + if b then multiset{last} else multiset{};
          Ok(r)
  }

  /** Passing records keep the store's order: scanning two stretches of the
      store one after the other is scanning the whole store. */
  lemma {:induction false} ScanAppend(a: seq<Doc>, b: seq<Doc>, c: Cond)
    ensures Scan(a, c).Ok? && Scan(b, c).Ok? ==> Scan(a + b, c) == Ok(Scan(a, c).value + Scan(b, c).value)
  {
    if b == [] {
      assert a + b == a;
      assert Scan(a, c).Ok? ==> Scan(a, c).value + [] == Scan(a, c).value;
    } else if Scan(a, c).Ok? && Scan(b, c).Ok? {
      var init, d := b[..|b| - 1], b[|b| - 1];
      assert b == init + [d];
      assert a + b == (a + init) + [d];
      ScanSnoc(init, d, c);
      assert Scan(init, c).Ok? && Test(c, d).Ok?;
      ScanAppend(a, init, c);
      ScanSnoc(a + init, d, c);
      if Test(c, d).value {
        Associative(Scan(a, c).value, Scan(init, c).value, [d]);
      }
    }
  }

  /** Scanning one more record extends the scan of the others. */
  lemma ScanSnoc(s: seq<Doc>, d: Doc, c: Cond)
    ensures Scan(s + [d], c) ==
      match (Scan(s, c), Test(c, d))
      case (Ok(found), Ok(b)) => Ok(if b then found + [d] else found)
      case _ => Raised
  {
    var t := s + [d];
    assert t[..|t| - 1] == s;
    assert t[|t| - 1] == d;
  }

  /** The query selects `d`: it parses, names an operator, and its test holds. */
  predicate Selected(query: Payload, d: Doc) {
    Parse(query).Ok? && Parse(query).value.Some? && Test(Parse(query).value.value, d) == Ok(true)
  }

  /** Testing the query on `d` raises. */
  predicate FaultsOn(query: Payload, d: Doc) {
    Parse(query).Ok? && Parse(query).value.Some? && Test(Parse(query).value.value, d).Raised?
  }

  /** The whole local query: the stored records it selects, each as often as
      stored, or an exception when the query is malformed or some record's
      comparison raises. */
  function Select(store: seq<Doc>, query: Payload): (r: Result<seq<Doc>>)
    ensures r.Raised? <==> Parse(query).Raised? || exists k :: 0 <= k < |store| && FaultsOn(query, store[k])
    ensures r.Ok? ==> forall d :: multiset(r.value)[d] == if Selected(query, d) then multiset(store)[d] else 0
    ensures r.Ok? ==> forall d :: d in r.value <==> d in store && Selected(query, d)
  {
    match Parse(query)
    case Raised => Raised
    case Ok(None) => Ok([])
    case Ok(Some(c)) => Scan(store, c)
  }

  /** Selected records keep the store's order. */
  lemma SelectAppend(a: seq<Doc>, b: seq<Doc>, query: Payload)
    ensures Select(a, query).Ok? && Select(b, query).Ok? ==>
      Select(a + b, query) == Ok(Select(a, query).value + Select(b, query).value)
  {
    match Parse(query)
    case Raised =>
    case Ok(None) =>
      var none: seq<Doc> := [];
      assert Select(a + b, query) == Ok(none) && Select(a, query) == Ok(none) && Select(b, query) == Ok(none);
      assert none + none == none;
    case Ok(Some(c)) =>
      ScanAppend(a, b, c);
  }

  /** The query object a client sends for `key op value`. */
  function QueryOf(key: string, op: string, value: Value): Payload {
    Object(map["key" := Str(key), "op" := Str(op), "value" := value])
  }

  /** `>` is `<` with its operands swapped, and on values Python can order
      exactly one of `>`, `<`, `==` holds; on any other pair both orderings
      raise while `==` is false. */
  lemma CompareTrichotomy(a: Value, b: Value)
    ensures Compare(Gt, a, b) == Compare(Lt, b, a)
    ensures Comparable(a, b) ==>
      && Compare(Gt, a, b).Ok? && Compare(Lt, a, b).Ok?
      && (if a == b then !Compare(Gt, a, b).value && !Compare(Lt, a, b).value
          else Compare(Gt, a, b).value != Compare(Lt, a, b).value)
    ensures !Comparable(a, b) ==> Compare(Gt, a, b).Raised? && Compare(Lt, a, b).Raised? && Compare(Eq, a, b).Ok?
  {
    LessTrichotomy(a, b);
  }

  /** An equality query never raises and selects exactly the records holding
      the value under the key. */
  lemma EqualitySelects(store: seq<Doc>, key: string, v: Value)
    ensures Select(store, QueryOf(key, "==", v)).Ok?
    ensures forall d :: d in Select(store, QueryOf(key, "==", v)).value <==> d in store && key in d && d[key] == v
  {
  }

  /** An operator outside the table selects nothing, whatever the store. */
  lemma UnknownOpSelectsNothing(store: seq<Doc>, key: string, op: string, v: Value)
    requires op != ">" && op != "<" && op != "=="
    ensures Select(store, QueryOf(key, op, v)) == Ok([])
  {
    assert OpOf(Str(op)) == None;
  }

  /** An ordering query raises as soon as one stored record holds, under the
      key, a value of a type that cannot be ordered against the query value
      (an integer against a string, or null). */
  lemma MixedTypesRaise(store: seq<Doc>, key: string, op: string, v: Value, k: nat)
    requires op == ">" || op == "<"
    requires k < |store| && key in store[k] && !Comparable(store[k][key], v)
    ensures Select(store, QueryOf(key, op, v)).Raised?
  {
    var q := QueryOf(key, op, v);
    assert FaultsOn(q, store[k]);
  }

  /** A well-formed query with a known operator selects exactly the records
      holding the key whose comparison holds. */
  lemma SelectedByOp(key: string, op: string, o: Op, v: Value, d: Doc)
    requires OpOf(Str(op)) == Some(o)
    ensures Parse(QueryOf(key, op, v)) == Ok(Some(Cond(Str(key), o, v)))
    ensures Selected(QueryOf(key, op, v), d) <==> key in d && Compare(o, d[key], v) == Ok(true)
  {
  }

  /** An ordering query on values that can all be ordered against `v` does
      not raise. */
  lemma OrderingDoesNotRaise(store: seq<Doc>, key: string, op: string, o: Op, v: Value)
    requires OpOf(Str(op)) == Some(o)
    requires forall k :: 0 <= k < |store| && key in store[k] ==> Comparable(store[k][key], v)
    ensures Select(store, QueryOf(key, op, v)).Ok?
  {
    var q := QueryOf(key, op, v);
    SelectedByOp(key, op, o, v, map[]);
    forall k | 0 <= k < |store| ensures !FaultsOn(q, store[k]) {
      if key in store[k] {
        LessTrichotomy(store[k][key], v);
      }
    }
  }

  /** The answer `r` is a list of records and `d` is among them. */
  predicate Picks(r: Result<seq<Doc>>, d: Doc) {
    r.Ok? && d in r.value
  }

  /** A query with a known operator that does not raise picks a stored
      record exactly when the record holds the key and its comparison holds. */
  lemma PicksByOp(store: seq<Doc>, key: string, op: string, o: Op, v: Value, d: Doc)
    requires OpOf(Str(op)) == Some(o)
    requires Select(store, QueryOf(key, op, v)).Ok? && d in store
    ensures Picks(Select(store, QueryOf(key, op, v)), d) <==> key in d && Compare(o, d[key], v) == Ok(true)
  {
    SelectedByOp(key, op, o, v, d);
  }

  /** When every stored value under the key can be ordered against `v`, the
      three operators split the records holding the key: each is selected by
      exactly one of `>`, `<`, `==`, and records without the key by none. */
  lemma OpsPartition(store: seq<Doc>, key: string, v: Value, d: Doc)
    requires forall k :: 0 <= k < |store| && key in store[k] ==> Comparable(store[k][key], v)
    requires d in store
    ensures Select(store, QueryOf(key, ">", v)).Ok? && Select(store, QueryOf(key, "<", v)).Ok?
    ensures var gt, lt, eq := Picks(Select(store, QueryOf(key, ">", v)), d), Picks(Select(store, QueryOf(key, "<", v)), d), Picks(Select(store, QueryOf(key, "==", v)), d);
      if key in d then (gt && !lt && !eq) || (!gt && lt && !eq) || (!gt && !lt && eq)
      else !gt && !lt && !eq
  {
    OrderingDoesNotRaise(store, key, ">", Gt, v);
    OrderingDoesNotRaise(store, key, "<", Lt, v);
    EqualitySelects(store, key, v);
    PicksByOp(store, key, ">", Gt, v, d);
    PicksByOp(store, key, "<", Lt, v, d);
    PicksByOp(store, key, "==", Eq, v, d);
    if key in d {
      CompareTrichotomy(d[key], v);
    }
  }
}

/** The root follower (follower.py): stores what the leader replicates and
    answers the leader's local queries. */
module LegacyFollower {
  import opened Base
  import opened Documents
  import opened LegacyQuery

  datatype Stored = Stored(store: seq<Doc>, code: int)

  /** `/replicate`: a body without `document` is answered 400; an object
      document is appended as it is and answered 200; any other document makes
      the store's insert raise, answered 500. */
  function HandleReplicate(store: seq<Doc>, body: map<string, Payload>): (r: Stored)
    ensures r.code == 400 <==> "document" !in body
    ensures r.code == 200 <==> "document" in body && body["document"].Object?
    ensures r.code == 200 ==> r.store == store + [body["document"].fields]
    ensures r.code != 200 ==> r.store == store
    ensures r.code in {200, 400, 500}
  {
    if body == map[] || "document" !in body then Stored(store, 400)
    else match body["document"]
      case Object(fields) => Stored(store + [fields], 200)
      case Scalar(_) => Stored(store, 500)
  }

  /** A search reply: the status and the `results` list. */
  datatype Answer = Answer(code: int, results: seq<Doc>)

  /** `/local_search`: a body without `query` is answered 400; a query that
      raises is answered 500; otherwise 200 with the selected records in
      stored order. */
  function HandleLocalSearch(store: seq<Doc>, body: map<string, Payload>): (r: Answer)
    ensures r.code == 400 <==> "query" !in body
    ensures r.code == 500 <==> "query" in body && Select(store, body["query"]).Raised?
    ensures r.code in {200, 400, 500}
    ensures r.code != 200 ==> r.results == []
    ensures r.code == 200 ==> forall d :: multiset(r.results)[d] == if Selected(body["query"], d) then multiset(store)[d] else 0
  {
    if body == map[] || "query" !in body then Answer(400, [])
    else match Select(store, body["query"])
      case Raised => Answer(500, [])
      case Ok(found) => Answer(200, found)
  }
}

/** The root leader (leader.py): inserts locally and replicates to the two
    fixed followers, and answers a query by gathering every node's matches
    and removing duplicates. */
module LegacyLeader {
  import opened Base
  import opened Documents
  import opened LegacyQuery
  import LegacyFollower

  const FollowerNodes: seq<string> := ["http://127.0.0.1:5001", "http://127.0.0.1:5002"]

  datatype Inserted = Inserted(store: seq<Doc>, code: int, posts: seq<Post>)

  /** `replicate_to_followers(data)`: the whole request body is posted to
      `<url>/replicate` of each follower in turn, failures ignored. */
  function ReplicateToFollowers(body: map<string, Payload>): (posts: seq<Post>)
    ensures |posts| == |FollowerNodes|
    ensures forall i :: 0 <= i < |posts| ==> posts[i] == Post(FollowerNodes[i] + "/replicate", body)
  {
    seq(|FollowerNodes|, i requires 0 <= i < |FollowerNodes| => Post(FollowerNodes[i] + "/replicate", body))
  }

  /** `/insert`: a body without `document` is answered 400 and a document the
      store refuses 500, neither replicated; an object document is stored
      and the body replicated, answered 200. */
  function HandleInsert(store: seq<Doc>, body: map<string, Payload>): (r: Inserted)
    ensures r.code == 400 <==> "document" !in body
    ensures r.code == 200 <==> "document" in body && body["document"].Object?
    ensures r.code in {200, 400, 500}
    ensures r.code == 200 ==> r.store == store + [body["document"].fields] && r.posts == ReplicateToFollowers(body)
    ensures r.code != 200 ==> r.store == store && r.posts == []
  {
    if body == map[] || "document" !in body then Inserted(store, 400, [])
    else match body["document"]
      case Object(fields) => Inserted(store + [fields], 200, ReplicateToFollowers(body))
      case Scalar(_) => Inserted(store, 500, [])
  }

  /** Every follower a replication request reaches appends the record the
      leader just stored, and answers 200. */
  lemma InsertReplicates(store: seq<Doc>, body: map<string, Payload>, followerStore: seq<Doc>)
    requires HandleInsert(store, body).code == 200
    ensures forall p :: p in HandleInsert(store, body).posts ==>
      LegacyFollower.HandleReplicate(followerStore, p.body) == LegacyFollower.Stored(followerStore + [HandleInsert(store, body).store[|store|]], 200)
  {
  }

  /** The follower stores after a replicated insert: follower `i` handles its
      request when `reached[i]`, and is unchanged otherwise. */
  function Deliver(stores: seq<seq<Doc>>, posts: seq<Post>, reached: seq<bool>): (r: seq<seq<Doc>>)
    requires |stores| == |posts| == |reached|
    ensures |r| == |stores|
    ensures forall i :: 0 <= i < |r| ==> r[i] == if reached[i] then LegacyFollower.HandleReplicate(stores[i], posts[i].body).store else stores[i]
  {
    seq(|stores|, i requires 0 <= i < |stores| => if reached[i] then LegacyFollower.HandleReplicate(stores[i], posts[i].body).store else stores[i])
  }

  /** A successful insert leaves every reached follower holding its old
      records followed by the leader's new one, and every unreached follower
      as it was. */
  lemma InsertReachesCluster(store: seq<Doc>, body: map<string, Payload>, stores: seq<seq<Doc>>, reached: seq<bool>)
    requires |stores| == |reached| == |FollowerNodes|
    requires HandleInsert(store, body).code == 200
    ensures var after := Deliver(stores, HandleInsert(store, body).posts, reached);
      forall i :: 0 <= i < |stores| ==>
        after[i] == if reached[i] then stores[i] + [HandleInsert(store, body).store[|store|]] else stores[i]
  {
  }

  /** What the leader takes from one follower: the `results` of a 200 reply;
      nothing from an error status or a request that failed (`None`). */
  function FollowerResults(reply: Option<LegacyFollower.Answer>): seq<Doc> {
    if reply.Some? && reply.value.code == 200 then reply.value.results else []
  }

  /** What the leader takes from its own store: nothing when the query
      raises, the exception being caught. */
  function LeaderResults(store: seq<Doc>, query: Payload): seq<Doc> {
    match Select(store, query)
    case Ok(found) => found
    case Raised => []
  }

  /** All results gathered, followers in configuration order and then the
      leader. */
  function Gather(store: seq<Doc>, query: Payload, replies: seq<Option<LegacyFollower.Answer>>): seq<Doc> {
    Flatten(seq(|replies|, i requires 0 <= i < |replies| => FollowerResults(replies[i]))) + LeaderResults(store, query)
  }

  /** `/search`: a body without `query` is answered 400; otherwise every
      record gathered from the followers and the leader, each distinct record
      once. `replies[i]` is follower `i`'s reply, `None` when the request
      failed. */
  function HandleSearch(store: seq<Doc>, body: map<string, Payload>, replies: seq<Option<LegacyFollower.Answer>>): (r: LegacyFollower.Answer)
    requires |replies| == |FollowerNodes|
    ensures r.code == 400 <==> "query" !in body
    ensures r.code in {200, 400}
    ensures r.code == 400 ==> r.results == []
    ensures r.code == 200 ==> Distinct(r.results)
    ensures r.code == 200 ==> forall d :: d in r.results <==>
      || (Select(store, body["query"]).Ok? && d in store && Selected(body["query"], d))
      || exists i :: 0 <= i < |replies| && replies[i].Some? && replies[i].value.code == 200 && d in replies[i].value.results
  {
    if body == map[] || "query" !in body then LegacyFollower.Answer(400, [])
    else
      GatherMembership(store, body["query"], replies);
      LegacyFollower.Answer(200, Dedup(Gather(store, body["query"], replies)))
  }

  /** A record is gathered when the leader's query selected it or an
      answering follower returned it. */
  lemma GatherMembership(store: seq<Doc>, query: Payload, replies: seq<Option<LegacyFollower.Answer>>)
    ensures forall d :: d in Gather(store, query, replies) <==>
      || (Select(store, query).Ok? && d in store && Selected(query, d))
      || exists i :: 0 <= i < |replies| && replies[i].Some? && replies[i].value.code == 200 && d in replies[i].value.results
  {
    var parts := seq(|replies|, i requires 0 <= i < |replies| => FollowerResults(replies[i]));
    forall d ensures d in Flatten(parts) <==>
      exists i :: 0 <= i < |replies| && replies[i].Some? && replies[i].value.code == 200 && d in replies[i].value.results
    {
      FlattenMembership(parts, d);
      if d in Flatten(parts) {
        var i :| 0 <= i < |parts| && d in parts[i];
        assert replies[i].Some? && replies[i].value.code == 200 && d in replies[i].value.results;
      }
      if exists i :: 0 <= i < |replies| && replies[i].Some? && replies[i].value.code == 200 && d in replies[i].value.results {
        var i :| 0 <= i < |replies| && replies[i].Some? && replies[i].value.code == 200 && d in replies[i].value.results;
        assert d in parts[i];
      }
    }
  }

  /** On a fully replicated cluster the answer is the leader's own: whichever
      followers answer, every selected record appears exactly once, and
      nothing else appears. */
  lemma ReplicasCollapse(store: seq<Doc>, body: map<string, Payload>, replies: seq<Option<LegacyFollower.Answer>>)
    requires |replies| == |FollowerNodes|
    requires "query" in body
    requires forall i :: 0 <= i < |replies| ==> replies[i] == None || replies[i] == Some(LegacyFollower.HandleLocalSearch(store, body))
    ensures HandleSearch(store, body, replies).code == 200
    ensures Distinct(HandleSearch(store, body, replies).results)
    ensures forall d :: d in HandleSearch(store, body, replies).results <==>
      Select(store, body["query"]).Ok? && d in store && Selected(body["query"], d)
  {
    var answer := LegacyFollower.HandleLocalSearch(store, body);
    if answer.code == 200 {
      assert forall d :: d in answer.results <==> d in store && Selected(body["query"], d) by {
        forall d ensures d in answer.results <==> d in store && Selected(body["query"], d) {
          assert d in answer.results <==> multiset(answer.results)[d] > 0;
        }
      }
    }
  }

  /** A record as a list of `(field, value)` pairs in its dict's own key
      order. */
  type Items = seq<(string, Value)>

  /** `dict(items)`: later pairs overwrite earlier ones with the same key. */
  function ToDoc(items: Items): Doc {
    if items == [] then map[] else ToDoc(items[..|items| - 1])[items[|items| - 1].0 := items[|items| - 1].1]
  }

  /** The de-duplication as leader.py writes it: records are compared as the
      tuples of their items, so two copies of one record whose keys come in
      different orders both survive. */
  function DedupByItems(gathered: seq<Items>): (r: seq<Doc>)
    ensures forall d :: d in r <==> exists k :: 0 <= k < |gathered| && ToDoc(gathered[k]) == d
    ensures exists u: seq<Items> ::
              && Distinct(u)
              && (forall t :: t in u <==> t in gathered)
              && |r| == |u|
              && (forall k :: 0 <= k < |u| ==> r[k] == ToDoc(u[k]))
  {
    var unique := Dedup(gathered);
    var r := seq(|unique|, k requires 0 <= k < |unique| => ToDoc(unique[k]));
    forall d | d in r ensures exists k :: 0 <= k < |gathered| && ToDoc(gathered[k]) == d {
      var j :| 0 <= j < |r| && r[j] == d;
      assert unique[j] in gathered;
    }
    forall k | 0 <= k < |gathered| ensures ToDoc(gathered[k]) in r {
      assert gathered[k] in unique;
      var j :| 0 <= j < |unique| && unique[j] == gathered[k];
      assert r[j] == ToDoc(gathered[k]);
    }
    assert forall k :: 0 <= k < |unique| ==> r[k] == ToDoc(unique[k]);
    r
  }

  /** Keys in ascending order, the order the followers' JSON replies carry
      them in. */
  predicate KeysAscending(items: Items) {
    forall k :: 0 < k < |items| ==> LexLess(items[k - 1].0, items[k].0)
  }

  /** The first demo record as the leader's store returns it: keys in
      insertion order. */
  const LeaderCopy: Items := [("name", Str("An")), ("age", Int(22)), ("city", Str("Hanoi"))]

  /** The same record as a follower's JSON reply returns it: keys sorted. */
  const FollowerCopy: Items := [("age", Int(22)), ("city", Str("Hanoi")), ("name", Str("An"))]

  /** A record replicated from the demo data, gathered from both followers and
      from the leader: the three copies are one record, yet de-duplication by
      items keeps two of them, while de-duplication by record keeps one. */
  lemma KeyOrderDefeatsDedup()
    ensures KeysAscending(FollowerCopy)
    ensures ToDoc(LeaderCopy) == ToDoc(FollowerCopy)
    ensures DedupByItems([FollowerCopy, FollowerCopy, LeaderCopy]) == [ToDoc(LeaderCopy), ToDoc(LeaderCopy)]
    ensures Dedup([ToDoc(FollowerCopy), ToDoc(FollowerCopy), ToDoc(LeaderCopy)]) == [ToDoc(LeaderCopy)]
  {
    assert LexLess("age", "city") && LexLess("city", "name");
    SameRecord();
    ItemsDedup();
    DocsDedup(ToDoc(LeaderCopy));
  }

  /** The two orderings are different item lists. */
  lemma ItemsDedup()
    ensures Dedup([FollowerCopy, FollowerCopy, LeaderCopy]) == [FollowerCopy, LeaderCopy]
  {
    assert FollowerCopy != LeaderCopy by {
      assert FollowerCopy[0].0 != LeaderCopy[0].0;
    }
    DedupSnoc([FollowerCopy], FollowerCopy);
    DedupSnoc([FollowerCopy, FollowerCopy], LeaderCopy);
    assert [FollowerCopy] + [FollowerCopy] == [FollowerCopy, FollowerCopy];
    assert [FollowerCopy, FollowerCopy] + [LeaderCopy] == [FollowerCopy, FollowerCopy, LeaderCopy];
  }

  lemma DocsDedup(l: Doc)
    ensures Dedup([l, l, l]) == [l]
  {
    DedupSnoc([l], l);
    DedupSnoc([l, l], l);
    assert [l] + [l] == [l, l] && [l, l] + [l] == [l, l, l];
  }

  lemma SameRecord()
    ensures ToDoc(LeaderCopy) == ToDoc(FollowerCopy)
  {
    var name, age, city := ("name", Str("An")), ("age", Int(22)), ("city", Str("Hanoi"));
    ToDocSnoc([], name);
    ToDocSnoc([name], age);
    ToDocSnoc([name, age], city);
    assert [] + [name] == [name] && [name] + [age] == [name, age] && [name, age] + [city] == LeaderCopy;
    ToDocSnoc([], age);
    ToDocSnoc([age], city);
    ToDocSnoc([age, city], name);
    assert [] + [age] == [age] && [age] + [city] == [age, city] && [age, city] + [name] == FollowerCopy;
    assert "name"[0] != "age"[0] && "age"[0] != "city"[0] && "name"[0] != "city"[0];
    UpdatesCommute(ToDoc([]), name.0, name.1, age.0, age.1, city.0, city.1);
  }

  /** Assigning three distinct keys in either order gives the same map. */
  lemma UpdatesCommute(m: Doc, k1: string, v1: Value, k2: string, v2: Value, k3: string, v3: Value)
    requires k1 != k2 && k2 != k3 && k1 != k3
    ensures m[k1 := v1][k2 := v2][k3 := v3] == m[k2 := v2][k3 := v3][k1 := v1]
  {
  }

  lemma ToDocSnoc(items: Items, p: (string, Value))
    ensures ToDoc(items + [p]) == ToDoc(items)[p.0 := p.1]
  {
    assert (items + [p])[..|items|] == items;
  }

  lemma DedupSnoc<T(!new)>(xs: seq<T>, x: T)
    ensures Dedup(xs + [x]) == if x in Dedup(xs) then Dedup(xs) else Dedup(xs) + [x]
  {
    assert (xs + [x])[..|xs|] == xs;
  }
}
