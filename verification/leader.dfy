/** The leader node of the second-generation cluster (nodes/leader.py): the
    names it gives the nodes, the insert route and the scatter-gather search
    route.

    The leader queries every configured follower unconditionally; a
    follower's reply is an input here, `None` standing for a non-200 answer,
    a transport error or a timeout. Replication after an insert is one
    fire-and-forget POST to `<url>/replicate` per follower URL; its outcome
    is never looked at. */
module Leader {
  import opened Base
  import opened Text
  import opened Documents
  import opened Search
  import SearchProperties

  /** What the node is started with: its own port and the follower URLs, in
      configuration order. */
  datatype Config = Config(port: int, followers: seq<string>)

  function LeaderName(port: int): string {
    "Leader (" + IntToString(port) + ")"
  }

  function LeaderUrl(port: int): string {
    "http://127.0.0.1:" + IntToString(port)
  }

  /** The name of the follower at index `i`, numbered from 1, with the text
      after the last colon of its URL as the port. */
  function FollowerName(i: nat, url: string): string {
    "Follower " + NatToString(i + 1) + " (" + AfterLastColon(url) + ")"
  }

  /** The follower names in configuration order. */
  function FollowerNames(urls: seq<string>): (names: seq<string>)
    ensures |names| == |urls|
    ensures forall i :: 0 <= i < |urls| ==> names[i] == FollowerName(i, urls[i])
  {
    seq(|urls|, i requires 0 <= i < |urls| => FollowerName(i, urls[i]))
  }

  /** `NODE_MAP`: the leader's own URL entered first, then each follower URL
      in order, so a repeated URL keeps the name of its last occurrence. */
  function NodeMap(cfg: Config): (m: map<string, string>)
    ensures forall u :: u in m <==> u == LeaderUrl(cfg.port) || u in cfg.followers
    ensures forall i :: 0 <= i < |cfg.followers| && (forall k :: i < k < |cfg.followers| ==> cfg.followers[k] != cfg.followers[i]) ==>
      m[cfg.followers[i]] == FollowerName(i, cfg.followers[i])
    ensures LeaderUrl(cfg.port) !in cfg.followers ==> m[LeaderUrl(cfg.port)] == LeaderName(cfg.port)
  {
    AssignAll(map[LeaderUrl(cfg.port) := LeaderName(cfg.port)], cfg.followers, FollowerNames(cfg.followers))
  }

  /** With distinct follower URLs none of which is the leader's own, every
      node is named after its own position. */
  lemma NodeMapNames(cfg: Config)
    requires Distinct(cfg.followers)
    ensures LeaderUrl(cfg.port) !in cfg.followers ==> NodeMap(cfg)[LeaderUrl(cfg.port)] == LeaderName(cfg.port)
    ensures forall i :: 0 <= i < |cfg.followers| ==> NodeMap(cfg)[cfg.followers[i]] == FollowerName(i, cfg.followers[i])
  {
  }

  /** Two followers at different positions never share a name, and no
      follower is named like the leader. */
  lemma FollowerNamesDistinct(i: nat, j: nat, u: string, v: string, port: int)
    ensures i != j ==> FollowerName(i, u) != FollowerName(j, v)
    ensures FollowerName(i, u) != LeaderName(port)
  {
    FollowerNotLeader(i, u, port);
    FollowerNumberRead(i, j, u, v);
    if NatToString(i + 1) == NatToString(j + 1) {
      NatToStringInjective(i + 1, j + 1);
    }
  }

  lemma FollowerNotLeader(i: nat, u: string, port: int)
    ensures FollowerName(i, u) != LeaderName(port)
  {
    FollowerNameLayout(i, u);
    assert LeaderName(port)[0] == 'L';
  }

  /** Equal follower names carry the same number. */
  lemma FollowerNumberRead(i: nat, j: nat, u: string, v: string)
    ensures FollowerName(i, u) == FollowerName(j, v) ==> NatToString(i + 1) == NatToString(j + 1)
  {
    FollowerNameLayout(i, u);
    FollowerNameLayout(j, v);
    SameDigitRunIf(NatToString(i + 1), NatToString(j + 1), FollowerName(i, u), FollowerName(j, v), 9);
  }

  /** Where the number sits in a follower name: after the nine characters
      of "Follower ", and followed by a space. */
  lemma FollowerNameLayout(i: nat, u: string)
    ensures var n, a := FollowerName(i, u), NatToString(i + 1);
      && n[0] == 'F' && 9 + |a| < |n|
      && (forall j :: 9 <= j < 9 + |a| ==> n[j] == a[j - 9])
      && n[9 + |a|] == ' '
  {
    NumberAfter("Follower ", NatToString(i + 1), AfterLastColon(u));
  }

  lemma NumberAfter(head: string, a: string, port: string)
    requires |head| == 9
    ensures var n := head + a + " (" + port + ")";
      && n[0] == head[0] && 9 + |a| < |n|
      && (forall j :: 9 <= j < 9 + |a| ==> n[j] == a[j - 9])
      && n[9 + |a|] == ' '
  {
  }

  /** Two runs of digits read from the same offset of `s`, each followed by
      a space, are the same run. */
  lemma SameDigitRun(a: string, b: string, s: string, off: nat)
    requires forall k :: 0 <= k < |a| ==> IsDigit(a[k])
    requires forall k :: 0 <= k < |b| ==> IsDigit(b[k])
    requires off + |a| < |s| && off + |b| < |s|
    requires forall j :: off <= j < off + |a| ==> s[j] == a[j - off]
    requires forall j :: off <= j < off + |b| ==> s[j] == b[j - off]
    requires s[off + |a|] == ' ' && s[off + |b|] == ' '
    ensures a == b
  {
    assert |a| == |b|;
    forall k | 0 <= k < |a| ensures a[k] == b[k] {
      assert s[off + k] == a[k];
    }
  }

  lemma SameDigitRunIf(a: string, b: string, s: string, t: string, off: nat)
    requires forall k :: 0 <= k < |a| ==> IsDigit(a[k])
    requires forall k :: 0 <= k < |b| ==> IsDigit(b[k])
    requires off + |a| < |s| && off + |b| < |t|
    requires forall j :: off <= j < off + |a| ==> s[j] == a[j - off]
    requires forall j :: off <= j < off + |b| ==> t[j] == b[j - off]
    requires s[off + |a|] == ' ' && t[off + |b|] == ' '
    ensures s == t ==> a == b
  {
    if s == t {
      SameDigitRun(a, b, s, off);
    }
  }

  /** Each record with its `source_node` field set to `name`, in order. */
  function Tag(docs: seq<Doc>, name: string): (r: seq<Doc>)
    ensures |r| == |docs|
    ensures forall k :: 0 <= k < |r| ==>
      && SourceNode in r[k] && r[k][SourceNode] == Str(name)
      && r[k] - {SourceNode} == docs[k] - {SourceNode}
  {
    seq(|docs|, k requires 0 <= k < |docs| => docs[k][SourceNode := Str(name)])
  }

  /** `request.form.get(key, '')`. */
  function FormValue(form: map<string, string>, key: string): string {
    if key in form then form[key] else ""
  }

  /** The search payload: the three raw form values, unstripped. */
  function SearchPayload(form: map<string, string>): map<string, Value> {
    map["name" := Str(FormValue(form, "name")), "age" := Str(FormValue(form, "age")), "city" := Str(FormValue(form, "city"))]
  }

  /** The validation at the top of the route looks at the raw values. */
  predicate NoCriteriaGiven(form: map<string, string>) {
    FormValue(form, "name") == "" && FormValue(form, "age") == "" && FormValue(form, "city") == ""
  }

  /** Each follower's reply tagged with that follower's name; a failed
      reply contributes no records. */
  function Parts(names: seq<string>, replies: seq<Option<seq<Doc>>>): (parts: seq<seq<Doc>>)
    requires |names| == |replies|
    ensures |parts| == |replies|
    ensures forall i :: 0 <= i < |parts| ==> parts[i] == Tag(replies[i].GetOr([]), names[i])
  {
    seq(|replies|, i requires 0 <= i < |replies| => Tag(replies[i].GetOr([]), names[i]))
  }

  /** The merged answer: the leader's own records tagged with its name, then
      each follower's part in configuration order. */
  function Merge(leader: string, local: seq<Doc>, names: seq<string>, replies: seq<Option<seq<Doc>>>): seq<Doc>
    requires |names| == |replies|
  {
    Tag(local, leader) + Flatten(Parts(names, replies))
  }

  /** The name each follower's records are tagged with: its `NODE_MAP` entry. */
  function FollowerTags(cfg: Config): (names: seq<string>)
    ensures |names| == |cfg.followers|
    ensures forall i :: 0 <= i < |names| ==> names[i] == NodeMap(cfg)[cfg.followers[i]]
  {
    seq(|cfg.followers|, i requires 0 <= i < |cfg.followers| => NodeMap(cfg)[cfg.followers[i]])
  }

  datatype SearchOutcome = Found(total: nat) | NoCriteria

  /** The search page: the merged records, the message, and the follower URLs
      a `/local_search` request was submitted to. */
  datatype SearchPage = SearchPage(results: seq<Doc>, outcome: SearchOutcome, fetched: seq<string>)

  /** The `/search` route: rejected before any request leaves the leader when
      all three raw form values are empty; otherwise the leader's own matches
      tagged with its name, followed by each follower's reply in configuration
      order tagged with that follower's name. */
  function SearchRoute(cfg: Config, store: seq<Doc>, form: map<string, string>, replies: seq<Option<seq<Doc>>>): (p: SearchPage)
    requires |replies| == |cfg.followers|
    ensures p.outcome == NoCriteria <==> NoCriteriaGiven(form)
    ensures p.outcome == NoCriteria ==> p.results == [] && p.fetched == []
    ensures p.outcome.Found? ==> p.fetched == cfg.followers && p.outcome.total == |p.results|
    ensures p.outcome.Found? ==>
      p.results == Merge(LeaderName(cfg.port), PerformSearch(store, SearchPayload(form)), FollowerTags(cfg), replies)
  {
    if NoCriteriaGiven(form) then SearchPage([], NoCriteria, [])
    else
      var all := Merge(LeaderName(cfg.port), PerformSearch(store, SearchPayload(form)), FollowerTags(cfg), replies);
      SearchPage(all, Found(|all|), cfg.followers)
  }

  /** The records the followers returned, a failed reply counting as none. */
  function Returned(replies: seq<Option<seq<Doc>>>): (raw: seq<seq<Doc>>)
    ensures |raw| == |replies|
    ensures forall i :: 0 <= i < |raw| ==> raw[i] == replies[i].GetOr([])
  {
    seq(|replies|, i requires 0 <= i < |replies| => replies[i].GetOr([]))
  }

  /** The merged answer holds exactly as many records as the leader found
      plus the followers returned: tagging neither drops nor adds records. */
  lemma MergeLength(leader: string, local: seq<Doc>, names: seq<string>, replies: seq<Option<seq<Doc>>>)
    requires |names| == |replies|
    ensures |Merge(leader, local, names, replies)| == |local| + TotalLength(Returned(replies))
  {
    FlattenLength(Parts(names, replies));
    SameLengths(Parts(names, replies), Returned(replies));
  }

  lemma {:induction false} SameLengths<T>(a: seq<seq<T>>, b: seq<seq<T>>)
    requires |a| == |b| && forall i :: 0 <= i < |a| ==> |a[i]| == |b[i]|
    ensures TotalLength(a) == TotalLength(b)
  {
    if a != [] {
      SameLengths(a[..|a| - 1], b[..|b| - 1]);
    }
  }

  /** A follower whose request failed contributes nothing and disturbs no one
      else: the merged answer is the one with that follower's records cut out,
      every other node's records in place and in order. */
  lemma ReplyIsolated(leader: string, local: seq<Doc>, names: seq<string>, replies: seq<Option<seq<Doc>>>, i: nat)
    requires |names| == |replies| && i < |replies|
    ensures var parts := Parts(names, replies);
      var before := Tag(local, leader) + Flatten(parts[..i]);
      var after := Flatten(parts[i + 1..]);
      && Merge(leader, local, names, replies) == before + parts[i] + after
      && Merge(leader, local, names, replies[i := None]) == before + after
  {
    var parts, parts' := Parts(names, replies), Parts(names, replies[i := None]);
    var tagged, pre, post := Tag(local, leader), Flatten(parts[..i]), Flatten(parts[i + 1..]);
    FlattenAround(parts, i);
    Regroup(tagged, pre, parts[i], post);
    PartsWithout(names, replies, i);
    FlattenAround(parts', i);
    Regroup(tagged, pre, [], post);
    assert tagged + pre + [] == tagged + pre;
  }

  lemma Regroup<T>(a: seq<T>, b: seq<T>, c: seq<T>, d: seq<T>)
    ensures a + (b + c + d) == a + b + c + d
  {
  }

  /** Replacing one reply by a failure empties that follower's part only. */
  lemma PartsWithout(names: seq<string>, replies: seq<Option<seq<Doc>>>, i: nat)
    requires |names| == |replies| && i < |replies|
    ensures var parts, parts' := Parts(names, replies), Parts(names, replies[i := None]);
      parts'[..i] == parts[..i] && parts'[i] == [] && parts'[i + 1..] == parts[i + 1..]
  {
    var parts, parts' := Parts(names, replies), Parts(names, replies[i := None]);
    assert |parts'[i]| == 0;
    assert parts'[..i] == parts[..i] by {
      forall k | 0 <= k < i ensures parts'[k] == parts[k] {
        assert replies[i := None][k] == replies[k];
      }
    }
    assert parts'[i + 1..] == parts[i + 1..] by {
      forall k | i < k < |parts| ensures parts'[k] == parts[k] {
        assert replies[i := None][k] == replies[k];
      }
    }
  }

  /** Flattening around one part: what precedes it, the part, what follows. */
  lemma FlattenAround<T>(parts: seq<seq<T>>, i: nat)
    requires i < |parts|
    ensures Flatten(parts) == Flatten(parts[..i]) + parts[i] + Flatten(parts[i + 1..])
  {
    var pre, one, post := parts[..i], [parts[i]], parts[i + 1..];
    SplitAt(parts, i);
    FlattenAppend(pre + one, post);
    FlattenAppend(pre, one);
    FlattenSingle(parts[i]);
  }

  lemma SplitAt<T>(s: seq<T>, i: nat)
    requires i < |s|
    ensures s == (s[..i] + [s[i]]) + s[i + 1..]
  {
  }

  lemma FlattenSingle<T>(x: seq<T>)
    ensures Flatten([x]) == x
  {
    assert [x][..0] == [];
  }

  /** `d` is one of `docs` with its `source_node` field set to `name`. */
  predicate Retagged(d: Doc, docs: seq<Doc>, name: string) {
    SourceNode in d && d[SourceNode] == Str(name) && exists e :: e in docs && d - {SourceNode} == e - {SourceNode}
  }

  /** Every merged record is tagged with the leader's name or with the name of
      a follower that answered, and with the tag removed it is a record the
      leader found or one that follower returned. */
  lemma MergeOrigin(leader: string, local: seq<Doc>, names: seq<string>, replies: seq<Option<seq<Doc>>>, d: Doc)
    requires |names| == |replies|
    requires d in Merge(leader, local, names, replies)
    ensures
      || Retagged(d, local, leader)
      || exists i :: 0 <= i < |replies| && replies[i].Some? && Retagged(d, replies[i].value, names[i])
  {
    var parts := Parts(names, replies);
    if d in Tag(local, leader) {
      var k :| 0 <= k < |local| && Tag(local, leader)[k] == d;
      assert local[k] in local;
    } else {
      FlattenMembership(parts, d);
      var i :| 0 <= i < |parts| && d in parts[i];
      var raw := replies[i].GetOr([]);
      var k :| 0 <= k < |raw| && parts[i][k] == d;
      assert raw[k] in raw;
    }
  }

  /** Conversely, every record the leader found and every record an answering
      follower returned appears in the merged answer, tagged with its node's
      name. */
  lemma MergeComplete(leader: string, local: seq<Doc>, names: seq<string>, replies: seq<Option<seq<Doc>>>)
    requires |names| == |replies|
    ensures forall k :: 0 <= k < |local| ==> local[k][SourceNode := Str(leader)] in Merge(leader, local, names, replies)
    ensures forall i, k :: 0 <= i < |replies| && replies[i].Some? && 0 <= k < |replies[i].value| ==>
      replies[i].value[k][SourceNode := Str(names[i])] in Merge(leader, local, names, replies)
  {
    var parts := Parts(names, replies);
    var tagged := Tag(local, leader);
    forall k | 0 <= k < |local| ensures local[k][SourceNode := Str(leader)] in Merge(leader, local, names, replies) {
      assert tagged[k] == local[k][SourceNode := Str(leader)];
    }
    forall i, k | 0 <= i < |replies| && replies[i].Some? && 0 <= k < |replies[i].value|
      ensures replies[i].value[k][SourceNode := Str(names[i])] in Merge(leader, local, names, replies)
    {
      assert parts[i][k] == replies[i].value[k][SourceNode := Str(names[i])];
      FlattenMembership(parts, parts[i][k]);
    }
  }

  /** Validation looks at the raw form values but the search strips them: a
      query of whitespace passes validation and is sent to every follower,
      while the leader's own part of the answer is empty. */
  lemma WhitespaceQueryPassesValidation(cfg: Config, store: seq<Doc>, form: map<string, string>, replies: seq<Option<seq<Doc>>>)
    requires |replies| == |cfg.followers|
    requires !NoCriteriaGiven(form)
    requires AllSpace(FormValue(form, "name")) && AllSpace(FormValue(form, "age")) && AllSpace(FormValue(form, "city"))
    ensures SearchRoute(cfg, store, form, replies).fetched == cfg.followers
    ensures SearchRoute(cfg, store, form, replies).results == Flatten(Parts(FollowerTags(cfg), replies))
  {
    SearchProperties.BlankQueryFindsNothing(store, SearchPayload(form));
  }

  /** `broadcast_replication(doc)`: one POST to `<url>/replicate` per
      follower URL, in configuration order, whatever becomes of the others. */
  function Broadcast(followers: seq<string>, doc: Doc): (posts: seq<Post>)
    ensures |posts| == |followers|
    ensures forall i :: 0 <= i < |posts| ==> posts[i].url == followers[i] + "/replicate" && posts[i].body == map["document" := Object(doc)]
  {
    seq(|followers|, i requires 0 <= i < |followers| => Post(followers[i] + "/replicate", map["document" := Object(doc)]))
  }

  /** The insert page: the leader's store afterwards, the replication
      requests sent, and whether the success message was shown. */
  datatype InsertPage = InsertPage(store: seq<Doc>, posts: seq<Post>, ok: bool)

  /** The `/insert` route: reads `name`, `age` (through `int()`) and `city`
      from the form; any missing field or an age that is not an integer
      ends with an error message, nothing stored and nothing sent. Otherwise
      the record, which carries no `_id`, is stored first and then broadcast. */
  function Insert(cfg: Config, store: seq<Doc>, form: map<string, string>): (p: InsertPage)
    ensures p.ok <==> "name" in form && "age" in form && "city" in form && ParseInt(form["age"]).Some?
    ensures !p.ok ==> p.store == store && p.posts == []
    ensures p.ok ==>
      && |p.store| == |store| + 1 && p.store[..|store|] == store
      && p.store[|store|] == map["name" := Str(form["name"]), "age" := Int(ParseInt(form["age"]).value), "city" := Str(form["city"])]
      && IdField !in p.store[|store|]
      && p.posts == Broadcast(cfg.followers, p.store[|store|])
  {
    if "name" !in form || "age" !in form || ParseInt(form["age"]).None? || "city" !in form then
      InsertPage(store, [], false)
    else
      var doc := map["name" := Str(form["name"]), "age" := Int(ParseInt(form["age"]).value), "city" := Str(form["city"])];
      InsertPage(store + [doc], Broadcast(cfg.followers, doc), true)
  }

  /** An age text led by an information separator is refused by `int()`,
      so the insert page stores and sends nothing. */
  lemma SeparatorAgeRefused(cfg: Config, store: seq<Doc>, name: string, city: string)
    ensures var p := Insert(cfg, store, map["name" := name, "age" := "\U{1C}30", "city" := city]);
      !p.ok && p.store == store && p.posts == []
  {
    IntRejectsSeparators();
  }

  /** A record the insert page stored is found again by searching the
      leader's store for the age text it was inserted with. */
  lemma InsertedFoundByAge(cfg: Config, store: seq<Doc>, form: map<string, string>)
    requires Insert(cfg, store, form).ok
    ensures var p := Insert(cfg, store, form);
      p.store[|store|] in PerformSearch(p.store, map["age" := Str(form["age"])])
  {
    var p := Insert(cfg, store, form);
    var data := map["age" := Str(form["age"])];
    var n := ParseInt(form["age"]).value;
    ParseIntIgnoresStrip(form["age"]);
    assert Search.Field(data, "age") == Ok(Strip(form["age"]));
    SearchProperties.AgeSearch(p.store, data, Strip(form["age"]), n);
  }
}
