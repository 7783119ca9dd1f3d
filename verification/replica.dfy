/** The follower node of the second-generation cluster (nodes/follower.py):
    the three replica-apply handlers, keyed by the `_id` field, and the health
    probe answer.

    Each handler is a pure transition from the follower's store and the
    request body to the store it leaves behind and the HTTP status it answers.
    The store's update and remove are taken to report how many records they
    matched, which is what the handlers' `> 0` tests presume. */
module Replica {
  import opened Base
  import opened Text
  import opened Documents

  datatype Reply = Reply(store: seq<Doc>, code: int)

  /** TinyDB's `User._id == doc_id`: the record has an `_id` equal to the
      requested id (an object never equals a stored field value). */
  predicate HasId(d: Doc, id: Payload) {
    IdField in d && id == Scalar(d[IdField])
  }

  /** Only a string id survives the `doc_id[:8]` in the log line that follows
      the store call; any other id raises there. */
  predicate Sliceable(id: Payload) {
    id.Scalar? && id.v.Str?
  }

  /** How many stored records carry the id. */
  function CountId(store: seq<Doc>, id: Payload): (n: nat)
    ensures n <= |store|
    ensures n == 0 <==> forall k :: 0 <= k < |store| ==> !HasId(store[k], id)
  {
    if store == [] then 0
    else CountId(store[..|store| - 1], id) + (if HasId(store[|store| - 1], id) then 1 else 0)
  }

  /** `d` after Python's `d.update(fields)`: the supplied fields overwrite,
      every other field is kept. */
  predicate MergedFrom(r: Doc, d: Doc, fields: Doc) {
    && r.Keys == d.Keys + fields.Keys
    && (forall k :: k in fields ==> r[k] == fields[k])
    && (forall k :: k in d && k !in fields ==> r[k] == d[k])
  }

  /** TinyDB's `db.update(fields, User._id == id)`. */
  function UpdateWhere(store: seq<Doc>, id: Payload, fields: Doc): (r: seq<Doc>)
    ensures |r| == |store|
    ensures forall k :: 0 <= k < |store| && HasId(store[k], id) ==> MergedFrom(r[k], store[k], fields)
    ensures forall k :: 0 <= k < |store| && !HasId(store[k], id) ==> r[k] == store[k]
    ensures CountId(store, id) == 0 ==> r == store
  {
    seq(|store|, k requires 0 <= k < |store| => if HasId(store[k], id) then store[k] + fields else store[k])
  }

  /** TinyDB's `db.remove(User._id == id)`: the records without that id, in
      their stored order. */
  function RemoveWhere(store: seq<Doc>, id: Payload): (r: seq<Doc>)
    ensures forall d :: d in r <==> d in store && !HasId(d, id)
    ensures forall d :: multiset(r)[d] == if HasId(d, id) then 0 else multiset(store)[d]
    ensures |r| == |store| - CountId(store, id)
    ensures CountId(store, id) == 0 ==> r == store
  {
    if store == [] then []
    else
      var init, d := store[..|store| - 1], store[|store| - 1];
      assert store == init + [d];
      RemoveWhere(init, id) + (if HasId(d, id) then [] else [d])
  }

  /** The kept records stay in stored order: removing from two stretches of
      the store one after the other is removing from the whole store. */
  lemma {:induction false} RemoveWhereAppend(a: seq<Doc>, b: seq<Doc>, id: Payload)
    ensures RemoveWhere(a + b, id) == RemoveWhere(a, id) + RemoveWhere(b, id)
  {
    if b == [] {
      assert a + b == a;
    } else {
      var init, d := b[..|b| - 1], b[|b| - 1];
      assert b == init + [d];
      assert a + b == (a + init) + [d];
      RemoveWhereSnoc(a + init, d, id);
      RemoveWhereSnoc(init, d, id);
      RemoveWhereAppend(a, init, id);
      Associative(RemoveWhere(a, id), RemoveWhere(init, id), if HasId(d, id) then [] else [d]);
    }
  }

  lemma RemoveWhereSnoc(s: seq<Doc>, d: Doc, id: Payload)
    ensures RemoveWhere(s + [d], id) == RemoveWhere(s, id) + (if HasId(d, id) then [] else [d])
  {
    var t := s + [d];
    assert t[..|t| - 1] == s;
  }

  /** `/replicate_insert`: a present, non-empty document object holding an
      `_id` is appended as it is and answered 200; a missing or empty
      document, or one without `_id`, is answered 400. A non-empty string
      document containing "_id" gets past the check and makes the store's
      insert raise, and a non-zero number makes the `in` test raise: 500. */
  function ReplicateInsert(store: seq<Doc>, body: map<string, Payload>): (r: Reply)
    ensures r.code == 200 <==> "document" in body && body["document"].Object? && IdField in body["document"].fields
    ensures r.code == 200 ==> r.store == store + [body["document"].fields]
    ensures r.code != 200 ==> r.store == store
    ensures r.code == 400 <==>
      || !Truthy(Get(body, "document"))
      || (body["document"].Object? && IdField !in body["document"].fields)
      || (body["document"].Scalar? && body["document"].v.Str? && !IsSubstring(IdField, body["document"].v.s))
    ensures r.code in {200, 400, 500}
  {
    var doc := Get(body, "document");
    if !Truthy(doc) then Reply(store, 400)
    else match doc.value
      case Object(fields) => if IdField in fields then Reply(store + [fields], 200) else Reply(store, 400)
      case Scalar(Str(s)) => if IsSubstring(IdField, s) then Reply(store, 500) else Reply(store, 400)
      case Scalar(_) => Reply(store, 500)
  }

  /** `/replicate_update`: merges the supplied fields into every record with
      the requested `_id`. A falsy `_id` or `data` is answered 400 with the
      store untouched; a string id is answered 200 when some record matched
      and 404 (`not_found`) with the store untouched otherwise. A `data` that
      is not an object makes the merge raise on the first match, and a
      non-string id makes the log line raise after the store call: 500. */
  function ReplicateUpdate(store: seq<Doc>, body: map<string, Payload>): (r: Reply)
    ensures !Truthy(Get(body, "_id")) || !Truthy(Get(body, "data")) ==> r == Reply(store, 400)
    ensures r.code == 200 <==>
      && Truthy(Get(body, "_id")) && Sliceable(body["_id"])
      && Truthy(Get(body, "data")) && body["data"].Object?
      && exists k :: 0 <= k < |store| && HasId(store[k], body["_id"])
    ensures r.code == 404 <==>
      && Truthy(Get(body, "_id")) && Sliceable(body["_id"])
      && Truthy(Get(body, "data"))
      && forall k :: 0 <= k < |store| ==> !HasId(store[k], body["_id"])
    ensures r.code != 200 && r.code != 500 ==> r.store == store
    ensures r.code == 200 ==> r.store == UpdateWhere(store, body["_id"], body["data"].fields)
    ensures Truthy(Get(body, "_id")) && Truthy(Get(body, "data")) ==>
      r.store == if body["data"].Object? then UpdateWhere(store, body["_id"], body["data"].fields) else store
    ensures r.code in {200, 400, 404, 500}
  {
    var id := Get(body, "_id");
    var data := Get(body, "data");
    if !Truthy(id) || !Truthy(data) then Reply(store, 400)
    else
      var matched := CountId(store, id.value);
      match data.value
      case Scalar(_) =>
        if matched > 0 then Reply(store, 500)
        else if Sliceable(id.value) then Reply(store, 404)
        else Reply(store, 500)
      case Object(fields) =>
        var store' := UpdateWhere(store, id.value, fields);
        if !Sliceable(id.value) then Reply(store', 500)
        else if matched > 0 then Reply(store', 200)
        else Reply(store', 404)
  }

  /** `/replicate_delete`: removes exactly the records with the requested
      `_id`. A falsy `_id` is answered 400; a string id is answered 200 when
      at least one record was removed and 404 with the store untouched
      otherwise; a non-string id makes the log line raise after the removal:
      500. */
  function ReplicateDelete(store: seq<Doc>, body: map<string, Payload>): (r: Reply)
    ensures !Truthy(Get(body, "_id")) ==> r == Reply(store, 400)
    ensures Truthy(Get(body, "_id")) ==> r.store == RemoveWhere(store, body["_id"])
    ensures r.code == 200 <==>
      Truthy(Get(body, "_id")) && Sliceable(body["_id"]) && exists k :: 0 <= k < |store| && HasId(store[k], body["_id"])
    ensures r.code == 404 <==>
      Truthy(Get(body, "_id")) && Sliceable(body["_id"]) && forall k :: 0 <= k < |store| ==> !HasId(store[k], body["_id"])
    ensures r.code == 404 ==> r.store == store
    ensures r.code in {200, 400, 404, 500}
  {
    var id := Get(body, "_id");
    if !Truthy(id) then Reply(store, 400)
    else
      var store' := RemoveWhere(store, id.value);
      var removed := |store| - |store'|;
      assert removed == CountId(store, id.value);
      if !Sliceable(id.value) then Reply(store', 500)
      else if removed > 0 then Reply(store', 200)
      else Reply(store', 404)
  }

  datatype Health = Health(code: int, status: string)

  /** `/health`: always answered 200 with status "ok"; it reads no state. */
  function HealthCheck(): (r: Health)
    ensures r.code == 200 && r.status == "ok"
  {
    Health(200, "ok")
  }

  /** Replaying a replicated update changes nothing further: merging the
      same fields into the same records a second time is a no-op, and records
      that did not match the first time still do not. */
  lemma UpdateIdempotent(store: seq<Doc>, body: map<string, Payload>)
    ensures ReplicateUpdate(ReplicateUpdate(store, body).store, body).store == ReplicateUpdate(store, body).store
  {
    var id := Get(body, "_id");
    var data := Get(body, "data");
    if Truthy(id) && Truthy(data) && data.value.Object? {
      UpdateWhereTwice(store, id.value, data.value.fields);
    }
  }

  lemma UpdateWhereTwice(store: seq<Doc>, id: Payload, fields: Doc)
    ensures UpdateWhere(UpdateWhere(store, id, fields), id, fields) == UpdateWhere(store, id, fields)
  {
    var once := UpdateWhere(store, id, fields);
    var twice := UpdateWhere(once, id, fields);
    forall k | 0 <= k < |store| ensures twice[k] == once[k] {
      if HasId(store[k], id) && HasId(once[k], id) {
        MergeTwice(twice[k], once[k], store[k], fields);
      }
    }
  }

  /** Merging the same fields twice is merging them once. */
  lemma MergeTwice(r: Doc, once: Doc, d: Doc, fields: Doc)
    requires MergedFrom(r, once, fields) && MergedFrom(once, d, fields)
    ensures r == once
  {
    assert r.Keys == once.Keys;
    forall k | k in r ensures r[k] == once[k] {
      if k !in fields {
        assert r[k] == once[k];
      }
    }
  }

  /** Replaying a replicated delete with a string id is harmless: the second
      call finds nothing, answers 404 and leaves the store as the first call
      left it. */
  lemma DeleteIdempotent(store: seq<Doc>, body: map<string, Payload>)
    requires Truthy(Get(body, "_id")) && Sliceable(body["_id"])
    ensures ReplicateDelete(ReplicateDelete(store, body).store, body) == Reply(ReplicateDelete(store, body).store, 404)
  {
    var once := ReplicateDelete(store, body).store;
    assert forall k :: 0 <= k < |once| ==> once[k] in once;
  }

  /** Deleting the id of a freshly replicated insert undoes it: the store is
      back to what it was and the delete is answered 200. */
  lemma InsertThenDeleteRestores(store: seq<Doc>, doc: Doc)
    requires IdField in doc && doc[IdField].Str? && doc[IdField].s != ""
    requires forall k :: 0 <= k < |store| ==> !HasId(store[k], Scalar(doc[IdField]))
    ensures var inserted := ReplicateInsert(store, map["document" := Object(doc)]);
      && inserted.code == 200
      && ReplicateDelete(inserted.store, map[IdField := Scalar(doc[IdField])]) == Reply(store, 200)
  {
    var id := Scalar(doc[IdField]);
    var grown := store + [doc];
    assert HasId(grown[|store|], id);
    assert grown[..|store|] == store;
    assert CountId(store, id) == 0;
  }
}
