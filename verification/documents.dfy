/** Schema-less records as the TinyDB stores of every node hold them, and the
    JSON request values the nodes exchange.

    A record is a JSON object whose field values are strings, integers or
    null. A request field that may hold either an object or a single value is
    a `Payload`. */
module Documents {
  import opened Base
  import opened Text

  datatype Value = Null | Int(i: int) | Str(s: string)

  /** One stored record: field name to value. */
  type Doc = map<string, Value>

  datatype Payload = Object(fields: Doc) | Scalar(v: Value)

  /** The field a result record is tagged with to name the node it came from. */
  const SourceNode: string := "source_node"

  /** The identifier field replicated records are keyed by. */
  const IdField: string := "_id"

  /** One request a node sends to another: `requests.post(url, json=body)`. */
  datatype Post = Post(url: string, body: map<string, Payload>)

  /** Python's `body.get(key)`: the value under `key`, `None` when absent. */
  function Get(body: map<string, Payload>, key: string): Option<Payload> {
    if key in body then Some(body[key]) else None
  }

  /** Python truthiness of what `dict.get` returned: absent keys, null, `0`,
      `""` and `{}` are falsy. */
  predicate Truthy(p: Option<Payload>) {
    match p
    case None => false
    case Some(Object(fields)) => fields != map[]
    case Some(Scalar(Null)) => false
    case Some(Scalar(Int(i))) => i != 0
    case Some(Scalar(Str(s))) => s != ""
  }

  /** Lexicographic order of strings by code point, Python's `a < b` on `str`. */
  predicate LexLess(a: string, b: string) {
    if a == [] then b != []
    else b != [] && (a[0] < b[0] || (a[0] == b[0] && LexLess(a[1..], b[1..])))
  }

  /** Python's `a < b` on two values: integers and strings compare within
      their own type; any other pair raises `TypeError`. */
  function Less(a: Value, b: Value): Result<bool> {
    match (a, b)
    case (Int(x), Int(y)) => Ok(x < y)
    case (Str(x), Str(y)) => Ok(LexLess(x, y))
    case _ => Raised
  }

  /** Two values Python can order with `<` and `>`. */
  predicate Comparable(a: Value, b: Value) {
    (a.Int? && b.Int?) || (a.Str? && b.Str?)
  }

  lemma {:induction false} LexTrichotomy(a: string, b: string)
    ensures LexLess(a, b) || a == b || LexLess(b, a)
    ensures !(LexLess(a, b) && LexLess(b, a))
    ensures !LexLess(a, a)
    decreases |a|
  {
    if a != [] {
      LexTrichotomy(a[1..], a[1..]);
      if b != [] {
        LexTrichotomy(a[1..], b[1..]);
        if a[0] == b[0] && a[1..] == b[1..] {
          assert a == [a[0]] + a[1..] && b == [b[0]] + b[1..];
        }
      }
    }
  }

  /** On values Python can order, exactly one of `a < b`, `a == b`, `b < a`
      holds; on any other pair both `<` and `>` raise. */
  lemma LessTrichotomy(a: Value, b: Value)
    ensures Comparable(a, b) <==> Less(a, b).Ok?
    ensures Comparable(a, b) <==> Less(b, a).Ok?
    ensures Comparable(a, b) ==>
      (if Less(a, b).value then a != b && !Less(b, a).value
       else a == b || Less(b, a).value)
    ensures Comparable(a, b) ==> (a == b <==> !Less(a, b).value && !Less(b, a).value)
  {
    if a.Str? && b.Str? {
      LexTrichotomy(a.s, b.s);
    }
  }
}
