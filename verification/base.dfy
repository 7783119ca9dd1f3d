/** Failure-carrying values shared by every node model.

    Python code in the cluster signals failure by raising; a handler either
    catches the exception and turns it into a fallback value or lets it reach
    the web framework, which answers 500. `Result.Raised` stands for "an
    exception escaped this expression"; the callers decide what it becomes. */
module Base {

  datatype Option<+T> = None | Some(value: T) {
    /** The wrapped value, or `default` when there is none. */
    function GetOr(default: T): T {
      match this
      case Some(v) => v
      case None => default
    }
  }

  datatype Result<+T> = Ok(value: T) | Raised

  /** Concatenation of a sequence of sequences, in order. */
  function Flatten<T>(parts: seq<seq<T>>): seq<T> {
    if parts == [] then [] else Flatten(parts[..|parts| - 1]) + parts[|parts| - 1]
  }

  /** Sum of the lengths of `parts`. */
  function TotalLength<T>(parts: seq<seq<T>>): nat {
    if parts == [] then 0 else TotalLength(parts[..|parts| - 1]) + |parts[|parts| - 1]|
  }

  lemma {:induction false} FlattenLength<T>(parts: seq<seq<T>>)
    ensures |Flatten(parts)| == TotalLength(parts)
  {
    if parts != [] {
      FlattenLength(parts[..|parts| - 1]);
    }
  }

  /** Flattening distributes over concatenation of the outer sequence. */
  lemma {:induction false} FlattenAppend<T>(a: seq<seq<T>>, b: seq<seq<T>>)
    ensures Flatten(a + b) == Flatten(a) + Flatten(b)
    decreases |b|
  {
    if b == [] {
      assert a + b == a;
    } else {
      var b' := b[..|b| - 1];
      assert (a + b)[..|a + b| - 1] == a + b';
      assert (a + b)[|a + b| - 1] == b[|b| - 1];
      FlattenAppend(a, b');
      assert Flatten(a + b) == Flatten(a + b') + b[|b| - 1];
    }
  }

  lemma Associative<T>(x: seq<T>, y: seq<T>, z: seq<T>)
    ensures (x + y) + z == x + (y + z)
  {
  }

  /** Every element of a flattened sequence comes from one of its parts, and
      every element of every part appears in it. */
  lemma {:induction false} FlattenMembership<T>(parts: seq<seq<T>>, x: T)
    ensures x in Flatten(parts) <==> exists i :: 0 <= i < |parts| && x in parts[i]
  {
    if parts != [] {
      var init := parts[..|parts| - 1];
      FlattenMembership(init, x);
      if x in Flatten(parts) && x !in parts[|parts| - 1] {
        var i :| 0 <= i < |init| && x in init[i];
        assert x in parts[i];
      }
      if exists i :: 0 <= i < |parts| && x in parts[i] {
        var i :| 0 <= i < |parts| && x in parts[i];
        if i < |init| {
          assert x in init[i];
        }
      }
    }
  }

  /** No element occurs twice. */
  predicate Distinct<T(==)>(xs: seq<T>) {
    forall i, j :: 0 <= i < j < |xs| ==> xs[i] != xs[j]
  }

  /** `m` after `m[keys[i]] = vals[i]` for each `i` in order: a key that
      occurs more than once keeps the value of its last occurrence. */
  function AssignAll<K(!new), V>(m: map<K, V>, keys: seq<K>, vals: seq<V>): (r: map<K, V>)
    requires |keys| == |vals|
    ensures forall u :: u in r <==> u in m || u in keys
    ensures forall u :: u in m && u !in keys ==> r[u] == m[u]
    ensures forall i :: 0 <= i < |keys| && (forall k :: i < k < |keys| ==> keys[k] != keys[i]) ==> r[keys[i]] == vals[i]
  {
    if keys == [] then m
    else
      var n := |keys| - 1;
      var prev := AssignAll(m, keys[..n], vals[..n]);
      assert keys == keys[..n] + [keys[n]];
      assert forall i :: 0 <= i < n ==> keys[..n][i] == keys[i] && vals[..n][i] == vals[i];
      var r := prev[keys[n] := vals[n]];
      forall i | 0 <= i < |keys| && (forall k :: i < k < |keys| ==> keys[k] != keys[i])
        ensures r[keys[i]] == vals[i]
      {
        if i < n {
          assert keys[n] != keys[i];
          assert forall k :: i < k < n ==> keys[..n][k] != keys[..n][i];
        }
      }
      r
  }

  /** `xs` with every repeated element dropped after its first occurrence. */
  function Dedup<T(==,!new)>(xs: seq<T>): (r: seq<T>)
    ensures Distinct(r)
    ensures forall x :: x in r <==> x in xs
    ensures |r| <= |xs|
  {
    if xs == [] then []
    else
      var init := Dedup(xs[..|xs| - 1]);
      var last := xs[|xs| - 1];
      assert xs == xs[..|xs| - 1] + [last];
      if last in init then init else init + [last]
  }
}
