/**
 * The JavaScript `Map` used as the exit registry: an insertion-ordered table.
 * Keys are registration tokens; `Symbol()` is modelled by a natural number
 * drawn from a counter, which gives the same uniqueness. The table is a
 * sequence of bindings in insertion order with pairwise distinct keys.
 */
module InsertionOrderedMap {

  type Key = nat

  datatype Binding<V> = Binding(key: Key, value: V)

  /** The keys present in the table. */
  function Keys<V>(s: seq<Binding<V>>): set<Key>
  {
    set i | 0 <= i < |s| :: s[i].key
  }

  /** The representation invariant of a `Map`: no key is bound twice. */
  predicate DistinctKeys<V>(s: seq<Binding<V>>)
  {
    forall i, j :: 0 <= i < j < |s| ==> s[i].key != s[j].key
  }

  /** A key present in a table whose first binding has another key is present in its tail. */
  lemma KeyInTail<V>(s: seq<Binding<V>>, k: Key)
    requires k in Keys(s) && s[0].key != k
    ensures k in Keys(s[1..])
  {
  }

  /** Keys of a table built from a first binding and a rest, and when its
      keys are distinct. */
  lemma KeysCons<V>(b: Binding<V>, s: seq<Binding<V>>)
    ensures Keys([b] + s) == {b.key} + Keys(s)
    ensures DistinctKeys([b] + s) <==> b.key !in Keys(s) && DistinctKeys(s)
  {
    var t := [b] + s;
    forall k | k in Keys(s) ensures k in Keys(t) {
      var i :| 0 <= i < |s| && s[i].key == k;
      assert t[i + 1].key == k;
    }
    assert t[0].key == b.key;
    assert t[1..] == s;
  }

  /** A key above every key of the table is not one of its keys. */
  lemma KeysBelow<V>(s: seq<Binding<V>>, n: Key)
    requires forall i :: 0 <= i < |s| ==> s[i].key < n
    ensures forall k :: k in Keys(s) ==> k < n
  {
  }

  /** Appending a binding under a key not yet present keeps the keys distinct. */
  lemma AppendFreshKey<V>(s: seq<Binding<V>>, b: Binding<V>)
    requires DistinctKeys(s) && b.key !in Keys(s)
    ensures DistinctKeys(s + [b]) && Keys(s + [b]) == Keys(s) + {b.key}
  {
    var t := s + [b];
    assert t[|s|].key == b.key;
    forall k | k in Keys(s) ensures k in Keys(t) {
      var i :| 0 <= i < |s| && s[i].key == k;
      assert t[i].key == k;
    }
  }

  /** The position of the binding for `k`. */
  function IndexOf<V>(s: seq<Binding<V>>, k: Key): (i: nat)
    requires k in Keys(s)
    ensures i < |s| && s[i].key == k
    ensures forall j :: 0 <= j < i ==> s[j].key != k
  {
    if s[0].key == k then 0 else KeyInTail(s, k); IndexOf(s[1..], k) + 1
  }

  /** `Map.prototype.set`: a new key is appended at the end of the insertion
      order; an existing key keeps its position and gets the new value. */
  function Set<V>(s: seq<Binding<V>>, b: Binding<V>): (r: seq<Binding<V>>)
    requires DistinctKeys(s)
    ensures DistinctKeys(r)
    ensures Keys(r) == Keys(s) + {b.key}
    ensures b.key !in Keys(s) ==> r == s + [b]
    ensures b.key in Keys(s) ==> r == s[IndexOf(s, b.key) := b]
  {
    if s == [] then
      KeysCons(b, []);
      assert [b] + [] == [b];
      [b]
    else
      var t := s[1..];
      assert s == [s[0]] + t;
      KeysCons(s[0], t);
      if s[0].key == b.key then
        KeysCons(b, t);
        [b] + t
      else
        var rest := Set(t, b);
        KeysCons(s[0], rest);
        assert b.key in Keys(s) ==> [s[0]] + rest == s[IndexOf(s, b.key) := b];
        assert b.key !in Keys(s) ==> [s[0]] + rest == s + [b];
        [s[0]] + rest
  }

  /** `Map.prototype.delete`: removes the binding for `k`, if any; an absent
      key leaves the table as it is. `DeleteSplice` says where the others end up. */
  function Delete<V>(s: seq<Binding<V>>, k: Key): (r: seq<Binding<V>>)
    requires DistinctKeys(s)
    ensures DistinctKeys(r)
    ensures Keys(r) == Keys(s) - {k}
    ensures k !in Keys(s) ==> r == s
  {
    if s == [] then s
    else
      var t := s[1..];
      assert s == [s[0]] + t;
      KeysCons(s[0], t);
      if s[0].key == k then t
      else
        var rest := Delete(t, k);
        KeysCons(s[0], rest);
        [s[0]] + rest
  }

  /** Deleting a present key takes out exactly its binding: the table becomes
      the bindings before it followed by the bindings after it, so every other
      binding keeps its place in the insertion order. */
  lemma {:induction false} DeleteSplice<V>(s: seq<Binding<V>>, k: Key)
    requires DistinctKeys(s) && k in Keys(s)
    ensures Delete(s, k) == s[..IndexOf(s, k)] + s[IndexOf(s, k) + 1..]
  {
    var t := s[1..];
    assert s == [s[0]] + t;
    KeysCons(s[0], t);
    if s[0].key != k {
      DeleteSplice(t, k);
      var j := IndexOf(t, k);
      assert [s[0]] + (t[..j] + t[j + 1..]) == s[..j + 1] + s[j + 2..];
    }
  }

  /** After `Delete(s, k)` the table holds exactly the bindings of `s` whose
      key is not `k`. */
  lemma DeleteKeepsOtherBindings<V>(s: seq<Binding<V>>, k: Key)
    requires DistinctKeys(s)
    ensures forall i :: 0 <= i < |Delete(s, k)| ==> Delete(s, k)[i] in s && Delete(s, k)[i].key != k
    ensures forall i :: 0 <= i < |s| && s[i].key != k ==> s[i] in Delete(s, k)
  {
    if k in Keys(s) {
      DeleteSplice(s, k);
    }
  }

  /** Inserting a fresh key and deleting it again gives back the table. */
  lemma DeleteUndoesFreshSet<V>(s: seq<Binding<V>>, b: Binding<V>)
    requires DistinctKeys(s) && b.key !in Keys(s)
    ensures Delete(Set(s, b), b.key) == s
  {
    AppendFreshKey(s, b);
    DeleteSplice(s + [b], b.key);
    assert IndexOf(s + [b], b.key) == |s|;
  }

  /** Deleting a binding that was appended after `s` and before `u` leaves
      `s` followed by `u`: whatever was inserted later keeps its place. */
  lemma DeleteInsideKeepsNeighbours<V>(s: seq<Binding<V>>, b: Binding<V>, u: seq<Binding<V>>)
    requires DistinctKeys(s + [b] + u)
    ensures Delete(s + [b] + u, b.key) == s + u
  {
    var t := s + [b] + u;
    assert t[|s|].key == b.key;
    var i := IndexOf(t, b.key);
    assert i == |s|;
    DeleteSplice(t, b.key);
    assert t[..i] == s;
    assert t[i + 1..] == u;
  }

  /** The keys grow along the insertion order: a table whose keys were drawn
      from a counter and never re-inserted. */
  predicate KeysIncreasing<V>(s: seq<Binding<V>>)
  {
    forall i, j :: 0 <= i < j < |s| ==> s[i].key < s[j].key
  }

  /** Appending a binding whose key is above every key keeps the keys growing. */
  lemma AppendAboveKeepsIncreasing<V>(s: seq<Binding<V>>, b: Binding<V>)
    requires KeysIncreasing(s) && forall i :: 0 <= i < |s| ==> s[i].key < b.key
    ensures KeysIncreasing(s + [b])
  {
    var t := s + [b];
    forall i, j | 0 <= i < j < |t| ensures t[i].key < t[j].key {
      assert t[i] == s[i];
      if j < |s| {
        assert t[j] == s[j];
      }
    }
  }

  /** Deleting a key keeps the remaining keys growing along the insertion order. */
  lemma DeleteKeepsIncreasing<V>(s: seq<Binding<V>>, k: Key)
    requires DistinctKeys(s) && KeysIncreasing(s)
    ensures KeysIncreasing(Delete(s, k))
  {
    if k in Keys(s) {
      DeleteSplice(s, k);
      var n := IndexOf(s, k);
      var r := Delete(s, k);
      forall i, j | 0 <= i < j < |r| ensures r[i].key < r[j].key {
        var i' := if i < n then i else i + 1;
        var j' := if j < n then j else j + 1;
        assert r[i] == s[i'] && r[j] == s[j'];
      }
    }
  }

  /** Two deletions commute: in-flight invocations may reach their `finally`
      in any order and leave the same registry. */
  lemma {:induction false} DeleteCommutes<V>(s: seq<Binding<V>>, a: Key, c: Key)
    requires DistinctKeys(s)
    ensures Delete(Delete(s, a), c) == Delete(Delete(s, c), a)
  {
    if s == [] || a == c {
    } else if s[0].key == a || s[0].key == c {
    } else {
      DeleteCommutes(s[1..], a, c);
    }
  }
}
