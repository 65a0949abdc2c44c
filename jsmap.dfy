/**
 * JavaScript's `Map`: a keyed table that remembers the order in which keys
 * were first inserted. `set` on a present key replaces the value in place,
 * `delete` removes the key from the order, and `forEach` visits the keys in
 * that order.
 */
module JsMaps {
  import opened Nullable
  import opened Seqs

  /** The keys in insertion order, and the value of each key. */
  datatype JsMap<K, V> = JsMap(order: seq<K>, values: map<K, V>)

  /** Each key is listed once, and the listed keys are exactly the keys with a value. */
  predicate Valid<K(==,!new), V>(m: JsMap<K, V>)
  {
    NoDup(m.order) && (forall i :: 0 <= i < |m.order| ==> m.order[i] in m.values) && (forall k :: k in m.values ==> k in m.order)
  }

  /** `new Map()`. */
  function EmptyMap<K, V>(): (r: JsMap<K, V>)
    ensures r.order == [] && r.values == map[]
  {
    JsMap([], map[])
  }

  /** `m.get(k)`, with `None` for `undefined`. */
  function Get<K(==,!new), V>(m: JsMap<K, V>, k: K): (r: Option<V>)
    ensures r.Some? <==> k in m.values
    ensures r.Some? ==> r.value == m.values[k]
  {
    if k in m.values then Some(m.values[k]) else None
  }

  /** `m.size`. */
  function Size<K, V>(m: JsMap<K, V>): nat
  {
    |m.order|
  }

  /**
   * `m.set(k, v)`: `k` now maps to `v` and every other key keeps its value; a
   * present key keeps its position, a new key goes last.
   */
  function Set<K(==,!new), V>(m: JsMap<K, V>, k: K, v: V): (r: JsMap<K, V>)
    requires Valid(m)
    ensures Valid(r)
    ensures Get(r, k) == Some(v)
    ensures forall j :: j != k ==> Get(r, j) == Get(m, j)
    ensures r.order == if k in m.values then m.order else m.order + [k]
  {
    if k in m.values then JsMap(m.order, m.values[k := v])
    else
      assert forall i :: 0 <= i < |m.order| ==> m.order[i] != k;
      JsMap(m.order + [k], m.values[k := v])
  }

  /** `m.delete(k)`: `k` has no value any more, every other key keeps its value and its relative order. */
  function Delete<K(==,!new), V>(m: JsMap<K, V>, k: K): (r: JsMap<K, V>)
    requires Valid(m)
    ensures Valid(r)
    ensures Get(r, k) == None
    ensures forall j :: j != k ==> Get(r, j) == Get(m, j)
    ensures IsSubsequence(r.order, m.order)
  {
    var order := Filter(m.order, j => j != k);
    FilterIsSubsequence(m.order, j => j != k);
    SubsequenceNoDup(order, m.order);
    JsMap(order, m.values - {k})
  }

  /** A subsequence of a list without repetitions has none either. */
  lemma {:induction false} SubsequenceNoDup<T>(a: seq<T>, b: seq<T>)
    requires IsSubsequence(a, b) && NoDup(b)
    ensures NoDup(a)
    decreases |b|
  {
    if a != [] && b != [] {
      var b' := b[..|b| - 1];
      assert NoDup(b') by {
        forall i, j | 0 <= i < j < |b'|
          ensures b'[i] != b'[j]
        {
          assert b'[i] == b[i] && b'[j] == b[j];
        }
      }
      if a[|a| - 1] == b[|b| - 1] {
        var a' := a[..|a| - 1];
        SubsequenceNoDup(a', b');
        SubsequenceElements(a', b');
        forall i | 0 <= i < |a'|
          ensures a'[i] != a[|a| - 1]
        {
          assert a'[i] in b';
          var j :| 0 <= j < |b'| && b'[j] == a'[i];
          assert b[j] == b'[j];
        }
        assert a == a' + [a[|a| - 1]];
        assert NoDup(a) by {
          forall i, j | 0 <= i < j < |a|
            ensures a[i] != a[j]
          {
            if j < |a| - 1 {
              assert a[i] == a'[i] && a[j] == a'[j];
            } else {
              assert a[i] == a'[i];
            }
          }
        }
      } else {
        SubsequenceNoDup(a, b');
      }
    }
  }

  /** Every element of a subsequence occurs in the whole sequence. */
  lemma {:induction false} SubsequenceElements<T>(a: seq<T>, b: seq<T>)
    requires IsSubsequence(a, b)
    ensures forall x :: x in a ==> x in b
    decreases |b|
  {
    if a != [] && b != [] {
      var b' := b[..|b| - 1];
      if a[|a| - 1] == b[|b| - 1] {
        SubsequenceElements(a[..|a| - 1], b');
        assert a == a[..|a| - 1] + [a[|a| - 1]];
      } else {
        SubsequenceElements(a, b');
      }
    }
  }

  /** Adding the same entry twice is the same as adding it once. */
  lemma SetIdempotent<K(!new), V>(m: JsMap<K, V>, k: K, v: V)
    requires Valid(m)
    ensures Set(Set(m, k, v), k, v) == Set(m, k, v)
  {
  }

  /** Setting a key never makes the map shorter and grows it by one only for a new key. */
  lemma SetSize<K(!new), V>(m: JsMap<K, V>, k: K, v: V)
    requires Valid(m)
    ensures Size(Set(m, k, v)) == Size(m) + (if k in m.values then 0 else 1)
  {
  }

  /** Deleting a present key shrinks the map by exactly one; deleting an absent key changes nothing. */
  lemma DeleteSize<K(!new), V>(m: JsMap<K, V>, k: K)
    requires Valid(m)
    ensures k in m.values ==> Size(Delete(m, k)) == Size(m) - 1
    ensures k !in m.values ==> Delete(m, k) == m
  {
    var keep := (j: K) => j != k;
    if k !in m.values {
      FilterAll(m.order, keep);
    } else {
      FilterDropsOne(m.order, keep, k);
    }
  }

  /** Filtering out one value that occurs once removes exactly one element. */
  lemma {:induction false} FilterDropsOne<T(!new)>(s: seq<T>, keep: T -> bool, k: T)
    requires NoDup(s) && k in s && forall x :: keep(x) <==> x != k
    ensures |Filter(s, keep)| == |s| - 1
    decreases |s|
  {
    var init := s[..|s| - 1];
    var last := s[|s| - 1];
    assert s == init + [last];
    assert NoDup(init) by {
      forall i, j | 0 <= i < j < |init|
        ensures init[i] != init[j]
      {
        assert init[i] == s[i] && init[j] == s[j];
      }
    }
    if last == k {
      assert forall i :: 0 <= i < |init| ==> init[i] == s[i];
      FilterAll(init, keep);
    } else {
      FilterDropsOne(init, keep, k);
    }
  }

  /** Deleting a key that was just added restores the map. */
  lemma DeleteUndoesSet<K(!new), V>(m: JsMap<K, V>, k: K, v: V)
    requires Valid(m) && k !in m.values
    ensures Delete(Set(m, k, v), k) == m
  {
    var keep := (j: K) => j != k;
    FilterAppend(m.order, [k], keep);
    assert Filter([k], keep) == [] by {
      assert [k][..0] == [];
    }
    FilterAll(m.order, keep);
    assert m.values[k := v] - {k} == m.values;
  }
}
