/**
 * JavaScript's `Map`, as the session stores use it: a finite map whose iteration and
 * `keys()` follow insertion order. Setting an existing key keeps its place; deleting a
 * key removes it from the order.
 */
module JsMaps {

  datatype JsMap<K(==, !new), V> = JsMap(order: seq<K>, entries: map<K, V>)
  {
    /** Every key appears once in the order, and the order lists exactly the keys. */
    ghost predicate Valid() {
      && Distinct(order)
      && (forall k :: k in order <==> k in entries)
    }
  }

  /** No element of `s` occurs twice. */
  ghost predicate Distinct<K(!new)>(s: seq<K>) {
    forall i, j :: 0 <= i < j < |s| ==> s[i] != s[j]
  }

  /** Two sequences without repetitions and without a common element concatenate without repetitions. */
  lemma DistinctAppend<K(!new)>(a: seq<K>, b: seq<K>)
    requires Distinct(a) && Distinct(b)
    requires forall x :: x in b ==> x !in a
    ensures Distinct(a + b)
  {
    var c := a + b;
    forall i, j | 0 <= i < j < |c| ensures c[i] != c[j] {
      if i < |a| && j >= |a| {
        assert c[j] == b[j - |a|] && c[j] in b;
      } else if i >= |a| {
        assert c[i] == b[i - |a|] && c[j] == b[j - |a|];
      }
    }
  }

  function Empty<K(==, !new), V>(): (m: JsMap<K, V>)
    ensures m.Valid() && m.entries == map[] && m.order == []
  {
    JsMap([], map[])
  }

  /** `map.set(k, v)`: a new key goes last, an existing key keeps its position. */
  function Set<K(==, !new), V>(m: JsMap<K, V>, k: K, v: V): (r: JsMap<K, V>)
    requires m.Valid()
    ensures r.Valid()
    ensures r.entries == m.entries[k := v]
    ensures k in m.entries ==> r.order == m.order
    ensures k !in m.entries ==> r.order == m.order + [k]
  {
    if k in m.entries then JsMap(m.order, m.entries[k := v])
    else JsMap(m.order + [k], m.entries[k := v])
  }

  /** Setting a key twice is setting it once to the second value. */
  lemma SetTwice<K(!new), V>(m: JsMap<K, V>, k: K, v: V, w: V)
    requires m.Valid()
    ensures Set(Set(m, k, v), k, w) == Set(m, k, w)
  {
  }

  /** Setting a key to the value it already has changes nothing. */
  lemma SetSame<K(!new), V>(m: JsMap<K, V>, k: K)
    requires m.Valid() && k in m.entries
    ensures Set(m, k, m.entries[k]) == m
  {
  }

  /** `s` without the element `k`. */
  function Remove<K(==, !new)>(s: seq<K>, k: K): (r: seq<K>)
    ensures forall x :: x in r <==> x in s && x != k
    ensures |r| <= |s|
  {
    if |s| == 0 then []
    else (if s[0] == k then [] else [s[0]]) + Remove(s[1..], k)
  }

  /** Removing an element that is not there changes nothing. */
  lemma {:induction false} RemoveAbsent<K(!new)>(s: seq<K>, k: K)
    requires k !in s
    ensures Remove(s, k) == s
  {
    if |s| > 0 {
      RemoveAbsent(s[1..], k);
      assert s == [s[0]] + s[1..];
    }
  }

  /** Removing the one occurrence of `k` closes the gap it leaves. */
  lemma {:induction false} RemoveSplit<K(!new)>(a: seq<K>, k: K, b: seq<K>)
    requires k !in a && k !in b
    ensures Remove(a + [k] + b, k) == a + b
  {
    if |a| == 0 {
      assert a + [k] + b == [k] + b;
      RemoveAbsent(b, k);
    } else {
      assert (a + [k] + b)[1..] == a[1..] + [k] + b;
      RemoveSplit(a[1..], k, b);
      assert a + b == [a[0]] + (a[1..] + b);
    }
  }

  /** Removal keeps the remaining elements distinct. */
  lemma {:induction false} RemoveDistinct<K(!new)>(s: seq<K>, k: K)
    requires Distinct(s)
    ensures Distinct(Remove(s, k))
  {
    if |s| > 0 {
      RemoveDistinct(s[1..], k);
      var t := Remove(s[1..], k);
      assert s[0] !in s[1..];
      assert s[0] !in t;
      var r := Remove(s, k);
      if s[0] == k {
        assert r == t;
      } else {
        assert r == [s[0]] + t;
        forall i, j | 0 <= i < j < |r| ensures r[i] != r[j] {
          assert r[j] == t[j - 1];
          if i > 0 {
            assert r[i] == t[i - 1];
          }
        }
      }
    }
  }

  /** `map.delete(k)`: the entry and its place in the order disappear; the others keep their order. */
  function Delete<K(==, !new), V>(m: JsMap<K, V>, k: K): (r: JsMap<K, V>)
    requires m.Valid()
    ensures r.Valid()
    ensures r.entries == m.entries - {k}
    ensures r.order == Remove(m.order, k)
  {
    RemoveDistinct(m.order, k);
    JsMap(Remove(m.order, k), m.entries - {k})
  }

  /** Deleting an absent key changes nothing, as `Map.prototype.delete` does. */
  lemma DeleteAbsent<K(!new), V>(m: JsMap<K, V>, k: K)
    requires m.Valid() && k !in m.entries
    ensures Delete(m, k) == m
  {
    RemoveAbsent(m.order, k);
  }

  /** The elements of `s` that `keep` accepts, in their order. */
  function Filter<K(!new)>(s: seq<K>, keep: K -> bool): (r: seq<K>)
    ensures forall x :: x in r <==> x in s && keep(x)
    ensures |r| <= |s|
  {
    if |s| == 0 then []
    else Filter(s[..|s| - 1], keep) + (if keep(s[|s| - 1]) then [s[|s| - 1]] else [])
  }

  /** The entries `keep` accepts, in their order: what a sweep that deletes the others leaves. */
  function Restrict<K(==, !new), V>(m: JsMap<K, V>, keep: K -> bool): (r: JsMap<K, V>)
    requires m.Valid()
    ensures forall k :: k in r.entries <==> k in m.entries && keep(k)
    ensures forall k :: k in r.entries ==> r.entries[k] == m.entries[k]
    ensures r.order == Filter(m.order, keep)
  {
    JsMap(Filter(m.order, keep), map k | k in m.entries && keep(k) :: m.entries[k])
  }

  /** The filtered order of a sequence with distinct elements is again distinct. */
  lemma {:induction false} FilterDistinct<K(!new)>(s: seq<K>, keep: K -> bool)
    requires Distinct(s)
    ensures Distinct(Filter(s, keep))
  {
    if |s| > 0 {
      var init := s[..|s| - 1];
      FilterDistinct(init, keep);
      var last := s[|s| - 1];
      assert last !in init;
      var f := Filter(init, keep);
      var r := Filter(s, keep);
      if keep(last) {
        assert r == f + [last];
        forall i, j | 0 <= i < j < |r| ensures r[i] != r[j] {
          if j == |f| {
            assert r[i] == f[i];
          }
        }
      } else {
        assert r == f;
      }
    }
  }

  /** A sweep keeps the map well formed. */
  lemma RestrictValid<K(!new), V>(m: JsMap<K, V>, keep: K -> bool)
    requires m.Valid()
    ensures Restrict(m, keep).Valid()
  {
    FilterDistinct(m.order, keep);
  }

  /**
   * The state of a sweep over the snapshot `ids` of the order after `i` turns: the first `i`
   * ids filtered, the rest untouched. Deleting the current id when `keep` rejects it moves
   * the sweep on by one.
   */
  lemma SweepStep<K(!new)>(ids: seq<K>, i: nat, keep: K -> bool)
    requires i < |ids|
    requires Distinct(ids)
    ensures ids[i..] == [ids[i]] + ids[i + 1..] && ids[i] !in ids[i + 1..]
    ensures keep(ids[i]) ==>
      Filter(ids[..i + 1], keep) + ids[i + 1..] == Filter(ids[..i], keep) + ids[i..]
    ensures !keep(ids[i]) ==>
      Filter(ids[..i + 1], keep) + ids[i + 1..] == Remove(Filter(ids[..i], keep) + ids[i..], ids[i])
  {
    assert ids[..i + 1][..i] == ids[..i];
    assert ids[i..] == [ids[i]] + ids[i + 1..];
    assert ids[i] !in ids[i + 1..];
    if !keep(ids[i]) {
      assert ids[i] !in ids[..i];
      var f := Filter(ids[..i], keep);
      assert Filter(ids[..i + 1], keep) == f;
      assert f + ids[i..] == f + [ids[i]] + ids[i + 1..];
      RemoveSplit(f, ids[i], ids[i + 1..]);
    }
  }
  /**
   * A sweep over `before` that has looked at its first `i` keys and deleted those `keep`
   * rejects: the order is the filtered prefix followed by the untouched rest, and every
   * remaining entry is unchanged.
   */
  ghost predicate SweepState<K(!new), V>(m: JsMap<K, V>, before: JsMap<K, V>, i: nat, keep: K -> bool) {
    && i <= |before.order|
    && m.Valid()
    && SweepParts(m.order, m.entries, before.order, before.entries, i, keep)
  }

  /** The order and entries `mo`, `me` of a sweep over the order `ids` and entries `be`, `i` keys in. */
  ghost predicate SweepParts<K(!new), V>(mo: seq<K>, me: map<K, V>, ids: seq<K>, be: map<K, V>, i: nat, keep: K -> bool)
    requires i <= |ids|
  {
    && mo == Filter(ids[..i], keep) + ids[i..]
    && (forall k :: k in me <==> k in be && (k in ids[i..] || keep(k)))
    && (forall k :: k in me ==> me[k] == be[k])
  }

  /** A sweep starts with nothing looked at. */
  lemma SweepStart<K(!new), V>(before: JsMap<K, V>, keep: K -> bool)
    requires before.Valid()
    ensures SweepState(before, before, 0, keep)
  {
    assert before.order[..0] == [];
    assert before.order[0..] == before.order;
  }

  /**
   * One turn of a sweep: the current key is still present with its original value, and
   * deleting it exactly when `keep` rejects it advances the sweep.
   */
  lemma SweepAdvance<K(!new), V>(m: JsMap<K, V>, before: JsMap<K, V>, i: nat, keep: K -> bool)
    requires before.Valid() && SweepState(m, before, i, keep) && i < |before.order|
    ensures before.order[i] in m.entries && m.entries[before.order[i]] == before.entries[before.order[i]]
    ensures SweepState(if keep(before.order[i]) then m else Delete(m, before.order[i]), before, i + 1, keep)
  {
    var k := before.order[i];
    SweepStep(before.order, i, keep);
    assert k in before.order[i..];
    if keep(k) {
      SweepKeep(m, before, i, keep);
    } else {
      SweepDrop(m, before, i, keep);
    }
  }

  /** A turn that keeps the current key leaves the map as it is. */
  lemma SweepKeep<K(!new), V>(m: JsMap<K, V>, before: JsMap<K, V>, i: nat, keep: K -> bool)
    requires before.Valid() && SweepState(m, before, i, keep) && i < |before.order|
    requires keep(before.order[i])
    ensures SweepState(m, before, i + 1, keep)
  {
    SweepStep(before.order, i, keep);
    forall x | x in before.order[i..] ensures x in before.order[i + 1..] || keep(x) {
      assert x == before.order[i] || x in before.order[i + 1..];
    }
  }

  /** A turn that rejects the current key deletes it. */
  lemma SweepDrop<K(!new), V>(m: JsMap<K, V>, before: JsMap<K, V>, i: nat, keep: K -> bool)
    requires before.Valid() && SweepState(m, before, i, keep) && i < |before.order|
    requires !keep(before.order[i])
    ensures SweepState(Delete(m, before.order[i]), before, i + 1, keep)
  {
    DropParts(m.order, m.entries, before.order, before.entries, i, keep);
  }

  /** The order, the keys and the values of a sweep state once the rejected current key is deleted. */
  lemma DropParts<K(!new), V>(mo: seq<K>, me: map<K, V>, ids: seq<K>, be: map<K, V>, i: nat, keep: K -> bool)
    requires Distinct(ids) && i < |ids| && !keep(ids[i])
    requires SweepParts(mo, me, ids, be, i, keep)
    ensures SweepParts(Remove(mo, ids[i]), me - {ids[i]}, ids, be, i + 1, keep)
  {
    SweepStep(ids, i, keep);
    DropKey(me, be, ids, i, keep);
  }

  /** The keys left once the rejected current key is deleted are those the next sweep state allows. */
  lemma DropKey<K(!new), V>(me: map<K, V>, be: map<K, V>, ids: seq<K>, i: nat, keep: K -> bool)
    requires i < |ids| && ids[i] !in ids[i + 1..] && !keep(ids[i])
    requires forall x :: x in me <==> x in be && (x in ids[i..] || keep(x))
    ensures forall x :: x in me - {ids[i]} <==> x in be && (x in ids[i + 1..] || keep(x))
  {
    assert ids[i..] == [ids[i]] + ids[i + 1..];
  }

  /** `m` is what is left of `before` once exactly the entries `keep` rejects are deleted. */
  ghost predicate SweptBy<K(!new), V>(m: JsMap<K, V>, before: JsMap<K, V>, keep: K -> bool) {
    && m.Valid()
    && (forall k :: k in m.entries <==> k in before.entries && keep(k))
    && (forall k :: k in m.entries ==> m.entries[k] == before.entries[k])
    && m.order == Filter(before.order, keep)
  }

  /** A finished sweep leaves exactly the entries `keep` accepts, in their order. */
  lemma SweepDone<K(!new), V>(m: JsMap<K, V>, before: JsMap<K, V>, keep: K -> bool)
    requires SweepState(m, before, |before.order|, keep)
    ensures SweptBy(m, before, keep)
  {
    assert before.order[..|before.order|] == before.order;
  }
}
