/** A JavaScript Map: entries with distinct keys, in insertion order. */
module JsMap {
  import opened Semaphore

  datatype Entry<K, V> = Entry(key: K, value: V)

  function Keys<K, V>(m: seq<Entry<K, V>>): (ks: seq<K>)
    ensures |ks| == |m| && forall i :: 0 <= i < |m| ==> ks[i] == m[i].key
  {
    if m == [] then [] else [m[0].key] + Keys(m[1..])
  }

  predicate Has<K(==), V>(m: seq<Entry<K, V>>, k: K) { k in Keys(m) }

  function Get<K(==), V>(m: seq<Entry<K, V>>, k: K): (v: V)
    requires Has(m, k)
    ensures Entry(k, v) in m
  {
    if m[0].key == k then m[0].value else Get(m[1..], k)
  }

  /** Deleting a key keeps the order of the others. */
  function Delete<K(==), V>(m: seq<Entry<K, V>>, k: K): (r: seq<Entry<K, V>>)
    ensures Keys(r) == Remove(Keys(m), k)
    ensures forall e :: e in r ==> e in m
  {
    if m == [] then [] else if m[0].key == k then m[1..] else [m[0]] + Delete(m[1..], k)
  }

  /** Setting a present key keeps its place; a new key goes last. */
  function Set<K(==), V>(m: seq<Entry<K, V>>, k: K, v: V): (r: seq<Entry<K, V>>)
    ensures Entry(k, v) in r && forall e :: e in r ==> e in m || e == Entry(k, v)
  {
    if m == [] then [Entry(k, v)]
    else if m[0].key == k then [Entry(k, v)] + m[1..]
    else [m[0]] + Set(m[1..], k, v)
  }

  lemma {:induction false} KeysAfterSet<K, V>(m: seq<Entry<K, V>>, k: K, v: V)
    ensures Keys(Set(m, k, v)) == if Has(m, k) then Keys(m) else Keys(m) + [k]
  {
    if m != [] && m[0].key != k {
      KeysAfterSet(m[1..], k, v);
      assert Keys(m) == [m[0].key] + Keys(m[1..]);
    }
  }

  lemma {:induction false} GetAfterSet<K, V>(m: seq<Entry<K, V>>, k: K, v: V, x: K)
    ensures Has(Set(m, k, v), x) <==> x == k || Has(m, x)
    ensures Has(Set(m, k, v), x) ==> Get(Set(m, k, v), x) == if x == k then v else Get(m, x)
  {
    if m == [] {
      assert Keys([Entry(k, v)]) == [k];
    } else {
      assert Keys(m) == [m[0].key] + Keys(m[1..]);
      if m[0].key == k {
        assert ([Entry(k, v)] + m[1..])[1..] == m[1..];
        assert Keys(Set(m, k, v)) == [k] + Keys(m[1..]);
      } else {
        GetAfterSet(m[1..], k, v, x);
        assert ([m[0]] + Set(m[1..], k, v))[1..] == Set(m[1..], k, v);
        assert Keys(Set(m, k, v)) == [m[0].key] + Keys(Set(m[1..], k, v));
      }
    }
  }

  lemma SetKeepsDistinct<K(!new), V>(m: seq<Entry<K, V>>, k: K, v: V)
    requires Distinct(Keys(m))
    ensures Distinct(Keys(Set(m, k, v)))
  {
    KeysAfterSet(m, k, v);
    if !Has(m, k) {
      var ks := Keys(m) + [k];
      forall i, j | 0 <= i < j < |ks| ensures ks[i] != ks[j] {
        assert ks[i] == Keys(m)[i] && ks[i] in Keys(m);
        assert j < |Keys(m)| ==> ks[j] == Keys(m)[j];
      }
    }
  }

  lemma {:induction false} SetNewAppends<K, V>(m: seq<Entry<K, V>>, k: K, v: V)
    requires !Has(m, k)
    ensures Set(m, k, v) == m + [Entry(k, v)]
  {
    if m != [] {
      assert Keys(m) == [m[0].key] + Keys(m[1..]);
      SetNewAppends(m[1..], k, v);
      assert m == [m[0]] + m[1..];
    }
  }

  /** The sequence without the first occurrence of k. */
  function Remove<K(==)>(s: seq<K>, k: K): (r: seq<K>)
    ensures |r| == if k in s then |s| - 1 else |s|
  {
    if s == [] then [] else if s[0] == k then s[1..] else [s[0]] + Remove(s[1..], k)
  }

  lemma {:induction false} RemoveMembers<K(!new)>(s: seq<K>, k: K)
    ensures k !in s ==> Remove(s, k) == s
    ensures forall x :: x in Remove(s, k) ==> x in s
    ensures forall x :: x in s && x != k ==> x in Remove(s, k)
  {
    if s != [] {
      RemoveMembers(s[1..], k);
      assert s == [s[0]] + s[1..];
      assert s[0] != k ==> forall x :: x in Remove(s, k) <==> x == s[0] || x in Remove(s[1..], k);
    }
  }

  lemma {:induction false} RemoveFromConcat<K>(a: seq<K>, b: seq<K>, k: K)
    ensures Remove(a + b, k) == if k in a then Remove(a, k) + b else a + Remove(b, k)
  {
    if a == [] {
      assert a + b == b;
    } else {
      var first, rest := a[0], a[1..];
      assert (a + b)[0] == first && (a + b)[1..] == rest + b;
      if first != k {
        RemoveFromConcat(rest, b, k);
        assert k in a <==> k in rest;
        assert [first] + (rest + Remove(b, k)) == a + Remove(b, k);
        assert [first] + (Remove(rest, k) + b) == ([first] + Remove(rest, k)) + b;
      }
    }
  }

  lemma {:induction false} RemoveDistinct<K(!new)>(s: seq<K>, k: K)
    requires Distinct(s)
    ensures Distinct(Remove(s, k)) && k !in Remove(s, k)
  {
    if s != [] {
      RemoveDistinct(s[1..], k);
      RemoveMembers(s[1..], k);
      if s[0] != k { assert s[0] !in s[1..]; }
    }
  }

  lemma {:induction false} DeleteKeepsOthers<K(!new), V(!new)>(m: seq<Entry<K, V>>, k: K)
    requires Distinct(Keys(m))
    ensures forall e :: e in Delete(m, k) <==> e in m && e.key != k
  {
    if m != [] {
      var first, rest := m[0], m[1..];
      assert Keys(m) == [first.key] + Keys(rest) && m == [first] + rest;
      FirstKeyOnce(first, rest);
      DeleteKeepsOthers(rest, k);
    }
  }

  lemma FirstKeyOnce<K(!new), V(!new)>(first: Entry<K, V>, rest: seq<Entry<K, V>>)
    requires Distinct([first.key] + Keys(rest))
    ensures Distinct(Keys(rest)) && forall e :: e in rest ==> e.key != first.key
  {
    var ks := [first.key] + Keys(rest);
    assert forall i :: 0 <= i < |rest| ==> ks[i + 1] == Keys(rest)[i] == rest[i].key;
    forall e | e in rest ensures e.key != first.key {
      var i :| 0 <= i < |rest| && rest[i] == e;
      assert ks[0] != ks[i + 1];
    }
  }

  /** Deleting a key and setting it again moves its entry to the end. */
  lemma DeleteThenSet<K(!new), V(!new)>(m: seq<Entry<K, V>>, k: K)
    requires Distinct(Keys(m)) && Has(m, k)
    ensures var c := Set(Delete(m, k), k, Get(m, k));
            Keys(c) == Remove(Keys(m), k) + [k] && forall e :: e in c <==> e in m
  {
    var d, v := Delete(m, k), Get(m, k);
    RemoveDistinct(Keys(m), k);
    KeysAfterSet(d, k, v);
    SetNewAppends(d, k, v);
    DeleteKeepsOthers(m, k);
    forall e | e in m && e.key == k ensures e == Entry(k, v) { OnlyEntry(m, k, e); }
  }

  lemma OnlyEntry<K(!new), V(!new)>(m: seq<Entry<K, V>>, k: K, e: Entry<K, V>)
    requires Distinct(Keys(m)) && e in m && e.key == k
    ensures Has(m, k) && e == Entry(k, Get(m, k))
  {
    var i :| 0 <= i < |m| && m[i] == e;
    assert Keys(m)[i] == k;
    var j :| 0 <= j < |m| && m[j] == Entry(k, Get(m, k));
    assert Keys(m)[j] == k && i == j;
  }
}
