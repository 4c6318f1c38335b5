/**
 The doubly bounded tile cache (tile-proxy.ts, `store` and `rememberNegative`) on insertion-ordered
 maps: what is kept is exactly the longest suffix that satisfies both bounds.
 */
module TileCache {
  import opened Prelude

  /** One binding of an insertion-ordered map, oldest first. */
  datatype Slot<+K, +V> = Slot(key: K, value: V)

  function Find<K(==), V>(m: seq<Slot<K, V>>, key: K): Option<V> {
    if m == [] then None else if m[0].key == key then Some(m[0].value) else Find(m[1..], key)
  }

  function Without<K(==), V>(m: seq<Slot<K, V>>, key: K): seq<Slot<K, V>> {
    if m == [] then [] else if m[0].key == key then m[1..] else [m[0]] + Without(m[1..], key)
  }

  /** Deleting and setting again: the key becomes the youngest. */
  function Renewed<K(==), V>(m: seq<Slot<K, V>>, key: K, value: V): seq<Slot<K, V>> {
    Without(m, key) + [Slot(key, value)]
  }

  ghost predicate Distinct<K(!new), V(!new)>(m: seq<Slot<K, V>>) {
    forall i, j :: 0 <= i < j < |m| ==> m[i].key != m[j].key
  }

  lemma {:induction false} FindFacts<K, V>(m: seq<Slot<K, V>>, key: K)
    ensures Find(m, key).Some? ==> Slot(key, Find(m, key).value) in m
    ensures Find(m, key).None? ==> forall s :: s in m ==> s.key != key
  {
    if m != [] && m[0].key != key {
      FindFacts(m[1..], key);
      assert m == [m[0]] + m[1..];
    }
  }

  lemma {:induction false} WithoutFacts<K(!new), V(!new)>(m: seq<Slot<K, V>>, key: K)
    requires Distinct(m)
    ensures forall s :: s in Without(m, key) <==> s in m && s.key != key
    ensures |Without(m, key)| == |m| - if Find(m, key).Some? then 1 else 0
  {
    if m != [] {
      assert m == [m[0]] + m[1..];
      if m[0].key != key {
        WithoutFacts(m[1..], key);
      }
    }
  }

  lemma {:induction false} WithoutIsDistinct<K(!new), V(!new)>(m: seq<Slot<K, V>>, key: K)
    requires Distinct(m)
    ensures Distinct(Without(m, key))
  {
    if m != [] && m[0].key != key {
      var rest := Without(m[1..], key);
      WithoutIsDistinct(m[1..], key);
      WithoutFacts(m[1..], key);
      forall i | 0 <= i < |rest| ensures rest[i].key != m[0].key {
        assert rest[i] in rest;
        var j :| 0 <= j < |m[1..]| && m[1..][j] == rest[i];
      }
    }
  }

  lemma RenewedFacts<K(!new), V(!new)>(m: seq<Slot<K, V>>, key: K, value: V)
    requires Distinct(m)
    ensures Distinct(Renewed(m, key, value))
    ensures forall s :: s in Renewed(m, key, value) <==> s == Slot(key, value) || (s in m && s.key != key)
    ensures |Renewed(m, key, value)| == |m| + if Find(m, key).Some? then 0 else 1
  {
    WithoutFacts(m, key);
    WithoutIsDistinct(m, key);
    FindFacts(m, key);
    var w := Without(m, key);
    forall i | 0 <= i < |w| ensures w[i].key != key {
      assert w[i] in w;
    }
  }

  // ---------------------------------------------------------------- weight and bounds

  /** Body length of a cached entry object. */
  type Sizes = seq<nat>

  function SizeAt(sizes: Sizes, ref: int): nat {
    if 0 <= ref < |sizes| then sizes[ref] else 0
  }

  function Weight<K>(m: seq<Slot<K, int>>, sizes: Sizes): nat {
    if m == [] then 0
    else SizeAt(sizes, m[0].value) + Weight(m[1..], sizes)
  }

  predicate Fits<K>(m: seq<Slot<K, int>>, sizes: Sizes, maxBytes: nat, maxEntries: nat) {
    Weight(m, sizes) <= maxBytes && |m| <= maxEntries
  }

  /** How many of the oldest bindings must go before both bounds hold. */
  function Dropped<K>(m: seq<Slot<K, int>>, sizes: Sizes, maxBytes: nat, maxEntries: nat): (n: nat)
    ensures n <= |m|
  {
    if m == [] || Fits(m, sizes, maxBytes, maxEntries) then 0
    else 1 + Dropped(m[1..], sizes, maxBytes, maxEntries)
  }

  lemma {:induction false} WeightSplits<K>(a: seq<Slot<K, int>>, b: seq<Slot<K, int>>, sizes: Sizes)
    ensures Weight(a + b, sizes) == Weight(a, sizes) + Weight(b, sizes)
  {
    if a == [] {
      assert a + b == b;
    } else {
      var whole := a + b;
      assert whole != [] && whole[0] == a[0] && whole[1..] == a[1..] + b;
      WeightSplits(a[1..], b, sizes);
    }
  }

  lemma {:induction false} WeightWithout<K(!new)>(m: seq<Slot<K, int>>, key: K, sizes: Sizes)
    ensures Weight(m, sizes) == Weight(Without(m, key), sizes)
            + match Find(m, key) case Some(r) => SizeAt(sizes, r) case None => 0
  {
    if m != [] && m[0].key != key {
      WeightWithout(m[1..], key, sizes);
      assert ([m[0]] + Without(m[1..], key))[1..] == Without(m[1..], key);
    }
  }

  lemma {:induction false} WeightSameSizes<K(!new)>(m: seq<Slot<K, int>>, a: Sizes, b: Sizes)
    requires forall s :: s in m ==> 0 <= s.value < |a| && s.value < |b| && a[s.value] == b[s.value]
    ensures Weight(m, a) == Weight(m, b)
  {
    if m != [] {
      assert m[0] in m && forall s :: s in m[1..] ==> s in m;
      WeightSameSizes(m[1..], a, b);
    }
  }

  // What is kept is exactly the longest suffix within both bounds: it fits, and no suffix that is
  // longer does.
  lemma {:induction false} KeepsLongestSuffix<K>(m: seq<Slot<K, int>>, sizes: Sizes, maxBytes: nat, maxEntries: nat, k: nat)
    requires k <= |m|
    ensures Fits(m[k..], sizes, maxBytes, maxEntries) <==> Dropped(m, sizes, maxBytes, maxEntries) <= k
  {
    if Fits(m, sizes, maxBytes, maxEntries) {
      WeightSplits(m[..k], m[k..], sizes);
      assert m == m[..k] + m[k..];
    } else if m != [] {
      if k == 0 {
        assert m[0..] == m;
      } else {
        KeepsLongestSuffix(m[1..], sizes, maxBytes, maxEntries, k - 1);
        assert m[1..][k - 1..] == m[k..];
      }
    }
  }
}
