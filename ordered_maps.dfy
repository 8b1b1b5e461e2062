/**
 * Insertion-ordered dictionaries, as Python's `OrderedDict` (and, since Python 3.7,
 * every `dict`): a key keeps the position of its first insertion, and assigning to
 * an existing key replaces its value in place.
 */
module OrderedMaps {

  datatype OrderedMap<K(==), V> = OrderedMap(keys: seq<K>, entries: map<K, V>) {

    /** The key order lists every key exactly once. */
    ghost predicate Valid() {
      && (forall i, j :: 0 <= i < j < |keys| ==> keys[i] != keys[j])
      && (forall k :: k in entries ==> k in keys)
      && (forall i :: 0 <= i < |keys| ==> keys[i] in entries)
    }

    /** `d[k] = v` */
    function Put(k: K, v: V): (r: OrderedMap<K, V>)
      ensures Valid() ==> r.Valid()
      ensures k in r.entries && r.entries[k] == v
      ensures r.entries.Keys == entries.Keys + {k}
      ensures forall k' :: k' != k && k' in entries ==> r.entries[k'] == entries[k']
      ensures Valid() && k in entries ==> r.keys == keys
      ensures Valid() && k !in entries ==> r.keys == keys + [k]
    {
      OrderedMap(if k in entries then keys else keys + [k], entries[k := v])
    }

    /** `list(d.values())`, in key order. */
    function Values(): (r: seq<V>)
      requires Valid()
      ensures |r| == |keys|
      ensures forall i :: 0 <= i < |keys| ==> r[i] == entries[keys[i]]
    {
      seq(|keys|, i requires 0 <= i < |keys| => entries[keys[i]])
    }
  }

  function Empty<K(==), V>(): (r: OrderedMap<K, V>)
    ensures r.Valid() && r.keys == [] && r.entries == map[]
  {
    OrderedMap([], map[])
  }

  /** The keys of a sequence of pairs, in order. */
  function KeysOf<K, V>(ps: seq<(K, V)>): (r: seq<K>)
    ensures |r| == |ps| && forall i :: 0 <= i < |ps| ==> r[i] == ps[i].0
  {
    seq(|ps|, i requires 0 <= i < |ps| => ps[i].0)
  }

  lemma KeysOfSnoc<K, V>(ps: seq<(K, V)>)
    requires ps != []
    ensures KeysOf(ps) == KeysOf(ps[..|ps| - 1]) + [ps[|ps| - 1].0]
  {
    var a, b := KeysOf(ps), KeysOf(ps[..|ps| - 1]) + [ps[|ps| - 1].0];
    forall i | 0 <= i < |ps| ensures a[i] == b[i] {
      if i < |ps| - 1 {
        assert ps[..|ps| - 1][i] == ps[i];
      }
    }
  }

  /** The position of the first occurrence of `x` in `xs`. */
  function FirstIndex<K(==)>(xs: seq<K>, x: K): (r: nat)
    requires x in xs
    ensures r < |xs| && xs[r] == x
    ensures forall j :: 0 <= j < r ==> xs[j] != x
  {
    if xs[0] == x then 0 else 1 + FirstIndex(xs[1..], x)
  }

  /** A dictionary filled by assigning the pairs one after another. */
  function FromPairs<K(==), V>(ps: seq<(K, V)>): (r: OrderedMap<K, V>)
    ensures r.Valid()
  {
    if ps == [] then Empty() else FromPairs(ps[..|ps| - 1]).Put(ps[|ps| - 1].0, ps[|ps| - 1].1)
  }

  lemma FromPairsSnoc<K, V>(ps: seq<(K, V)>, p: (K, V))
    ensures FromPairs(ps + [p]) == FromPairs(ps).Put(p.0, p.1)
  {
    assert (ps + [p])[..|ps|] == ps;
  }

  /** The keys of `FromPairs(ps)` are exactly the keys of the pairs. */
  lemma {:induction false} FromPairsKeys<K, V>(ps: seq<(K, V)>)
    ensures forall k :: k in FromPairs(ps).entries <==> k in KeysOf(ps)
  {
    if ps != [] {
      FromPairsKeys(ps[..|ps| - 1]);
      KeysOfSnoc(ps);
    }
  }

  /**
   * The keys of `FromPairs(ps)` are exactly the keys of `ps`, and each maps to the
   * value of its last pair: a repeated key takes the later value.
   */
  lemma {:induction false} FromPairsLastWins<K, V>(ps: seq<(K, V)>)
    ensures forall k :: k in FromPairs(ps).entries <==> k in KeysOf(ps)
    ensures forall i :: 0 <= i < |ps| ==> ps[i].0 in FromPairs(ps).entries
    ensures forall i :: 0 <= i < |ps| && LastOccurrence(ps, i) ==> FromPairs(ps).entries[ps[i].0] == ps[i].1
  {
    FromPairsKeys(ps);
    forall i | 0 <= i < |ps| ensures ps[i].0 in FromPairs(ps).entries {
      assert KeysOf(ps)[i] == ps[i].0;
    }
    FromPairsLastValue(ps);
  }

  /** No pair after position `i` has the key of pair `i`. */
  ghost predicate LastOccurrence<K, V>(ps: seq<(K, V)>, i: int)
    requires 0 <= i < |ps|
  {
    forall j :: i < j < |ps| ==> ps[j].0 != ps[i].0
  }

  /** A pair whose key does not occur again later gives that key's value. */
  lemma {:induction false} FromPairsLastValue<K, V>(ps: seq<(K, V)>)
    ensures forall i :: 0 <= i < |ps| && LastOccurrence(ps, i) ==>
              ps[i].0 in FromPairs(ps).entries && FromPairs(ps).entries[ps[i].0] == ps[i].1
  {
    if ps != [] {
      var init, last := ps[..|ps| - 1], ps[|ps| - 1];
      var m := FromPairs(init);
      assert FromPairs(ps) == m.Put(last.0, last.1);
      FromPairsLastValue(init);
      forall i | 0 <= i < |ps| && LastOccurrence(ps, i)
        ensures ps[i].0 in FromPairs(ps).entries && FromPairs(ps).entries[ps[i].0] == ps[i].1
      {
        if i < |init| {
          LastValueStep(ps, i);
        }
      }
    }
  }

  /** A key that does not occur again in `ps` does not occur again in `ps` less its last pair. */
  lemma LastValueStep<K, V>(ps: seq<(K, V)>, i: int)
    requires 0 <= i < |ps| - 1 && LastOccurrence(ps, i)
    requires var init := ps[..|ps| - 1]; LastOccurrence(init, i) ==>
      init[i].0 in FromPairs(init).entries && FromPairs(init).entries[init[i].0] == init[i].1
    ensures ps[i].0 in FromPairs(ps).entries && FromPairs(ps).entries[ps[i].0] == ps[i].1
  {
    var init := ps[..|ps| - 1];
    assert init[i] == ps[i];
    assert ps[|ps| - 1].0 != ps[i].0;
    assert LastOccurrence(init, i) by {
      forall j | i < j < |init| ensures init[j].0 != init[i].0 {
        assert init[j] == ps[j];
      }
    }
  }

  /** Every element of `keys` occurs in `xs`, and `keys` lists them in the order of their first occurrence there. */
  ghost predicate InFirstOccurrenceOrder<K>(keys: seq<K>, xs: seq<K>) {
    && (forall i :: 0 <= i < |keys| ==> keys[i] in xs)
    && (forall i, j :: 0 <= i < j < |keys| ==> FirstIndex(xs, keys[i]) < FirstIndex(xs, keys[j]))
  }

  /**
   * The keys of `FromPairs(ps)` are ordered by their first occurrence in `ps`:
   * a repeated key keeps the position of its first assignment.
   */
  lemma {:induction false} FromPairsFirstOrder<K, V>(ps: seq<(K, V)>)
    ensures forall i :: 0 <= i < |ps| ==> ps[i].0 in FromPairs(ps).keys
    ensures InFirstOccurrenceOrder(FromPairs(ps).keys, KeysOf(ps))
  {
    FromPairsKeys(ps);
    forall i | 0 <= i < |ps| ensures ps[i].0 in FromPairs(ps).keys {
      assert KeysOf(ps)[i] == ps[i].0;
    }
    if ps != [] {
      FromPairsFirstOrder(ps[..|ps| - 1]);
      FromPairsKeys(ps[..|ps| - 1]);
      FromPairsOrderStep(ps);
    }
  }

  /** One more assignment keeps the keys in first-occurrence order. */
  lemma FromPairsOrderStep<K, V>(ps: seq<(K, V)>)
    requires ps != []
    requires InFirstOccurrenceOrder(FromPairs(ps[..|ps| - 1]).keys, KeysOf(ps[..|ps| - 1]))
    requires ps[|ps| - 1].0 in FromPairs(ps[..|ps| - 1]).entries <==> ps[|ps| - 1].0 in KeysOf(ps[..|ps| - 1])
    ensures InFirstOccurrenceOrder(FromPairs(ps).keys, KeysOf(ps))
  {
    var init, last := ps[..|ps| - 1], ps[|ps| - 1].0;
    var keysInit, ki := FromPairs(init).keys, KeysOf(init);
    KeysOfSnoc(ps);
    if last in FromPairs(init).entries {
      OrderAppendOld(keysInit, ki, last);
    } else {
      OrderAppendNew(keysInit, ki, last);
    }
  }

  lemma OrderAppendOld<K>(keys: seq<K>, xs: seq<K>, y: K)
    requires InFirstOccurrenceOrder(keys, xs)
    ensures InFirstOccurrenceOrder(keys, xs + [y])
  {
    forall i | 0 <= i < |keys| ensures FirstIndex(xs + [y], keys[i]) == FirstIndex(xs, keys[i]) {
      FirstIndexAppend(xs, y, keys[i]);
    }
  }

  lemma OrderAppendNew<K>(keys: seq<K>, xs: seq<K>, y: K)
    requires InFirstOccurrenceOrder(keys, xs)
    requires y !in xs
    ensures InFirstOccurrenceOrder(keys + [y], xs + [y])
  {
    OrderAppendOld(keys, xs, y);
    FirstIndexAppendNew(xs, y);
    var ks := keys + [y];
    forall i, j | 0 <= i < j < |ks| ensures FirstIndex(xs + [y], ks[i]) < FirstIndex(xs + [y], ks[j]) {
      assert ks[i] == keys[i];
      FirstIndexAppend(xs, y, keys[i]);
      if j < |keys| {
        assert ks[j] == keys[j];
      }
    }
  }

  lemma {:induction false} FirstIndexAppendNew<K>(xs: seq<K>, y: K)
    requires y !in xs
    ensures FirstIndex(xs + [y], y) == |xs|
  {
    if xs != [] {
      assert (xs + [y])[1..] == xs[1..] + [y];
      FirstIndexAppendNew(xs[1..], y);
    }
  }

  lemma {:induction false} FirstIndexAppend<K>(xs: seq<K>, y: K, x: K)
    requires x in xs
    ensures FirstIndex(xs + [y], x) == FirstIndex(xs, x)
  {
    if xs[0] != x {
      assert (xs + [y])[1..] == xs[1..] + [y];
      FirstIndexAppend(xs[1..], y, x);
    }
  }
}
