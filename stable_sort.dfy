/**
 * Python's `sorted(xs, key=k, reverse=True)`: a stable sort on descending
 * keys. Equal keys keep their input order, as the language guarantees.
 * Modelled as an insertion sort on items tagged with their key and their
 * input position.
 */
module StableSort {

  datatype Keyed<T> = Keyed(item: T, key: real, pos: nat)

  /** `x` comes before `y` in the output: a larger key, or an equal key and an earlier input position. */
  predicate Precedes<T>(x: Keyed<T>, y: Keyed<T>) {
    x.key > y.key || (x.key == y.key && x.pos < y.pos)
  }

  predicate Ordered<T>(s: seq<Keyed<T>>) {
    forall a, b :: 0 <= a < b < |s| ==> Precedes(s[a], s[b])
  }

  function Items<T>(s: seq<Keyed<T>>): (r: seq<T>)
    ensures |r| == |s|
    ensures forall i :: 0 <= i < |s| ==> r[i] == s[i].item
  {
    seq(|s|, i requires 0 <= i < |s| => s[i].item)
  }

  lemma ItemsCons<T>(x: Keyed<T>, s: seq<Keyed<T>>)
    ensures Items([x] + s) == [x.item] + Items(s)
  {
    assert forall i :: 0 <= i < |s| + 1 ==> Items([x] + s)[i] == ([x.item] + Items(s))[i];
  }

  lemma ItemsSnoc<T>(s: seq<Keyed<T>>, x: Keyed<T>)
    ensures Items(s + [x]) == Items(s) + [x.item]
  {
    assert forall i :: 0 <= i < |s| + 1 ==> Items(s + [x])[i] == (Items(s) + [x.item])[i];
  }

  /** Insert `e` after every element that precedes it. */
  function Insert<T>(e: Keyed<T>, s: seq<Keyed<T>>): (r: seq<Keyed<T>>)
    ensures |r| == |s| + 1
  {
    if |s| == 0 then [e]
    else if s[0].key < e.key then [e] + s
    else [s[0]] + Insert(e, s[1..])
  }

  /** Inserting adds `e` and nothing else. */
  lemma {:induction false} InsertAdds<T>(e: Keyed<T>, s: seq<Keyed<T>>)
    ensures multiset(Insert(e, s)) == multiset(s) + multiset{e}
  {
    if |s| > 0 && s[0].key >= e.key {
      InsertAdds(e, s[1..]);
      assert s == [s[0]] + s[1..];
    }
  }

  /** The same, read on the items. */
  lemma {:induction false} InsertAddsItem<T>(e: Keyed<T>, s: seq<Keyed<T>>)
    ensures multiset(Items(Insert(e, s))) == multiset(Items(s)) + multiset{e.item}
  {
    if |s| == 0 {
    } else if s[0].key < e.key {
      ItemsCons(e, s);
    } else {
      var t := Insert(e, s[1..]);
      calc {
        multiset(Items(Insert(e, s)));
        == { ItemsCons(s[0], t); }
        multiset([s[0].item] + Items(t));
        ==
        multiset{s[0].item} + multiset(Items(t));
        == { InsertAddsItem(e, s[1..]); }
        multiset{s[0].item} + multiset(Items(s[1..])) + multiset{e.item};
        == { assert s == [s[0]] + s[1..]; ItemsCons(s[0], s[1..]); }
        multiset(Items(s)) + multiset{e.item};
      }
    }
  }

  lemma {:induction false} InsertOrdered<T>(e: Keyed<T>, s: seq<Keyed<T>>)
    requires Ordered(s)
    requires forall i :: 0 <= i < |s| ==> s[i].pos < e.pos
    ensures Ordered(Insert(e, s))
  {
    if |s| > 0 && s[0].key >= e.key {
      var t := Insert(e, s[1..]);
      InsertOrdered(e, s[1..]);
      InsertAdds(e, s[1..]);
      forall x | x in t ensures Precedes(s[0], x) {
        assert x in multiset(t);
        if x != e {
          assert x in multiset(s[1..]);
        }
      }
    }
  }

  /** Tag each item with its key and its input position. */
  function Tag<T>(items: seq<T>, keys: seq<real>): (s: seq<Keyed<T>>)
    requires |items| == |keys|
    ensures |s| == |items|
    ensures forall i :: 0 <= i < |s| ==> s[i] == Keyed(items[i], keys[i], i)
  {
    seq(|items|, i requires 0 <= i < |items| => Keyed(items[i], keys[i], i))
  }

  /** Insertion sort of tagged items, last one inserted last. */
  function SortTagged<T>(s: seq<Keyed<T>>): (r: seq<Keyed<T>>)
    ensures |r| == |s|
  {
    if |s| == 0 then []
    else Insert(s[|s| - 1], SortTagged(s[..|s| - 1]))
  }

  /** The sort permutes the tagged items. */
  lemma {:induction false} SortTaggedPermutes<T>(s: seq<Keyed<T>>)
    ensures multiset(SortTagged(s)) == multiset(s)
  {
    if |s| > 0 {
      var init := s[..|s| - 1];
      SortTaggedPermutes(init);
      InsertAdds(s[|s| - 1], SortTagged(init));
      assert s == init + [s[|s| - 1]];
    }
  }

  /** The same, read on the items. */
  lemma {:induction false} SortTaggedPermutesItems<T>(s: seq<Keyed<T>>)
    ensures multiset(Items(SortTagged(s))) == multiset(Items(s))
  {
    if |s| > 0 {
      var init := s[..|s| - 1];
      SortTaggedPermutesItems(init);
      InsertAddsItem(s[|s| - 1], SortTagged(init));
      assert s == init + [s[|s| - 1]];
      ItemsSnoc(init, s[|s| - 1]);
    }
  }

  lemma {:induction false} SortTaggedOrdered<T>(s: seq<Keyed<T>>)
    requires forall a, b :: 0 <= a < b < |s| ==> s[a].pos < s[b].pos
    ensures Ordered(SortTagged(s))
  {
    if |s| > 0 {
      var init := s[..|s| - 1];
      var e := s[|s| - 1];
      SortTaggedOrdered(init);
      SortTaggedPermutes(init);
      var sorted := SortTagged(init);
      forall i | 0 <= i < |sorted| ensures sorted[i].pos < e.pos {
        assert sorted[i] in multiset(init);
      }
      InsertOrdered(e, sorted);
    }
  }

  /**
   * The sorted, tagged items: each entry is an input item with its key and
   * its position; keys are non-increasing; equal keys keep input order; the
   * items are a permutation of the input.
   */
  function SortedEntries<T>(items: seq<T>, keys: seq<real>): (r: seq<Keyed<T>>)
    requires |items| == |keys|
    ensures |r| == |items|
    ensures forall i :: 0 <= i < |r| ==> r[i].pos < |items| && r[i].item == items[r[i].pos] && r[i].key == keys[r[i].pos]
    ensures forall a, b :: 0 <= a < b < |r| ==> r[a].key >= r[b].key
    ensures forall a, b :: 0 <= a < b < |r| && r[a].key == r[b].key ==> r[a].pos < r[b].pos
    ensures multiset(Items(r)) == multiset(items)
    ensures forall j :: 0 <= j < |items| ==> Keyed(items[j], keys[j], j) in r
  {
    var tagged := Tag(items, keys);
    SortTaggedOrdered(tagged);
    SortTaggedPermutes(tagged);
    SortTaggedPermutesItems(tagged);
    var r := SortTagged(tagged);
    forall i | 0 <= i < |r| ensures r[i].pos < |items| && r[i].item == items[r[i].pos] && r[i].key == keys[r[i].pos] {
      assert r[i] in multiset(tagged);
    }
    assert Items(tagged) == items;
    forall j | 0 <= j < |items| ensures Keyed(items[j], keys[j], j) in r {
      assert tagged[j] in multiset(tagged);
    }
    r
  }

  /** `sorted(items, key=..., reverse=True)` where `keys[i]` is the key of `items[i]`. */
  function SortByKeyDesc<T>(items: seq<T>, keys: seq<real>): (r: seq<T>)
    requires |items| == |keys|
    ensures |r| == |items|
    ensures multiset(r) == multiset(items)
  {
    Items(SortedEntries(items, keys))
  }

  /**
   * The sort's guarantees read on the result: there is a reordering `perm`
   * of the input positions with non-increasing keys, in which equal keys
   * keep their input order.
   */
  lemma SortByKeyDescSpec<T>(items: seq<T>, keys: seq<real>)
    requires |items| == |keys|
    ensures var r := SortByKeyDesc(items, keys);
            var perm := Positions(SortedEntries(items, keys));
            && |perm| == |r|
            && (forall i :: 0 <= i < |r| ==> perm[i] < |items| && r[i] == items[perm[i]])
            && (forall a, b :: 0 <= a < b < |r| ==> keys[perm[a]] >= keys[perm[b]])
            && (forall a, b :: 0 <= a < b < |r| && keys[perm[a]] == keys[perm[b]] ==> perm[a] < perm[b])
  {
    var e := SortedEntries(items, keys);
    var r := Items(e);
    var perm := Positions(e);
    assert SortByKeyDesc(items, keys) == r;
    assert forall i :: 0 <= i < |r| ==> perm[i] < |items| && r[i] == items[perm[i]];
    assert forall i :: 0 <= i < |r| ==> keys[perm[i]] == e[i].key;
  }

  function Positions<T>(s: seq<Keyed<T>>): (r: seq<nat>)
    ensures |r| == |s|
    ensures forall i :: 0 <= i < |s| ==> r[i] == s[i].pos
  {
    seq(|s|, i requires 0 <= i < |s| => s[i].pos)
  }

  /**
   * Taking the first `n` of the sorted items keeps the `n` largest keys: an
   * input position that was not kept has a key no larger than any kept one.
   */
  lemma {:induction false} KeptDominateDropped<T>(items: seq<T>, keys: seq<real>, n: nat, j: nat)
    requires |items| == |keys| && j < |items|
    requires forall c :: 0 <= c < n && c < |items| ==> SortedEntries(items, keys)[c].pos != j
    ensures forall a :: 0 <= a < n && a < |items| ==> keys[j] <= SortedEntries(items, keys)[a].key
  {
    var r := SortedEntries(items, keys);
    assert Keyed(items[j], keys[j], j) in r;
    var c :| 0 <= c < |r| && r[c] == Keyed(items[j], keys[j], j);
    assert c >= n;
  }

  /** The first `m` sorted items, read through their entries. */
  lemma {:induction false} PrefixOfSorted<T>(items: seq<T>, keys: seq<real>, m: nat)
    requires |items| == |keys| && m <= |items|
    ensures var r := SortByKeyDesc(items, keys)[..m];
            var e := SortedEntries(items, keys);
            forall a :: 0 <= a < m ==> r[a] == items[e[a].pos] && keys[e[a].pos] == e[a].key
  {
    var e := SortedEntries(items, keys);
    var sorted := Items(e);
    forall a | 0 <= a < m ensures sorted[..m][a] == items[e[a].pos] && keys[e[a].pos] == e[a].key {
      assert sorted[a] == e[a].item;
    }
  }

  /** A prefix of the sorted items is a sub-multiset of the input. */
  lemma {:induction false} PrefixOfSortedFromInput<T>(items: seq<T>, keys: seq<real>, m: nat)
    requires |items| == |keys| && m <= |items|
    ensures multiset(SortByKeyDesc(items, keys)[..m]) <= multiset(items)
  {
    var sorted := SortByKeyDesc(items, keys);
    assert sorted == sorted[..m] + sorted[m..];
    assert multiset(sorted) == multiset(sorted[..m]) + multiset(sorted[m..]);
  }
}
