/**
 * Building a map by inserting key/value pairs one after another, as the
 * parser and the router do with `HashMap::insert` inside a `for` loop:
 * an item either yields a pair or is skipped, and a later insertion of the
 * same key overwrites an earlier one.
 */
module Bindings {
  import opened Results

  type Entry<!T> = T -> Option<(string, string)>

  /** Item `x` yields a pair whose key is `key`. */
  predicate Binds<T>(entry: Entry<T>, x: T, key: string) {
    entry(x).Some? && entry(x).value.0 == key
  }

  /** The map after inserting, in order, the pair each item yields into `acc`. */
  function Collect<T>(acc: map<string, string>, items: seq<T>, entry: Entry<T>): map<string, string>
    decreases |items|
  {
    if items == [] then acc
    else
      var m := Collect(acc, items[..|items| - 1], entry);
      match entry(items[|items| - 1])
      case None => m
      case Some(kv) => m[kv.0 := kv.1]
  }

  /**
   * The insertion loop itself: for each item in order, insert the pair it
   * yields, if any.
   */
  method InsertAll<T>(acc: map<string, string>, items: seq<T>, entry: Entry<T>) returns (m: map<string, string>)
    ensures m == Collect(acc, items, entry)
  {
    m := acc;
    for i := 0 to |items|
      invariant m == Collect(acc, items[..i], entry)
    {
      CollectSnoc(acc, items[..i], items[i], entry);
      assert items[..i + 1] == items[..i] + [items[i]];
      var kv := entry(items[i]);
      if kv.Some? {
        m := m[kv.value.0 := kv.value.1];
      }
    }
    assert items[..|items|] == items;
  }

  /** One more item is one more insertion. */
  lemma CollectSnoc<T>(acc: map<string, string>, items: seq<T>, x: T, entry: Entry<T>)
    ensures Collect(acc, items + [x], entry) ==
            match entry(x)
            case None => Collect(acc, items, entry)
            case Some(kv) => Collect(acc, items, entry)[kv.0 := kv.1]
  {
    assert (items + [x])[..|items|] == items;
  }

  /** A key is present exactly when it was present before or some item binds it. */
  lemma {:induction false} CollectDomain<T>(acc: map<string, string>, items: seq<T>, entry: Entry<T>, key: string)
    ensures key in Collect(acc, items, entry) <==>
            key in acc || exists j :: 0 <= j < |items| && Binds(entry, items[j], key)
    decreases |items|
  {
    if items != [] {
      var init := items[..|items| - 1];
      CollectDomain(acc, init, entry, key);
      if exists j :: 0 <= j < |init| && Binds(entry, init[j], key) {
        var j :| 0 <= j < |init| && Binds(entry, init[j], key);
        assert items[j] == init[j];
      }
      if exists j :: 0 <= j < |items| && Binds(entry, items[j], key) {
        var j :| 0 <= j < |items| && Binds(entry, items[j], key);
        if j < |init| {
          assert init[j] == items[j];
        }
      }
    }
  }

  /** The value under a key comes from the last item that binds it. */
  lemma {:induction false} CollectLastWins<T>(acc: map<string, string>, items: seq<T>, entry: Entry<T>, j: nat)
    requires j < |items| && entry(items[j]).Some?
    requires forall i :: j < i < |items| ==> !Binds(entry, items[i], entry(items[j]).value.0)
    ensures entry(items[j]).value.0 in Collect(acc, items, entry)
    ensures Collect(acc, items, entry)[entry(items[j]).value.0] == entry(items[j]).value.1
    decreases |items|
  {
    var init := items[..|items| - 1];
    if j < |items| - 1 {
      assert init[j] == items[j];
      forall i | j < i < |init| ensures !Binds(entry, init[i], entry(init[j]).value.0) {
        assert init[i] == items[i];
      }
      CollectLastWins(acc, init, entry, j);
    }
  }

  /** A key that no item binds keeps its old presence and value. */
  lemma {:induction false} CollectUnbound<T>(acc: map<string, string>, items: seq<T>, entry: Entry<T>, key: string)
    requires forall j :: 0 <= j < |items| ==> !Binds(entry, items[j], key)
    ensures key in Collect(acc, items, entry) <==> key in acc
    ensures key in acc ==> Collect(acc, items, entry)[key] == acc[key]
    decreases |items|
  {
    if items != [] {
      var init := items[..|items| - 1];
      forall j | 0 <= j < |init| ensures !Binds(entry, init[j], key) {
        assert init[j] == items[j];
      }
      CollectUnbound(acc, init, entry, key);
    }
  }

  /** When every item that binds `key` binds it to `v`, and some item does, `key` ends up mapped to `v`. */
  lemma {:induction false} CollectUniform<T>(acc: map<string, string>, items: seq<T>, entry: Entry<T>, key: string, v: string)
    requires forall j :: 0 <= j < |items| && Binds(entry, items[j], key) ==> entry(items[j]).value.1 == v
    requires exists j :: 0 <= j < |items| && Binds(entry, items[j], key)
    ensures key in Collect(acc, items, entry) && Collect(acc, items, entry)[key] == v
    decreases |items|
  {
    var init := items[..|items| - 1];
    if !Binds(entry, items[|items| - 1], key) {
      var j :| 0 <= j < |items| && Binds(entry, items[j], key);
      assert j < |init| && init[j] == items[j];
      forall i | 0 <= i < |init| && Binds(entry, init[i], key) ensures entry(init[i]).value.1 == v {
        assert init[i] == items[i];
      }
      CollectUniform(acc, init, entry, key, v);
    }
  }

  /** Items that all yield nothing leave the map as it was. */
  lemma {:induction false} CollectSkipped<T>(acc: map<string, string>, items: seq<T>, entry: Entry<T>)
    requires forall j :: 0 <= j < |items| ==> entry(items[j]).None?
    ensures Collect(acc, items, entry) == acc
    decreases |items|
  {
    if items != [] {
      var init := items[..|items| - 1];
      forall j | 0 <= j < |init| ensures entry(init[j]).None? {
        assert init[j] == items[j];
      }
      CollectSkipped(acc, init, entry);
    }
  }

  /** Two item lists that yield the same pairs, position by position, build the same map. */
  lemma {:induction false} CollectCongruent<T, U>(acc: map<string, string>, xs: seq<T>, f: Entry<T>, ys: seq<U>, g: Entry<U>)
    requires |xs| == |ys|
    requires forall k :: 0 <= k < |xs| ==> f(xs[k]) == g(ys[k])
    ensures Collect(acc, xs, f) == Collect(acc, ys, g)
    decreases |xs|
  {
    if xs != [] {
      var n := |xs| - 1;
      forall k | 0 <= k < n ensures f(xs[..n][k]) == g(ys[..n][k]) {
        assert xs[..n][k] == xs[k] && ys[..n][k] == ys[k];
      }
      CollectCongruent(acc, xs[..n], f, ys[..n], g);
    }
  }
}
