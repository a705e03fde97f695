/**
 * A JavaScript `Map<string, V>`: a finite map that also remembers the order in
 * which its keys were first inserted, which is the order `for ... of` and
 * `values()` iterate in. Setting an existing key replaces its value and keeps
 * its position.
 */
module OrderedMaps {
  import opened Wrappers

  datatype OrderedMap<V> = OrderedMap(keys: seq<string>, entries: map<string, V>) {

    /** Keys are listed once each, and exactly the keys of `entries` are listed. */
    ghost predicate Valid() {
      && (forall i, j :: 0 <= i < j < |keys| ==> keys[i] != keys[j])
      && (forall k :: k in entries <==> k in keys)
    }

    /** `map.set(k, v)`. */
    function Set(k: string, v: V): (m: OrderedMap<V>)
      ensures Valid() ==> m.Valid()
      ensures m.entries == entries[k := v]
      ensures m.keys == if k in entries then keys else keys + [k]
    {
      OrderedMap(if k in entries then keys else keys + [k], entries[k := v])
    }

    /** Setting a key adds its value to the map's values, and none other. */
    lemma SetValues(k: string, v: V)
      ensures Set(k, v).entries.Values <= entries.Values + {v}
    {
      forall x | x in Set(k, v).entries.Values
        ensures x in entries.Values + {v}
      {
        var j :| j in Set(k, v).entries && Set(k, v).entries[j] == x;
        if j != k {
          assert entries[j] == x;
        }
      }
    }

    /** `map.values()`: the values in key order. */
    function Values(): (vs: seq<V>)
      requires Valid()
      ensures |vs| == |keys| && forall j :: 0 <= j < |keys| ==> vs[j] == entries[keys[j]]
    {
      seq(|keys|, j requires 0 <= j < |keys| => entries[keys[j]])
    }

    /** Every value of the map is visited by `values()`. */
    lemma ValuesCover()
      requires Valid()
      ensures forall v :: v in entries.Values ==> v in Values()
    {
      forall v | v in entries.Values
        ensures v in Values()
      {
        var k :| k in entries && entries[k] == v;
        var j :| 0 <= j < |keys| && keys[j] == k;
        assert Values()[j] == v;
      }
    }
  }

  function Empty<V>(): (m: OrderedMap<V>)
    ensures m.Valid() && m.entries == map[]
  {
    OrderedMap([], map[])
  }

  /**
   * The map a loop builds by calling `set(ids[i], i)` for each position whose
   * id is present, in order: each id maps to the last position carrying it,
   * and keys are listed in order of first occurrence.
   */
  function IndexOf(ids: seq<Option<string>>): OrderedMap<nat>
    decreases |ids|
  {
    if ids == [] then Empty()
    else
      var n := |ids| - 1;
      if ids[n].Some? then IndexOf(ids[..n]).Set(ids[n].value, n) else IndexOf(ids[..n])
  }

  /** Extending the ids by one position: the loop's next `set`, if that position carries an id. */
  lemma IndexOfSnoc(ids: seq<Option<string>>, i: nat)
    requires i < |ids|
    ensures IndexOf(ids[..i + 1]) == if ids[i].Some? then IndexOf(ids[..i]).Set(ids[i].value, i) else IndexOf(ids[..i])
  {
    assert ids[..i + 1][..i] == ids[..i];
  }

  lemma {:induction false} IndexOfValid(ids: seq<Option<string>>)
    ensures IndexOf(ids).Valid()
    decreases |ids|
  {
    if ids != [] {
      IndexOfValid(ids[..|ids| - 1]);
    }
  }

  /** An id is a key exactly when some position carries it. */
  lemma {:induction false} IndexOfKeys(ids: seq<Option<string>>, k: string)
    ensures k in IndexOf(ids).entries <==> exists i :: 0 <= i < |ids| && ids[i] == Some(k)
    decreases |ids|
  {
    if ids != [] {
      var n := |ids| - 1;
      var init := ids[..n];
      IndexOfKeys(init, k);
      assert k in IndexOf(ids).entries <==> k in IndexOf(init).entries || ids[n] == Some(k);
      if k in IndexOf(init).entries {
        var i :| 0 <= i < |init| && init[i] == Some(k);
        assert ids[i] == Some(k);
      }
      if exists i :: 0 <= i < |ids| && ids[i] == Some(k) {
        var i :| 0 <= i < |ids| && ids[i] == Some(k);
        if i < n {
          assert init[i] == Some(k);
        }
      }
    }
  }

  /** A key maps to a position carrying it, and no later position carries it: the last one wins. */
  lemma {:induction false} IndexOfLast(ids: seq<Option<string>>, k: string)
    requires k in IndexOf(ids).entries
    ensures IndexOf(ids).entries[k] < |ids| && ids[IndexOf(ids).entries[k]] == Some(k)
    ensures forall j :: IndexOf(ids).entries[k] < j < |ids| ==> ids[j] != Some(k)
    decreases |ids|
  {
    assert ids != [];
    var n := |ids| - 1;
    var init := ids[..n];
    if ids[n] == Some(k) {
      assert IndexOf(ids).entries[k] == n;
    } else {
      assert k in IndexOf(init).entries && IndexOf(ids).entries[k] == IndexOf(init).entries[k];
      IndexOfLast(init, k);
      forall j | IndexOf(ids).entries[k] < j < |ids|
        ensures ids[j] != Some(k)
      {
        if j < n {
          assert ids[j] == init[j];
        }
      }
    }
  }
}
