/** The program's Set: items kept under their hash. */
module Sets {

  class HashSet<T(==, !new)> {
    const keyOf: T -> string
    var items: map<string, T>

    function Key(x: T): string {
      keyOf(x)
    }

    /** No two values share a hash. */
    ghost predicate Distinguishes() {
      forall x, y :: Key(x) == Key(y) ==> x == y
    }

    ghost predicate Valid()
      reads this
    {
      forall k :: k in items ==> Key(items[k]) == k
    }

    ghost function Elements(): set<T>
      reads this
    {
      set k | k in items :: items[k]
    }

    constructor (keyOf: T -> string)
      ensures Valid() && items == map[] && Elements() == {} && this.keyOf == keyOf
    {
      this.keyOf := keyOf;
      items := map[];
    }

    method Contains(value: T) returns (found: bool)
      requires Valid()
      ensures found <==> Key(value) in items
      ensures Distinguishes() ==> (found <==> value in Elements())
    {
      found := Key(value) in items;
      if found { assert items[Key(value)] in Elements(); }
    }

    /** Keeps the value already stored under the hash, if there is one. */
    method Add(value: T)
      requires Valid()
      modifies this
      ensures Valid()
      ensures items == if Key(value) in old(items) then old(items) else old(items)[Key(value) := value]
      ensures Distinguishes() ==> Elements() == old(Elements()) + {value}
    {
      var present := Contains(value);
      if !present {
        items := items[Key(value) := value];
        assert items[Key(value)] == value;
        forall x | x in old(Elements()) ensures x in Elements() {
          var k :| k in old(items) && old(items)[k] == x;
          assert items[k] == x;
        }
      }
    }

    method Remove(value: T)
      requires Valid()
      modifies this
      ensures Valid()
      ensures items == old(items) - {Key(value)}
      ensures Distinguishes() ==> Elements() == old(Elements()) - {value}
    {
      var present := Contains(value);
      if present {
        items := items - {Key(value)};
        forall x | x in old(Elements()) && x != value && Distinguishes() ensures x in Elements() {
          var k :| k in old(items) && old(items)[k] == x;
          assert items[k] == x;
        }
      } else {
        assert items == items - {Key(value)};
      }
    }

    method Size() returns (n: nat)
      ensures n == |items|
    {
      n := |items|;
    }

    /** All items once, in no particular order. */
    method ToArray() returns (arr: seq<T>)
      requires Valid()
      ensures |arr| == |items|
      ensures forall x :: x in arr <==> x in Elements()
      ensures forall i, j :: 0 <= i < j < |arr| ==> arr[i] != arr[j]
    {
      arr := [];
      var todo := items.Keys;
      ghost var done: seq<string> := [];
      while todo != {}
        invariant Lists(arr, done) && (forall k :: k in items <==> k in todo || k in done)
        invariant forall k :: k in todo ==> k in items && k !in done
        decreases todo
      {
        var k :| k in todo;
        ListsMore(arr, done, k);
        arr := arr + [items[k]];
        todo, done := todo - {k}, done + [k];
      }
      ListsAll(arr, done);
    }

    /** arr holds the items under the keys, one after the other and no key twice. */
    ghost predicate Lists(arr: seq<T>, keys: seq<string>)
      reads this
    {
      && |arr| == |keys|
      && (forall i :: 0 <= i < |keys| ==> keys[i] in items && items[keys[i]] == arr[i])
      && (forall i, j :: 0 <= i < j < |keys| ==> keys[i] != keys[j])
    }

    lemma ListsMore(arr: seq<T>, keys: seq<string>, k: string)
      requires Lists(arr, keys) && k in items && k !in keys
      ensures Lists(arr + [items[k]], keys + [k])
    {
    }

    lemma ListsAll(arr: seq<T>, keys: seq<string>)
      requires Valid() && Lists(arr, keys) && forall k :: k in items <==> k in keys
      ensures |arr| == |items|
      ensures forall x :: x in arr <==> x in Elements()
      ensures forall i, j :: 0 <= i < j < |arr| ==> arr[i] != arr[j]
    {
      KeysCounted(keys);
      forall x | x in Elements() ensures x in arr {
        var k :| k in items && items[k] == x;
        var i :| 0 <= i < |keys| && keys[i] == k;
        assert arr[i] == x;
      }
    }

    lemma {:induction false} Counted(keys: seq<string>)
      requires forall i, j :: 0 <= i < j < |keys| ==> keys[i] != keys[j]
      ensures |set k | k in keys| == |keys|
    {
      if keys != [] {
        var rest := keys[..|keys| - 1];
        Counted(rest);
        assert (set k | k in keys) == (set k | k in rest) + {keys[|keys| - 1]};
      }
    }

    lemma KeysCounted(keys: seq<string>)
      requires (forall i, j :: 0 <= i < j < |keys| ==> keys[i] != keys[j]) && forall k :: k in items <==> k in keys
      ensures |keys| == |items|
    {
      Counted(keys);
      assert (set k | k in keys) == items.Keys;
    }

    method Clear()
      modifies this
      ensures Valid() && items == map[] && Elements() == {}
    {
      items := map[];
    }
  }
}
