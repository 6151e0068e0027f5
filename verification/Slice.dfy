/** Go's slices: a header that names a backing array and a length. Copying a header shares the array. */
module Slices {

  datatype Slice<T> = Slice(arr: array<T>, len: nat)

  ghost predicate Fits<T>(s: Slice<T>) {
    s.len <= s.arr.Length
  }

  function Items<T>(s: Slice<T>): seq<T>
    reads s.arr
  {
    if s.len <= s.arr.Length then s.arr[..s.len] else s.arr[..]
  }

  /** An empty slice over an array of its own. */
  method Make<T(0)>() returns (r: Slice<T>)
    ensures Fits(r) && fresh(r.arr) && Items(r) == []
  {
    var a := new T[0];
    r := Slice(a, 0);
  }

  /** Writes in place while the capacity lasts, and moves to a larger array of its own when it does not. The
      old array changes at the position past the slice at most, so what the old header shows stays as it was. */
  method Append<T(0)>(s: Slice<T>, x: T) returns (r: Slice<T>)
    requires Fits(s)
    modifies s.arr
    ensures Fits(r) && Items(r) == old(Items(s)) + [x]
    ensures if s.len < s.arr.Length then r.arr == s.arr else fresh(r.arr)
    ensures s.arr[..] == if s.len < s.arr.Length then old(s.arr[..])[s.len := x] else old(s.arr[..])
  {
    if s.len < s.arr.Length {
      s.arr[s.len] := x;
      r := Slice(s.arr, s.len + 1);
    } else {
      var a := Grown(s, 2 * s.len + 1);
      a[s.len] := x;
      r := Slice(a, s.len + 1);
    }
  }

  method Grown<T(0)>(s: Slice<T>, capacity: nat) returns (a: array<T>)
    requires Fits(s) && s.len <= capacity
    ensures fresh(a) && a.Length == capacity && a[..s.len] == Items(s)
  {
    a := new T[capacity];
    for i := 0 to s.len
      invariant a[..i] == s.arr[..i]
    {
      a[i] := s.arr[i];
    }
  }

  /** append(make([]T, 0), s...): the same items over an array of its own. */
  method Clone<T(0)>(s: Slice<T>) returns (r: Slice<T>)
    requires Fits(s)
    ensures Fits(r) && fresh(r.arr) && Items(r) == Items(s)
  {
    var a := Grown(s, s.len);
    r := Slice(a, s.len);
  }

  /** Overwrites one item in the backing array. */
  method Write<T>(s: Slice<T>, i: nat, x: T)
    requires Fits(s) && i < s.len
    modifies s.arr
    ensures Items(s) == old(Items(s))[i := x]
    ensures s.arr[..] == old(s.arr[..])[i := x]
  {
    s.arr[i] := x;
  }

  method FromSeq<T(0)>(xs: seq<T>) returns (r: Slice<T>)
    ensures Fits(r) && fresh(r.arr) && Items(r) == xs
  {
    var a := new T[|xs|];
    for i := 0 to |xs|
      invariant a[..i] == xs[..i]
    {
      a[i] := xs[i];
    }
    r := Slice(a, |xs|);
  }
}
