/** Vocabulary shared by every module: 32-bit amounts, options, and lists of named amounts. */
module Prelude {

  datatype Option<+T> = None | Some(value: T)

  /** Every amount, nonce and height of the program is an unsigned 32-bit number. */
  type u32 = x: int | 0 <= x < 0x1_0000_0000

  /** The 32-bit result of an exact sum or difference. */
  function Wrap(x: int): u32 {
    x % 0x1_0000_0000
  }

  /** Equality of exact totals up to 32-bit wrap-around. */
  predicate Congruent(a: int, b: int) {
    (a - b) % 0x1_0000_0000 == 0
  }

  lemma WrapSum(x: int, y: int)
    ensures Wrap(Wrap(x) + y) == Wrap(x + y)
  {
  }

  lemma WrapIs(x: int)
    ensures 0 <= x < 0x1_0000_0000 ==> Wrap(x) == x
    ensures Congruent(Wrap(x), x)
  {
  }

  /** Replacing one summand by another, wrapped, moves a total by their difference. */
  lemma CongruentMove(a: int, b: int, from: int, to: int)
    requires Congruent(a, b)
    ensures Congruent(a - from + Wrap(to), b - from + to)
  {
  }

  lemma CongruentTrans(a: int, b: int, c: int)
    requires Congruent(a, b) && Congruent(b, c)
    ensures Congruent(a, c)
  {
  }

  lemma CongruentAdd(a: int, b: int, d: int)
    requires Congruent(a, b)
    ensures Congruent(a + d, b + d)
  {
  }

  lemma CongruentSelf(a: int)
    ensures Congruent(a, a)
  {
  }

  /** One element of an association list (the program's BalanceType and NextNonceType). */
  datatype Entry = Entry(id: string, amount: u32)

  /** Position of the first entry named id, or -1. */
  function Index(xs: seq<Entry>, id: string): (i: int)
    ensures -1 <= i < |xs|
  {
    if xs == [] then -1
    else if xs[0].id == id then 0
    else var k := Index(xs[1..], id); if k < 0 then -1 else k + 1
  }

  predicate Has(xs: seq<Entry>, id: string) {
    Index(xs, id) >= 0
  }

  /** What the list says about id; an absent name counts as 0. */
  function Get(xs: seq<Entry>, id: string): u32 {
    var i := Index(xs, id);
    if i >= 0 then xs[i].amount else 0
  }

  /** Overwrites the first entry named id, or appends one. */
  function Put(xs: seq<Entry>, id: string, v: u32): seq<Entry> {
    var i := Index(xs, id);
    if i >= 0 then xs[i := Entry(id, v)] else xs + [Entry(id, v)]
  }

  function Total(xs: seq<Entry>): nat {
    if xs == [] then 0 else xs[0].amount + Total(xs[1..])
  }

  lemma {:induction false} IndexFinds(xs: seq<Entry>, id: string)
    ensures var i := Index(xs, id);
            && (i >= 0 ==> xs[i].id == id)
            && forall j :: 0 <= j < (if i >= 0 then i else |xs|) ==> xs[j].id != id
  {
    if xs != [] && xs[0].id != id {
      IndexFinds(xs[1..], id);
      var i := Index(xs, id);
      forall j | 0 <= j < (if i >= 0 then i else |xs|) ensures xs[j].id != id {
        if j > 0 { assert xs[j] == xs[1..][j - 1]; }
      }
    }
  }

  /** The search finds exactly the first match. */
  lemma IndexIs(xs: seq<Entry>, id: string, i: int)
    requires -1 <= i < |xs| && (i >= 0 ==> xs[i].id == id)
    requires forall j :: 0 <= j < (if i >= 0 then i else |xs|) ==> xs[j].id != id
    ensures Index(xs, id) == i
  {
    IndexFinds(xs, id);
  }

  lemma PutIndex(xs: seq<Entry>, id: string, v: u32, a: string)
    ensures Index(Put(xs, id, v), a)
            == if a == id && Index(xs, id) < 0 then |xs| else Index(xs, a)
  {
    IndexFinds(xs, id);
    IndexFinds(xs, a);
    IndexIs(Put(xs, id, v), a, if a == id && Index(xs, id) < 0 then |xs| else Index(xs, a));
  }

  lemma PutGet(xs: seq<Entry>, id: string, v: u32, a: string)
    ensures Get(Put(xs, id, v), a) == if a == id then v else Get(xs, a)
    ensures Has(Put(xs, id, v), a) <==> a == id || Has(xs, a)
  {
    PutIndex(xs, id, v, a);
    IndexFinds(xs, a);
    IndexFinds(xs, id);
  }

  lemma AbsentIsZero(xs: seq<Entry>, a: string)
    ensures !Has(xs, a) ==> Get(xs, a) == 0
  {
  }

  lemma {:induction false} TotalAt(xs: seq<Entry>, i: nat, e: Entry)
    requires i < |xs|
    ensures Total(xs[i := e]) == Total(xs) - xs[i].amount + e.amount
    ensures xs[i].amount <= Total(xs)
  {
    if i == 0 {
      assert xs[0 := e][1..] == xs[1..];
    } else {
      TotalAt(xs[1..], i - 1, e);
      assert xs[i := e][1..] == xs[1..][i - 1 := e];
    }
  }

  lemma {:induction false} TotalAppend(xs: seq<Entry>, e: Entry)
    ensures Total(xs + [e]) == Total(xs) + e.amount
  {
    if xs == [] {
      assert xs + [e] == [e];
    } else {
      TotalAppend(xs[1..], e);
      assert (xs + [e])[1..] == xs[1..] + [e];
    }
  }

  /** Overwriting one name moves the total by exactly the change at that name. */
  lemma PutTotal(xs: seq<Entry>, id: string, v: u32)
    ensures Total(Put(xs, id, v)) == Total(xs) - Get(xs, id) + v
    ensures Get(xs, id) <= Total(xs)
  {
    var i := Index(xs, id);
    if i >= 0 {
      TotalAt(xs, i, Entry(id, v));
    } else {
      TotalAppend(xs, Entry(id, v));
    }
  }

  // ---------------------------------------------------------------- a list that is a map

  /** No name is listed twice. */
  ghost predicate Distinct(xs: seq<Entry>) {
    forall i, j :: 0 <= i < j < |xs| ==> xs[i].id != xs[j].id
  }

  /** What the list says about every name it lists. */
  ghost function AsMap(xs: seq<Entry>): (m: map<string, u32>)
    ensures forall a :: a in m <==> Has(xs, a)
    ensures forall a :: a in m ==> m[a] == Get(xs, a)
  {
    forall a ensures Has(xs, a) ==> a in set e | e in xs :: e.id { IndexFinds(xs, a); }
    map a | a in (set e | e in xs :: e.id) && Has(xs, a) :: Get(xs, a)
  }

  ghost function SumOf(m: map<string, u32>): nat {
    if m == map[] then 0 else var a :| a in m; m[a] + SumOf(m - {a})
  }

  lemma {:induction false} SumOfPick(m: map<string, u32>, a: string)
    requires a in m
    ensures SumOf(m) == m[a] + SumOf(m - {a})
    decreases |m|
  {
    var b :| b in m && SumOf(m) == m[b] + SumOf(m - {b});
    if a != b {
      SumOfPick(m - {b}, a);
      SumOfPick(m - {a}, b);
      assert m - {a} - {b} == m - {b} - {a};
    }
  }

  lemma SumOfMore(m: map<string, u32>, a: string, v: u32)
    requires a !in m
    ensures SumOf(m[a := v]) == SumOf(m) + v
  {
    SumOfPick(m[a := v], a);
    assert m[a := v] - {a} == m;
  }

  lemma PutDistinct(xs: seq<Entry>, id: string, v: u32)
    requires Distinct(xs)
    ensures Distinct(Put(xs, id, v))
  {
    IndexFinds(xs, id);
  }

  /** Put is the update of that map. */
  lemma AsMapPut(xs: seq<Entry>, id: string, v: u32)
    ensures AsMap(Put(xs, id, v)) == AsMap(xs)[id := v]
  {
    hide Has;
    hide Get;
    hide Put;
    forall a
      ensures Has(Put(xs, id, v), a) <==> a == id || Has(xs, a)
      ensures Get(Put(xs, id, v), a) == if a == id then v else Get(xs, a)
    {
      PutGet(xs, id, v, a);
    }
  }

  lemma SplitLast(xs: seq<Entry>)
    requires xs != [] && Distinct(xs)
    ensures var front, e := xs[..|xs| - 1], xs[|xs| - 1];
            Distinct(front) && xs == front + [e] && xs == Put(front, e.id, e.amount) && !Has(front, e.id)
  {
    IndexIs(xs[..|xs| - 1], xs[|xs| - 1].id, -1);
  }

  /** The total of a list without repetitions is the sum over the names it lists of what it says about them. */
  lemma {:induction false} TotalIsSum(xs: seq<Entry>)
    requires Distinct(xs)
    ensures Total(xs) == SumOf(AsMap(xs))
  {
    hide Distinct;
    hide Has;
    hide Get;
    hide Put;
    if xs == [] {
      NothingListed();
      assert AsMap(xs) == map[];
    } else {
      var front, e := xs[..|xs| - 1], xs[|xs| - 1];
      SplitLast(xs);
      TotalIsSum(front);
      TotalAppend(front, e);
      AsMapPut(front, e.id, e.amount);
      SumOfMore(AsMap(front), e.id, e.amount);
    }
  }

  lemma NothingListed()
    ensures forall a :: !Has([], a)
  {
  }

  /** With repetitions it need not be. */
  lemma RepetitionCountsTwice()
    ensures var xs := [Entry("a", 1), Entry("a", 5)]; Total(xs) == 6 && SumOf(AsMap(xs)) == 1
  {
    var xs := [Entry("a", 1), Entry("a", 5)];
    assert xs[1..] == [Entry("a", 5)] && xs[1..][1..] == [];
    assert Total(xs[1..]) == 5;
    assert Index(xs, "a") == 0;
    var m := AsMap(xs);
    forall x ensures x in m <==> x == "a" { IndexFinds(xs, x); }
    assert m == map["a" := 1];
    SumOfPick(m, "a");
    assert m - {"a"} == map[];
  }
}
