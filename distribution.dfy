/** Applying every distributor's permission strategy to the city catalog: the
    per-distributor evaluation and the blocks the program prints, one per
    distributor, in the order the concurrent evaluations complete. */
module Distribution {
  import opened Catalog
  import opened Permission

  /** A named distributor bound to one permission strategy. */
  datatype Distributor = Distributor(name: string, permissions: PermissionStrategy)

  /** One printed line of a distributor's block: the city's display names and
      the decision for its code. */
  datatype Row = Row(cityName: string, provinceName: string, countryName: string, allowed: bool)

  /** Everything one distributor's evaluation produces: its name, then one row
      per city. */
  datatype Block = Block(distributor: string, rows: seq<Row>)

  /** The row a strategy gives one city: its display names and its decision. */
  function RowFor(p: PermissionStrategy, city: City): Row
  {
    Row(city.name, city.provinceName, city.countryName, Permit(p, city.code))
  }

  /** The rows of one strategy over a city list: exactly one row per city, in
      catalog order, carrying that city's names and its decision. */
  function Rows(p: PermissionStrategy, cities: seq<City>): (r: seq<Row>)
    ensures |r| == |cities|
    ensures forall k :: 0 <= k < |cities| ==>
      r[k].cityName == cities[k].name &&
      r[k].provinceName == cities[k].provinceName &&
      r[k].countryName == cities[k].countryName &&
      r[k].allowed == Permit(p, cities[k].code)
  {
    if cities == [] then [] else [RowFor(p, cities[0])] + Rows(p, cities[1..])
  }

  /** The block one distributor contributes. */
  function Evaluation(d: Distributor, cities: seq<City>): Block
  {
    Block(d.name, Rows(d.permissions, cities))
  }

  /** One distributor's evaluation as the program runs it: the cities are
      walked in order and each city's code is checked against the
      distributor's strategy, one row appended per city. */
  method EvaluateDistributor(d: Distributor, cities: seq<City>) returns (block: Block)
    ensures block == Evaluation(d, cities)
    ensures block.distributor == d.name && |block.rows| == |cities|
    ensures forall k :: 0 <= k < |cities| ==> block.rows[k].allowed == Permit(d.permissions, cities[k].code)
  {
    var rows: seq<Row> := [];
    for i := 0 to |cities|
      invariant |rows| == i
      invariant forall k :: 0 <= k < i ==> rows[k] == RowFor(d.permissions, cities[k])
    {
      var city := cities[i];
      var permission := CheckPermission(d.permissions, city.code);
      rows := rows + [Row(city.name, city.provinceName, city.countryName, permission)];
    }
    block := Block(d.name, rows);
  }

  /** The blocks of all distributors in the order they are listed: one block
      per distributor, the k-th being the k-th distributor's evaluation. */
  function Report(ds: seq<Distributor>, cities: seq<City>): (r: seq<Block>)
    ensures |r| == |ds|
    ensures forall k :: 0 <= k < |ds| ==>
      r[k].distributor == ds[k].name && r[k].rows == Rows(ds[k].permissions, cities)
  {
    if ds == [] then [] else [Evaluation(ds[0], cities)] + Report(ds[1..], cities)
  }

  /** The indices 0 .. n-1 in increasing order. */
  function Indices(n: nat): seq<int>
  {
    seq(n, k => k)
  }

  /** A completion order of n concurrent evaluations: every index below n
      exactly once, in any order. */
  predicate IsSchedule(order: seq<int>, n: nat)
  {
    multiset(order) == multiset(Indices(n))
  }

  /** A completion order names each of the n evaluations, by an index below n. */
  lemma ScheduleInRange(order: seq<int>, n: nat)
    requires IsSchedule(order, n)
    ensures |order| == n
    ensures forall j :: 0 <= j < |order| ==> 0 <= order[j] < n
  {
    assert |order| == |multiset(order)| == |multiset(Indices(n))| == n;
    forall j | 0 <= j < |order|
      ensures 0 <= order[j] < n
    {
      assert order[j] in multiset(Indices(n));
    }
  }

  /** Every entry of `idx` is a position below n. */
  predicate IndicesBelow(idx: seq<int>, n: int)
  {
    forall j :: 0 <= j < |idx| ==> 0 <= idx[j] < n
  }

  /** The elements of `s` at the positions `idx` names, in that order. */
  function Pick<T>(s: seq<T>, idx: seq<int>): seq<T>
    requires IndicesBelow(idx, |s|)
  {
    seq(|idx|, j requires 0 <= j < |idx| => s[idx[j]])
  }

  /** Removing position i takes exactly one copy of ys[i] out of the multiset. */
  lemma MultisetWithout<T>(ys: seq<T>, i: int)
    requires 0 <= i < |ys|
    ensures multiset(ys) == multiset(ys[..i] + ys[i+1..]) + multiset{ys[i]}
  {
    assert ys == ys[..i] + [ys[i]] + ys[i+1..];
  }

  /** Two multisets that are equal once one copy of x is added to each are equal. */
  lemma MultisetCancel<T>(a: multiset<T>, b: multiset<T>, x: T)
    requires a + multiset{x} == b + multiset{x}
    ensures a == b
  {
    assert a == (a + multiset{x}) - multiset{x};
    assert b == (b + multiset{x}) - multiset{x};
  }

  /** Dropping position i of the order drops position i of the picked sequence. */
  lemma PickWithout<T>(s: seq<T>, ys: seq<int>, i: int)
    requires IndicesBelow(ys, |s|)
    requires 0 <= i < |ys|
    ensures IndicesBelow(ys[..i] + ys[i+1..], |s|)
    ensures Pick(s, ys[..i] + ys[i+1..]) == Pick(s, ys)[..i] + Pick(s, ys)[i+1..]
  {
  }

  /** Picking along two orders that are permutations of each other gives two
      sequences that are permutations of each other. */
  lemma {:induction false} PickPermutation<T>(s: seq<T>, xs: seq<int>, ys: seq<int>)
    requires IndicesBelow(xs, |s|)
    requires IndicesBelow(ys, |s|)
    requires multiset(xs) == multiset(ys)
    ensures multiset(Pick(s, xs)) == multiset(Pick(s, ys))
    decreases |xs|
  {
    assert |xs| == |multiset(xs)| == |multiset(ys)| == |ys|;
    if xs != [] {
      var x := xs[0];
      assert x in multiset(ys);
      var i :| 0 <= i < |ys| && ys[i] == x;
      MultisetWithout(xs, 0);
      MultisetWithout(ys, i);
      PickWithout(s, xs, 0);
      PickWithout(s, ys, i);
      MultisetCancel(multiset(xs[..0] + xs[1..]), multiset(ys[..i] + ys[i+1..]), x);
      PickPermutation(s, xs[..0] + xs[1..], ys[..i] + ys[i+1..]);
      MultisetWithout(Pick(s, xs), 0);
      MultisetWithout(Pick(s, ys), i);
    }
  }

  /** The program's output: one evaluation per distributor runs concurrently
      and each block is printed when its evaluation completes. The order of
      completion is not determined by the program; it is the parameter
      `completion`, the j-th entry naming the distributor whose block is
      printed j-th. Whatever that order, exactly one block is printed per
      distributor, and the printed blocks are a permutation of the blocks of
      the distributors in their listed order. */
  method PrintPermissions(cities: seq<City>, ds: seq<Distributor>, completion: seq<int>)
    returns (printed: seq<Block>)
    requires IsSchedule(completion, |ds|)
    ensures |printed| == |completion| == |ds|
    ensures forall j :: 0 <= j < |printed| ==>
      0 <= completion[j] < |ds| && printed[j] == Evaluation(ds[completion[j]], cities)
    ensures multiset(printed) == multiset(Report(ds, cities))
  {
    ScheduleInRange(completion, |ds|);
    printed := [];
    for j := 0 to |completion|
      invariant |printed| == j
      invariant forall t :: 0 <= t < j ==> printed[t] == Evaluation(ds[completion[t]], cities)
    {
      var block := EvaluateDistributor(ds[completion[j]], cities);
      printed := printed + [block];
    }
    var report := Report(ds, cities);
    assert printed == Pick(report, completion);
    assert report == Pick(report, Indices(|ds|));
    PickPermutation(report, completion, Indices(|ds|));
  }

  /** A block that occurs at position k of a sequence and nowhere else occurs
      in it exactly once. */
  lemma OccursOnce<T>(xs: seq<T>, k: int)
    requires 0 <= k < |xs|
    requires forall i :: 0 <= i < |xs| && i != k ==> xs[i] != xs[k]
    ensures multiset(xs)[xs[k]] == 1
  {
    MultisetWithout(xs, k);
    var rest := xs[..k] + xs[k+1..];
    forall i | 0 <= i < |rest|
      ensures rest[i] != xs[k]
    {
      if i < k { assert rest[i] == xs[i]; } else { assert rest[i] == xs[i + 1]; }
    }
    assert xs[k] !in rest;
  }

  /** Each distributor's block appears among the printed blocks; when the
      distributors' names are pairwise distinct, it is printed exactly once. */
  lemma EveryDistributorPrinted(printed: seq<Block>, ds: seq<Distributor>, cities: seq<City>, k: int)
    requires multiset(printed) == multiset(Report(ds, cities))
    requires 0 <= k < |ds|
    ensures Evaluation(ds[k], cities) in printed
    ensures (forall i, j :: 0 <= i < j < |ds| ==> ds[i].name != ds[j].name) ==>
            multiset(printed)[Evaluation(ds[k], cities)] == 1
  {
    var report := Report(ds, cities);
    assert report[k] == Evaluation(ds[k], cities);
    assert report[k] in multiset(report);
    if forall i, j :: 0 <= i < j < |ds| ==> ds[i].name != ds[j].name {
      forall i | 0 <= i < |report| && i != k
        ensures report[i] != report[k]
      {
        assert report[i].distributor == ds[i].name;
        assert report[k].distributor == ds[k].name;
        if i < k { assert ds[i].name != ds[k].name; } else { assert ds[k].name != ds[i].name; }
      }
      OccursOnce(report, k);
    }
  }
}
