/**
 * The filter-parameter space swept by the harvester (generate_param_combinations):
 * an ordered grid of dimensions, each with a finite list of values, enumerated as the
 * cartesian product in itertools.product order, each point turned into a dict by zip.
 */
module Params {

  /** A value of one filter dimension; `NoConstraint` stands for Python's None. */
  datatype ParamValue =
    | NoConstraint
    | Text(s: string)
    | Number(n: int)
    | TextList(items: seq<string>)

  /** One query: filter-dimension name to selected value (a Python dict). */
  type ParamSet = map<string, ParamValue>

  // ---------------------------------------------------------------------------
  // itertools.product
  // ---------------------------------------------------------------------------

  /** `v` prepended to every tail, in order. */
  function ConsAll<V>(v: V, tails: seq<seq<V>>): seq<seq<V>>
  {
    seq(|tails|, j requires 0 <= j < |tails| => [v] + tails[j])
  }

  /** One block per value of `d`, in the order of `d`; within a block, `tails` in order. */
  function Blocks<V>(d: seq<V>, tails: seq<seq<V>>): seq<seq<V>>
  {
    if |d| == 0 then [] else ConsAll(d[0], tails) + Blocks(d[1..], tails)
  }

  /** itertools.product(*domains): the first domain varies slowest, the last fastest. */
  function Product<V>(domains: seq<seq<V>>): seq<seq<V>>
  {
    if |domains| == 0 then [[]] else Blocks(domains[0], Product(domains[1..]))
  }

  /** Product of the domain sizes. */
  function Size<V>(domains: seq<seq<V>>): nat
  {
    if |domains| == 0 then 1 else |domains[0]| * Size(domains[1..])
  }

  /** `t` picks, position by position, one value of the matching domain. */
  predicate InDomains<V(==)>(domains: seq<seq<V>>, t: seq<V>)
  {
    |t| == |domains| && forall k :: 0 <= k < |t| ==> t[k] in domains[k]
  }

  /** No value is listed twice in one domain. */
  predicate Distinct<V(==)>(d: seq<V>)
  {
    forall i, j :: 0 <= i < j < |d| ==> d[i] != d[j]
  }

  predicate AllDistinct<V(==)>(domains: seq<seq<V>>)
  {
    forall k :: 0 <= k < |domains| ==> Distinct(domains[k])
  }

  /** Position of the first occurrence of `v` in `d`. */
  function IndexOf<V(==)>(d: seq<V>, v: V): (i: nat)
    requires v in d
    ensures i < |d| && d[i] == v
    ensures forall j :: 0 <= j < i ==> d[j] != v
  {
    if d[0] == v then 0 else 1 + IndexOf(d[1..], v)
  }

  /**
   * Position of a combination in itertools.product order, read as a mixed-radix number:
   * each position contributes the index of its value within its domain, weighted by the
   * number of combinations of the positions after it (the last position counts by ones).
   */
  function Rank<V(==)>(domains: seq<seq<V>>, t: seq<V>): nat
    requires InDomains(domains, t)
  {
    if |domains| == 0 then 0
    else
      assert t[0] in domains[0];
      assert InDomains(domains[1..], t[1..]) by { TailInDomains(domains, t); }
      IndexOf(domains[0], t[0]) * Size(domains[1..]) + Rank(domains[1..], t[1..])
  }

  lemma TailInDomains<V>(domains: seq<seq<V>>, t: seq<V>)
    requires |domains| > 0 && InDomains(domains, t)
    ensures InDomains(domains[1..], t[1..])
  {
    forall k | 0 <= k < |t| - 1 ensures t[1..][k] in domains[1..][k] {
      assert t[k + 1] in domains[k + 1];
    }
  }

  // ---------------------------------------------------------------------------
  // Arithmetic helpers for indexing into blocks
  // ---------------------------------------------------------------------------

  lemma MulStep(a: nat, n: nat)
    ensures (a + 1) * n == a * n + n
  {
  }

  lemma MulMono(a: nat, b: nat, n: nat)
    requires a <= b
    ensures a * n <= b * n
  {
    var c := b - a;
    assert b * n == a * n + c * n;
  }

  /** An index below `m * n` splits into a block below `m` and an offset below `n`. */
  lemma Split(i: nat, n: nat, m: nat) returns (a: nat, b: nat)
    requires i < m * n
    ensures i == a * n + b && a < m && b < n
  {
    a, b := i / n, i % n;
    if a >= m {
      MulMono(m, a, n);
    }
  }

  lemma MulAssoc(a: nat, b: nat, c: nat)
    ensures a * (b * c) == (a * b) * c
  {
  }

  lemma MulCombine(a: nat, c: nat, q: nat, n: nat, x: nat)
    ensures a * (c * n) + (q * n + x) == (a * c + q) * n + x
  {
    assert a * (c * n) == (a * c) * n;
    assert (a * c) * n + q * n == (a * c + q) * n;
  }

  lemma ModOfDecomposition(i: nat, q: nat, n: nat, x: nat)
    requires i == q * n + x && x < n
    ensures i % n == x
  {
    var q', x' := i / n, i % n;
    if q' < q {
      MulMono(q' + 1, q, n);
    } else if q < q' {
      MulMono(q + 1, q', n);
    }
  }

  // ---------------------------------------------------------------------------
  // Facts about Product
  // ---------------------------------------------------------------------------

  lemma {:induction false} BlocksLength<V>(d: seq<V>, tails: seq<seq<V>>)
    ensures |Blocks(d, tails)| == |d| * |tails|
  {
    if |d| > 0 {
      BlocksLength(d[1..], tails);
      MulStep(|d| - 1, |tails|);
    }
  }

  /** Element `a * |tails| + b` of the blocks is value `d[a]` followed by tail `b`. */
  lemma {:induction false} BlocksAt<V>(d: seq<V>, tails: seq<seq<V>>, a: nat, b: nat)
    requires a < |d| && b < |tails|
    ensures a * |tails| + b < |Blocks(d, tails)|
    ensures Blocks(d, tails)[a * |tails| + b] == [d[a]] + tails[b]
  {
    BlocksLength(d, tails);
    MulMono(a + 1, |d|, |tails|);
    MulStep(a, |tails|);
    if a > 0 {
      BlocksAt(d[1..], tails, a - 1, b);
      MulStep(a - 1, |tails|);
    }
  }

  /** Every value of `Blocks(d, tails)` starts with a value of `d` and ends with one of `tails`. */
  lemma {:induction false} BlocksMember<V>(d: seq<V>, tails: seq<seq<V>>, t: seq<V>)
    ensures t in Blocks(d, tails) <==> (|t| > 0 && t[0] in d && t[1..] in tails)
  {
    if |d| > 0 {
      BlocksMember(d[1..], tails, t);
      if |t| > 0 && t[0] == d[0] && t[1..] in tails {
        var j :| 0 <= j < |tails| && tails[j] == t[1..];
        assert ConsAll(d[0], tails)[j] == t;
      }
      if t in ConsAll(d[0], tails) {
        var j :| 0 <= j < |tails| && ConsAll(d[0], tails)[j] == t;
      }
    }
  }

  /** The number of combinations is the product of the domain sizes. */
  lemma {:induction false} ProductSize<V>(domains: seq<seq<V>>)
    ensures |Product(domains)| == Size(domains)
  {
    if |domains| > 0 {
      ProductSize(domains[1..]);
      BlocksLength(domains[0], Product(domains[1..]));
    }
  }

  /**
   * Exactly the tuples that take one value from each domain are produced: every yielded
   * combination is well-formed, and every well-formed combination is yielded.
   */
  lemma {:induction false} ProductMembers<V>(domains: seq<seq<V>>, t: seq<V>)
    ensures t in Product(domains) <==> InDomains(domains, t)
  {
    if |domains| == 0 {
      assert InDomains(domains, t) <==> t == [];
    } else {
      var rest := Product(domains[1..]);
      BlocksMember(domains[0], rest, t);
      if |t| > 0 {
        ProductMembers(domains[1..], t[1..]);
        if InDomains(domains, t) {
          TailInDomains(domains, t);
        }
        if t[0] in domains[0] && InDomains(domains[1..], t[1..]) {
          forall k | 0 <= k < |t| ensures t[k] in domains[k] {
            if k > 0 {
              assert t[1..][k - 1] in domains[1..][k - 1];
            }
          }
        }
      }
    }
  }

  /** The combination at index `a * n + b` is domain-0 value `a` followed by sub-combination `b`. */
  lemma ProductAt<V>(domains: seq<seq<V>>, a: nat, b: nat)
    requires |domains| > 0 && a < |domains[0]| && b < |Product(domains[1..])|
    ensures a * |Product(domains[1..])| + b < |Product(domains)|
    ensures Product(domains)[a * |Product(domains[1..])| + b] == [domains[0][a]] + Product(domains[1..])[b]
  {
    BlocksAt(domains[0], Product(domains[1..]), a, b);
  }

  lemma IndexOfDistinct<V>(d: seq<V>, a: nat)
    requires Distinct(d) && a < |d|
    ensures IndexOf(d, d[a]) == a
  {
  }

  lemma AllDistinctTail<V>(domains: seq<seq<V>>)
    requires |domains| > 0 && AllDistinct(domains)
    ensures AllDistinct(domains[1..])
  {
    forall k | 0 <= k < |domains| - 1 ensures Distinct(domains[1..][k]) {
      assert domains[1..][k] == domains[k + 1];
    }
  }

  /**
   * Enumeration order: the combination yielded at index `i` is the one of rank `i`, so the
   * first dimension varies slowest, the last fastest, and values follow domain order.
   */
  lemma {:induction false} ProductRank<V>(domains: seq<seq<V>>, i: nat)
    requires AllDistinct(domains)
    requires i < |Product(domains)|
    ensures InDomains(domains, Product(domains)[i])
    ensures Rank(domains, Product(domains)[i]) == i
  {
    var p := Product(domains);
    ProductMembers(domains, p[i]);
    if |domains| > 0 {
      var rest := Product(domains[1..]);
      var n := |rest|;
      BlocksLength(domains[0], rest);
      ProductSize(domains[1..]);
      var a, b := Split(i, n, |domains[0]|);
      ProductAt(domains, a, b);
      IndexOfDistinct(domains[0], a);
      AllDistinctTail(domains);
      ProductRank(domains[1..], b);
      assert p[i][1..] == rest[b];
    }
  }

  /** The number of combinations is a multiple of the size of the last domain. */
  lemma {:induction false} SizeByLast<V>(domains: seq<seq<V>>) returns (c: nat)
    requires |domains| > 0
    ensures Size(domains) == c * |domains[|domains| - 1]|
  {
    var last := |domains[|domains| - 1]|;
    if |domains| == 1 {
      c := 1;
      assert domains[1..] == [];
    } else {
      var c' := SizeByLast(domains[1..]);
      assert domains[1..][|domains| - 2] == domains[|domains| - 1];
      c := |domains[0]| * c';
      MulAssoc(|domains[0]|, c', last);
    }
  }

  lemma RankUnfold<V>(domains: seq<seq<V>>, t: seq<V>)
    requires |domains| > 0 && InDomains(domains, t)
    ensures t[0] in domains[0] && InDomains(domains[1..], t[1..])
    ensures Rank(domains, t) == IndexOf(domains[0], t[0]) * Size(domains[1..]) + Rank(domains[1..], t[1..])
  {
    TailInDomains(domains, t);
  }

  /** The rank's last digit is the index of the last value in the last domain. */
  lemma {:induction false} RankByLast<V>(domains: seq<seq<V>>, t: seq<V>) returns (q: nat)
    requires |domains| > 0 && InDomains(domains, t)
    ensures t[|t| - 1] in domains[|domains| - 1]
    ensures Rank(domains, t) == q * |domains[|domains| - 1]| + IndexOf(domains[|domains| - 1], t[|t| - 1])
  {
    var n := |domains|;
    assert t[n - 1] in domains[n - 1];
    RankUnfold(domains, t);
    if n == 1 {
      q := 0;
      assert domains[1..] == [];
    } else {
      var q' := RankByLast(domains[1..], t[1..]);
      var c := SizeByLast(domains[1..]);
      assert domains[1..][n - 2] == domains[n - 1] && t[1..][n - 2] == t[n - 1];
      var a := IndexOf(domains[0], t[0]);
      q := a * c + q';
      MulCombine(a, c, q', |domains[n - 1]|, IndexOf(domains[n - 1], t[n - 1]));
    }
  }

  /** The last dimension varies fastest: its value at index `i` is number `i % |last|` of its domain. */
  lemma LastVariesFastest<V>(domains: seq<seq<V>>, i: nat)
    requires AllDistinct(domains) && |domains| > 0
    requires i < |Product(domains)|
    ensures |Product(domains)[i]| == |domains| && |domains[|domains| - 1]| > 0
    ensures Product(domains)[i][|domains| - 1] == domains[|domains| - 1][i % |domains[|domains| - 1]|]
  {
    var t := Product(domains)[i];
    var last := domains[|domains| - 1];
    ProductRank(domains, i);
    var q := RankByLast(domains, t);
    var x := IndexOf(last, t[|t| - 1]);
    ModOfDecomposition(i, q, |last|, x);
  }

  /** No combination is yielded twice. */
  lemma ProductDistinct<V>(domains: seq<seq<V>>, i: nat, j: nat)
    requires AllDistinct(domains)
    requires i < j < |Product(domains)|
    ensures Product(domains)[i] != Product(domains)[j]
  {
    ProductRank(domains, i);
    ProductRank(domains, j);
  }

  // ---------------------------------------------------------------------------
  // dict(zip(keys, values))
  // ---------------------------------------------------------------------------

  /**
   * dict(zip(keys, values)): pairs up to the shorter length; for a repeated key the
   * later pair wins, as in a dict built from a sequence of pairs.
   */
  function Zip<K, V>(keys: seq<K>, values: seq<V>): map<K, V>
  {
    if |keys| == 0 || |values| == 0 then map[]
    else
      var m := Zip(keys[1..], values[1..]);
      if keys[0] in m then m else m[keys[0] := values[0]]
  }

  /** Reads the values of `keys`, in order, back out of a dict. */
  function Lookup<K, V>(keys: seq<K>, m: map<K, V>): seq<V>
    requires forall k :: k in keys ==> k in m
  {
    seq(|keys|, i requires 0 <= i < |keys| => m[keys[i]])
  }

  lemma {:induction false} ZipKeys<K, V>(keys: seq<K>, values: seq<V>)
    requires |keys| == |values|
    ensures Zip(keys, values).Keys == set k | k in keys
  {
    if |keys| > 0 {
      ZipKeys(keys[1..], values[1..]);
      assert forall k :: k in keys <==> k == keys[0] || k in keys[1..];
    }
  }

  /** With distinct keys, each key maps to the value at its own position. */
  lemma {:induction false} ZipAt<K, V>(keys: seq<K>, values: seq<V>, i: nat)
    requires Distinct(keys) && |keys| == |values| && i < |keys|
    ensures keys[i] in Zip(keys, values) && Zip(keys, values)[keys[i]] == values[i]
  {
    var m := Zip(keys[1..], values[1..]);
    ZipKeys(keys[1..], values[1..]);
    if i == 0 {
      assert keys[0] !in keys[1..];
    } else {
      ZipAt(keys[1..], values[1..], i - 1);
    }
  }

  /** Reading the keys back out of the zipped dict gives the tuple that went in. */
  lemma ZipLookup<K, V>(keys: seq<K>, values: seq<V>)
    requires Distinct(keys) && |keys| == |values|
    ensures forall k :: k in keys ==> k in Zip(keys, values)
    ensures Lookup(keys, Zip(keys, values)) == values
  {
    ZipKeys(keys, values);
    forall i | 0 <= i < |keys| ensures Zip(keys, values)[keys[i]] == values[i] {
      ZipAt(keys, values, i);
    }
  }

  // ---------------------------------------------------------------------------
  // The grid and generate_param_combinations
  // ---------------------------------------------------------------------------

  type Grid = seq<(string, seq<ParamValue>)>

  function GridKeys(grid: Grid): seq<string>
  {
    seq(|grid|, i requires 0 <= i < |grid| => grid[i].0)
  }

  function GridDomains(grid: Grid): seq<seq<ParamValue>>
  {
    seq(|grid|, i requires 0 <= i < |grid| => grid[i].1)
  }

  /** Every point of the product of the grid's domains, zipped with the grid's keys. */
  function Combinations(grid: Grid): seq<ParamSet>
  {
    var p := Product(GridDomains(grid));
    seq(|p|, i requires 0 <= i < |p| => Zip(GridKeys(grid), p[i]))
  }

  const Address := "1d1463ae-c80f-4d19-9331-a1b68a85b553"

  /** param_grid, in declaration order (dicts keep insertion order). */
  const ParamGrid: Grid := [
    ("address", [Text(Address)]),
    ("deal_type", [Text("sale")]),
    ("category", [Text("living")]),
    ("offer_type", [TextList(["flat"]), TextList(["layout"])]),
    ("rooms", [NoConstraint, Text("st"), Text("1"), Text("2"), Text("3"), Text("4+")]),
    ("time_on_foot__lte", [NoConstraint, Number(5), Number(10), Number(15), Number(20)]),
    ("time_by_car__lte", [NoConstraint, Number(5), Number(10), Number(15), Number(20)])
  ]

  function GenerateParamCombinations(): seq<ParamSet>
  {
    Combinations(ParamGrid)
  }

  /** One dict per point of the product: as many as the product of the value-list sizes. */
  lemma CombinationsCount(grid: Grid)
    ensures |Combinations(grid)| == Size(GridDomains(grid))
  {
    ProductSize(GridDomains(grid));
  }

  /** Combinations of a grid with distinct keys: count, shape and values of every dict. */
  lemma CombinationsShape(grid: Grid, i: nat)
    requires Distinct(GridKeys(grid))
    requires i < |Combinations(grid)|
    ensures |Combinations(grid)| == Size(GridDomains(grid))
    ensures Combinations(grid)[i].Keys == set k | k in GridKeys(grid)
    ensures forall k :: 0 <= k < |grid| ==>
      grid[k].0 in Combinations(grid)[i] && Combinations(grid)[i][grid[k].0] in grid[k].1
  {
    var ds := GridDomains(grid);
    var p := Product(ds);
    ProductSize(ds);
    ProductMembers(ds, p[i]);
    ZipKeys(GridKeys(grid), p[i]);
    forall k | 0 <= k < |grid|
      ensures grid[k].0 in Combinations(grid)[i] && Combinations(grid)[i][grid[k].0] in grid[k].1
    {
      ZipAt(GridKeys(grid), p[i], k);
    }
  }

  /** Every dict that gives each key one value from its domain is yielded. */
  lemma CombinationsComplete(grid: Grid, t: seq<ParamValue>)
    requires InDomains(GridDomains(grid), t)
    ensures Zip(GridKeys(grid), t) in Combinations(grid)
  {
    var p := Product(GridDomains(grid));
    ProductMembers(GridDomains(grid), t);
    var i :| 0 <= i < |p| && p[i] == t;
    assert Combinations(grid)[i] == Zip(GridKeys(grid), t);
  }

  /**
   * For a grid with distinct keys and distinct values per key, the dict at index `i` has
   * all the keys, its values read back in key order have rank `i`, and no dict repeats.
   */
  lemma CombinationsRank(grid: Grid, i: nat)
    requires Distinct(GridKeys(grid)) && AllDistinct(GridDomains(grid))
    requires i < |Combinations(grid)|
    ensures forall k :: k in GridKeys(grid) ==> k in Combinations(grid)[i]
    ensures InDomains(GridDomains(grid), Lookup(GridKeys(grid), Combinations(grid)[i]))
    ensures Rank(GridDomains(grid), Lookup(GridKeys(grid), Combinations(grid)[i])) == i
  {
    var p := Product(GridDomains(grid));
    ProductRank(GridDomains(grid), i);
    ZipLookup(GridKeys(grid), p[i]);
  }

  lemma CombinationsDistinct(grid: Grid, i: nat, j: nat)
    requires Distinct(GridKeys(grid)) && AllDistinct(GridDomains(grid))
    requires i < j < |Combinations(grid)|
    ensures Combinations(grid)[i] != Combinations(grid)[j]
  {
    CombinationsRank(grid, i);
    CombinationsRank(grid, j);
  }

  /** The seven keys of the grid, in declaration order. */
  const ParamKeys: seq<string> := ["address", "deal_type", "category", "offer_type", "rooms",
                                   "time_on_foot__lte", "time_by_car__lte"]

  /** The grid's keys are distinct, and so are the values listed for each key. */
  lemma GridDistinct()
    ensures GridKeys(ParamGrid) == ParamKeys
    ensures Distinct(GridKeys(ParamGrid)) && AllDistinct(GridDomains(ParamGrid))
  {
    var ds := GridDomains(ParamGrid);
    forall k | 0 <= k < 7 ensures Distinct(ds[k]) {
      assert ds[k] == ParamGrid[k].1;
    }
  }

  /** The concrete grid spans 1*1*1*2*6*5*5 = 300 combinations. */
  lemma GridSize()
    ensures Size(GridDomains(ParamGrid)) == 300
  {
    var ds := GridDomains(ParamGrid);
    assert |ds| == 7;
    assert |ds[0]| == 1 && |ds[1]| == 1 && |ds[2]| == 1 && |ds[3]| == 2;
    assert |ds[4]| == 6 && |ds[5]| == 5 && |ds[6]| == 5;
    assert Size(ds[7..]) == 1;
    assert Size(ds[6..]) == 5;
    assert Size(ds[5..]) == 25;
    assert Size(ds[4..]) == 150;
    assert Size(ds[3..]) == 300;
    assert Size(ds[2..]) == 300;
    assert Size(ds[1..]) == 300;
  }

  /** generate_param_combinations yields 300 dicts. */
  lemma GeneratedCount()
    ensures |GenerateParamCombinations()| == 300
  {
    GridSize();
    CombinationsCount(ParamGrid);
  }

  /**
   * generate_param_combinations yields 300 dicts, each with exactly the seven keys of the
   * grid and, under each key, one of the values listed for it.
   */
  lemma GeneratedShape(i: nat)
    requires i < |GenerateParamCombinations()|
    ensures |GenerateParamCombinations()| == 300
    ensures GenerateParamCombinations()[i].Keys == set k | k in ParamKeys
    ensures forall k :: 0 <= k < |ParamGrid| ==> GenerateParamCombinations()[i][ParamKeys[k]] in ParamGrid[k].1
  {
    GridDistinct();
    GridSize();
    CombinationsShape(ParamGrid, i);
  }

  /**
   * generate_param_combinations yields the dicts in itertools.product order: the dict at
   * index `i` has rank `i`, so `address` varies slowest and `time_by_car__lte` fastest.
   */
  lemma GeneratedRank(i: nat)
    requires i < |GenerateParamCombinations()|
    ensures forall k :: k in ParamKeys ==> k in GenerateParamCombinations()[i]
    ensures InDomains(GridDomains(ParamGrid), Lookup(ParamKeys, GenerateParamCombinations()[i]))
    ensures Rank(GridDomains(ParamGrid), Lookup(ParamKeys, GenerateParamCombinations()[i])) == i
  {
    GridDistinct();
    CombinationsRank(ParamGrid, i);
  }

  /** generate_param_combinations never yields the same dict twice. */
  lemma GeneratedDistinct(i: nat, j: nat)
    requires i < j < |GenerateParamCombinations()|
    ensures GenerateParamCombinations()[i] != GenerateParamCombinations()[j]
  {
    GridDistinct();
    CombinationsDistinct(ParamGrid, i, j);
  }

  /** `time_by_car__lte` varies fastest: at index `i` it takes value number `i % 5` of its list. */
  lemma GeneratedLastFastest(i: nat)
    requires i < |GenerateParamCombinations()|
    ensures "time_by_car__lte" in GenerateParamCombinations()[i]
    ensures GenerateParamCombinations()[i]["time_by_car__lte"] == ParamGrid[6].1[i % 5]
  {
    GridDistinct();
    var ds := GridDomains(ParamGrid);
    var t := Product(ds)[i];
    LastVariesFastest(ds, i);
    ProductMembers(ds, t);
    ZipAt(GridKeys(ParamGrid), t, 6);
  }
}
