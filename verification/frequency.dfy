/**
  The frequency table written at the end of a crawl: a `Counter` over the
  accumulated keyword list, turned into (keyword, count) rows in the
  counter's insertion order, then sorted by count, largest first. The sort
  is not stable, so nothing is claimed about the order of equal counts.
 */
module Frequency {
  import opened Seqs

  /** One output row: a keyword and how often it occurs. */
  datatype Row = Row(keyword: string, count: nat)

  /**
    A `Counter`: a dictionary from keyword to count that remembers the order
    in which keywords were first inserted.
   */
  datatype Counter = Counter(order: seq<string>, counts: map<string, nat>)

  /** The dictionary invariant: `order` lists each key of `counts` exactly once, and nothing else. */
  ghost predicate Valid(c: Counter) {
    forall k :: multiset(c.order)[k] == (if k in c.counts then 1 else 0)
  }

  /** Every key in the insertion order has a count. */
  ghost predicate Counted(c: Counter) {
    forall k :: k in c.order ==> k in c.counts
  }

  /** A valid counter's insertion order holds exactly its keys, none twice. */
  lemma ValidIsCounted(c: Counter)
    requires Valid(c)
    ensures Counted(c)
    ensures forall k :: k in c.counts ==> k in c.order
    ensures Distinct(c.order)
  {
    forall k
      ensures k in c.order <==> k in c.counts
    {
      assert k in c.order <==> k in multiset(c.order);
    }
    AtMostOnceIsDistinct(c.order);
  }

  /** A counter's count for `k`; a missing key counts zero. */
  function Get(c: Counter, k: string): nat {
    if k in c.counts then c.counts[k] else 0
  }

  /**
    Counting one more occurrence of `k`: its count goes up by one, no other
    count changes, and a key seen for the first time goes to the end.
   */
  function Add(c: Counter, k: string): (r: Counter)
    ensures forall key :: Get(r, key) == Get(c, key) + (if key == k then 1 else 0)
    ensures k in c.counts ==> r.order == c.order
    ensures k !in c.counts ==> r.order == c.order + [k]
    ensures Valid(c) ==> Valid(r)
    ensures Counted(c) ==> Counted(r)
  {
    if k in c.counts then Counter(c.order, c.counts[k := c.counts[k] + 1])
    else Counter(c.order + [k], c.counts[k := 1])
  }

  /**
    `Counter(kws)`: counting every keyword of the list in turn. The count of
    each keyword is its number of occurrences, and the keys are exactly the
    keywords that occur.
   */
  function Tally(kws: seq<string>): (c: Counter)
    ensures Valid(c) && Counted(c)
    ensures forall k :: Get(c, k) == multiset(kws)[k]
    ensures forall k :: k in c.counts <==> k in kws
    decreases |kws|
  {
    if kws == [] then Counter([], map[])
    else
      assert kws == kws[..|kws| - 1] + [kws[|kws| - 1]];
      Add(Tally(kws[..|kws| - 1]), kws[|kws| - 1])
  }

  /** The rows for the keys `order`, each paired with its count in `counts`. */
  function RowsOf(order: seq<string>, counts: map<string, nat>): (rows: seq<Row>)
    requires forall k :: k in order ==> k in counts
    ensures |rows| == |order| && forall i :: 0 <= i < |order| ==> rows[i] == Row(order[i], counts[order[i]])
  {
    seq(|order|, i requires 0 <= i < |order| => Row(order[i], counts[order[i]]))
  }

  /** `counter.items()`: the counter's rows in insertion order, each with the key's count. */
  function Items(c: Counter): (rows: seq<Row>)
    requires Counted(c)
    ensures |rows| == |c.order|
    ensures forall i :: 0 <= i < |rows| ==> rows[i].keyword == c.order[i] && rows[i].count == Get(c, c.order[i])
  {
    RowsOf(c.order, c.counts)
  }

  /** The total of the count column. */
  function Sum(rows: seq<Row>): nat
    decreases |rows|
  {
    if rows == [] then 0 else rows[0].count + Sum(rows[1..])
  }

  /** Adding a row at the end adds its count to the total. */
  lemma {:induction false} SumAppend(rows: seq<Row>, x: Row)
    ensures Sum(rows + [x]) == Sum(rows) + x.count
    decreases |rows|
  {
    if rows == [] {
      assert rows + [x] == [x];
    } else {
      assert (rows + [x])[1..] == rows[1..] + [x];
      SumAppend(rows[1..], x);
    }
  }

  /** The total of two tables laid end to end is the sum of their totals. */
  lemma {:induction false} SumConcat(a: seq<Row>, b: seq<Row>)
    ensures Sum(a + b) == Sum(a) + Sum(b)
    decreases |a|
  {
    if a != [] {
      assert (a + b)[1..] == a[1..] + b;
      SumConcat(a[1..], b);
    } else {
      assert a + b == b;
    }
  }

  /** Any reordering of a table keeps the total of its count column. */
  lemma {:induction false} PermutedSum(a: seq<Row>, b: seq<Row>)
    requires multiset(a) == multiset(b)
    ensures Sum(a) == Sum(b)
    decreases |a|
  {
    if a != [] {
      assert a[0] in multiset(b);
      var j :| 0 <= j < |b| && b[j] == a[0];
      var rest := b[..j] + b[j + 1..];
      assert b == b[..j] + [b[j]] + b[j + 1..];
      assert a == [a[0]] + a[1..];
      assert multiset(b) == multiset(rest) + multiset{a[0]};
      assert multiset(a) == multiset(a[1..]) + multiset{a[0]};
      assert multiset(a[1..]) == multiset(a) - multiset{a[0]} == multiset(b) - multiset{a[0]} == multiset(rest);
      PermutedSum(a[1..], rest);
      SumConcat(b[..j] + [b[j]], b[j + 1..]);
      SumAppend(b[..j], b[j]);
      SumConcat(b[..j], b[j + 1..]);
    }
  }

  /** Raising the count of `k` by one raises the total by the number of rows keyed `k`. */
  lemma {:induction false} SumBump(order: seq<string>, counts: map<string, nat>, k: string)
    requires forall key :: key in order ==> key in counts
    requires k in counts
    ensures Sum(RowsOf(order, counts[k := counts[k] + 1])) == Sum(RowsOf(order, counts)) + multiset(order)[k]
    decreases |order|
  {
    if order != [] {
      assert order == [order[0]] + order[1..];
      assert RowsOf(order, counts)[1..] == RowsOf(order[1..], counts);
      assert RowsOf(order, counts[k := counts[k] + 1])[1..] == RowsOf(order[1..], counts[k := counts[k] + 1]);
      SumBump(order[1..], counts, k);
    }
  }

  /** A key not among `order`, given count one and appended, adds one to the total. */
  lemma SumNewKey(order: seq<string>, counts: map<string, nat>, k: string)
    requires forall key :: key in order ==> key in counts
    requires k !in order
    ensures Sum(RowsOf(order + [k], counts[k := 1])) == Sum(RowsOf(order, counts)) + 1
  {
    assert RowsOf(order, counts[k := 1]) == RowsOf(order, counts);
    assert RowsOf(order + [k], counts[k := 1]) == RowsOf(order, counts) + [Row(k, 1)];
    SumAppend(RowsOf(order, counts), Row(k, 1));
  }

  /** Counting a keyword already present once adds one to the total of the counter's rows. */
  lemma AddSumPresent(c: Counter, k: string)
    requires Counted(c) && k in c.counts && multiset(c.order)[k] == 1
    ensures Sum(Items(Add(c, k))) == Sum(Items(c)) + 1
  {
    var counts := c.counts[k := c.counts[k] + 1];
    calc {
      Sum(Items(Add(c, k)));
      Sum(RowsOf(c.order, counts));
      { SumBump(c.order, c.counts, k); }
      Sum(RowsOf(c.order, c.counts)) + 1;
    }
  }

  /** Counting a keyword seen for the first time adds a row with count one. */
  lemma AddSumAbsent(c: Counter, k: string)
    requires Counted(c) && k !in c.counts && k !in c.order
    ensures Sum(Items(Add(c, k))) == Sum(Items(c)) + 1
  {
    assert Items(Add(c, k)) == RowsOf(c.order + [k], c.counts[k := 1]);
    SumNewKey(c.order, c.counts, k);
  }

  /** Counting one more occurrence adds one to the total of the counter's rows. */
  lemma AddSum(c: Counter, k: string)
    requires Valid(c)
    ensures Sum(Items(Add(c, k))) == Sum(Items(c)) + 1
  {
    ValidIsCounted(c);
    if k in c.counts {
      assert multiset(c.order)[k] == 1;
      AddSumPresent(c, k);
    } else {
      assert multiset(c.order)[k] == 0;
      AddSumAbsent(c, k);
    }
  }

  /** The counts of `Counter(kws)` add up to the length of `kws`. */
  lemma {:induction false} TallySum(kws: seq<string>)
    ensures Sum(Items(Tally(kws))) == |kws|
    decreases |kws|
  {
    if kws != [] {
      TallySum(kws[..|kws| - 1]);
      AddSum(Tally(kws[..|kws| - 1]), kws[|kws| - 1]);
    }
  }

  /** Rows in order of non-increasing count. */
  ghost predicate SortedDesc(rows: seq<Row>) {
    forall i, j :: 0 <= i < j < |rows| ==> rows[i].count >= rows[j].count
  }

  /** A row whose count is at least the head's can go in front of a sorted table. */
  lemma SortedCons(x: Row, s: seq<Row>)
    ensures SortedDesc(s) && (s == [] || s[0].count <= x.count) ==> SortedDesc([x] + s)
  {
    if s != [] && SortedDesc(s) {
      assert forall j :: 0 <= j < |s| ==> s[0].count >= s[j].count;
    }
  }

  /** Inserting a row into a table sorted by descending count keeps it sorted and adds just that row. */
  function InsertDesc(x: Row, s: seq<Row>): (r: seq<Row>)
    ensures SortedDesc(s) ==> SortedDesc(r)
    ensures multiset(r) == multiset(s) + multiset{x}
    ensures r[0] == x || (0 < |s| && r[0] == s[0])
    decreases |s|
  {
    if s == [] then [x]
    else if s[0].count <= x.count then
      SortedCons(x, s);
      [x] + s
    else
      var rest := InsertDesc(x, s[1..]);
      assert s == [s[0]] + s[1..];
      SortedCons(s[0], rest);
      [s[0]] + rest
  }

  /** Inserting a row adds its count to the total. */
  lemma {:induction false} InsertDescSum(x: Row, s: seq<Row>)
    ensures Sum(InsertDesc(x, s)) == Sum(s) + x.count
    decreases |s|
  {
    if s == [] {
    } else if s[0].count <= x.count {
      assert ([x] + s)[1..] == s;
    } else {
      var rest := InsertDesc(x, s[1..]);
      InsertDescSum(x, s[1..]);
      assert ([s[0]] + rest)[1..] == rest;
    }
  }

  /**
    `sort_values(ascending=False)` on the count column: a permutation of the
    rows in order of non-increasing count.
   */
  function SortDesc(rows: seq<Row>): (r: seq<Row>)
    ensures SortedDesc(r)
    ensures multiset(r) == multiset(rows)
    decreases |rows|
  {
    if rows == [] then []
    else
      assert rows == [rows[0]] + rows[1..];
      InsertDesc(rows[0], SortDesc(rows[1..]))
  }

  /** Sorting keeps the total of the count column. */
  lemma {:induction false} SortDescSum(rows: seq<Row>)
    ensures Sum(SortDesc(rows)) == Sum(rows)
    decreases |rows|
  {
    if rows != [] {
      SortDescSum(rows[1..]);
      InsertDescSum(rows[0], SortDesc(rows[1..]));
    }
  }

  /** The rows of a counter whose keys are distinct are themselves distinct. */
  lemma ItemsDistinct(c: Counter)
    requires Counted(c) && Distinct(c.order)
    ensures Distinct(Items(c))
  {
  }

  /** In any reordering of a counter's rows, each row holds its keyword's count. */
  lemma PermutedCounts(c: Counter, r: seq<Row>)
    requires Counted(c) && multiset(r) == multiset(Items(c))
    ensures forall i :: 0 <= i < |r| ==> r[i].count == Get(c, r[i].keyword)
  {
    forall i | 0 <= i < |r|
      ensures r[i].count == Get(c, r[i].keyword)
    {
      assert r[i] in multiset(Items(c));
    }
  }

  /** In any reordering of the rows of a counter with distinct keys, no keyword repeats. */
  lemma PermutedDistinct(c: Counter, r: seq<Row>)
    requires Counted(c) && Distinct(c.order) && multiset(r) == multiset(Items(c))
    ensures forall i, j :: 0 <= i < j < |r| ==> r[i].keyword != r[j].keyword
  {
    ItemsDistinct(c);
    forall row
      ensures multiset(r)[row] <= 1
    {
      DistinctAtMostOnce(Items(c), row);
    }
    AtMostOnceIsDistinct(r);
    PermutedCounts(c, r);
  }

  /** Any reordering of a counter's rows has a row for exactly the counter's keys. */
  lemma PermutedKeys(c: Counter, r: seq<Row>)
    requires Counted(c) && multiset(r) == multiset(Items(c))
    ensures forall k :: k in c.order <==> exists i :: 0 <= i < |r| && r[i].keyword == k
  {
    var items := Items(c);
    forall k | k in c.order
      ensures exists i :: 0 <= i < |r| && r[i].keyword == k
    {
      var p :| 0 <= p < |c.order| && c.order[p] == k;
      assert items[p] in multiset(r);
      var i :| 0 <= i < |r| && r[i] == items[p];
    }
    forall i | 0 <= i < |r|
      ensures r[i].keyword in c.order
    {
      assert r[i] in multiset(items);
      var p :| 0 <= p < |items| && items[p] == r[i];
    }
  }

  /**
    The frequency table of a keyword list: one row per distinct keyword,
    holding its number of occurrences, every occurring keyword present, the
    counts adding up to the list's length, and rows by non-increasing count.
   */
  function Ranking(kws: seq<string>): (r: seq<Row>)
    ensures SortedDesc(r)
    ensures forall i :: 0 <= i < |r| ==> r[i].count == multiset(kws)[r[i].keyword]
    ensures forall i, j :: 0 <= i < j < |r| ==> r[i].keyword != r[j].keyword
    ensures forall k :: k in kws <==> exists i :: 0 <= i < |r| && r[i].keyword == k
    ensures Sum(r) == |kws|
    ensures multiset(r) == multiset(Items(Tally(kws)))
  {
    var c := Tally(kws);
    var items := Items(c);
    var r := SortDesc(items);
    ValidIsCounted(c);
    TallySum(kws);
    PermutedSum(items, r);
    PermutedCounts(c, r);
    PermutedDistinct(c, r);
    PermutedKeys(c, r);
    r
  }
}
