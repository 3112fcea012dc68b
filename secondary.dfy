/** The regrouping loop of `ProteinStructureAnalyzer.analyze_secondary_structure`:
    the per-residue rows that DSSP yields are gathered into a dictionary from
    the row's first field (`residue[0]`, named `chain_id` in the source) to the
    list of the rows' secondary-structure codes (`residue[2]`). */
module SecondaryStructure {

  /** The codes of the rows keyed `chain`, in input order. */
  function Codes<K(==), V>(rows: seq<(K, V)>, chain: K): seq<V>
    decreases |rows|
  {
    if rows == [] then []
    else
      var last := rows[|rows| - 1];
      Codes(rows[..|rows| - 1], chain) + if last.0 == chain then [last.1] else []
  }

  /** The keys that occur in the rows. */
  function Chains<K, V>(rows: seq<(K, V)>): set<K> {
    set i | 0 <= i < |rows| :: rows[i].0
  }

  /** The keys in order of first appearance: the key order of the Python
      dictionary the loop builds. */
  function ChainsInOrder<K(==), V>(rows: seq<(K, V)>): seq<K>
    decreases |rows|
  {
    if rows == [] then []
    else
      var order := ChainsInOrder(rows[..|rows| - 1]);
      var c := rows[|rows| - 1].0;
      if c in order then order else order + [c]
  }

  /** Builds the dictionary with the loop the source uses: a key is added with
      an empty list the first time it is seen, and every row appends its code
      to its key's list. The lists of the keys, taken in the dictionary's own
      order (which names each key once, see `ChainsInOrderFacts`), hold one
      code per row. */
  method GroupByChain<K(==), V>(rows: seq<(K, V)>) returns (ssData: map<K, seq<V>>)
    ensures ssData.Keys == Chains(rows)
    ensures forall c :: c in ssData ==> ssData[c] == Codes(rows, c)
    ensures Total(ChainsInOrder(rows), ssData) == |rows|
  {
    ssData := map[];
    for i := 0 to |rows|
      invariant ssData.Keys == Chains(rows[..i])
      invariant forall c :: c in ssData ==> ssData[c] == Codes(rows[..i], c)
    {
      var (chainId, ssType) := rows[i];
      ChainsInOrderFacts(rows[..i]);
      if chainId !in ssData {
        ssData := ssData[chainId := []];
      }
      ssData := ssData[chainId := ssData[chainId] + [ssType]];
      assert rows[..i + 1][..i] == rows[..i];
      assert forall c :: Codes(rows[..i + 1], c) == Codes(rows[..i], c) + if c == chainId then [ssType] else [];
      assert Chains(rows[..i + 1]) == Chains(rows[..i]) + {chainId} by {
        assert rows[..i + 1][i].0 == chainId;
      }
    }
    assert rows[..|rows|] == rows;
    GroupedTotal(rows, ssData);
  }

  /** A key never appears twice in `order`. */
  predicate Distinct<K(==)>(order: seq<K>) {
    forall i, j :: 0 <= i < j < |order| ==> order[i] != order[j]
  }

  /** The ordered keys are exactly the keys of the rows, each once; and a key
      that does not occur has no codes. */
  lemma {:induction false} ChainsInOrderFacts<K, V>(rows: seq<(K, V)>)
    ensures Distinct(ChainsInOrder(rows))
    ensures forall c :: c in ChainsInOrder(rows) <==> c in Chains(rows)
    ensures forall c :: c !in Chains(rows) ==> Codes(rows, c) == []
    decreases |rows|
  {
    if rows != [] {
      var init := rows[..|rows| - 1];
      ChainsInOrderFacts(init);
      assert Chains(rows) == Chains(init) + {rows[|rows| - 1].0} by {
        forall c | c in Chains(rows) ensures c in Chains(init) + {rows[|rows| - 1].0} {
          var i :| 0 <= i < |rows| && rows[i].0 == c;
          if i < |rows| - 1 { assert init[i] == rows[i]; }
        }
        forall c | c in Chains(init) ensures c in Chains(rows) {
          var i :| 0 <= i < |init| && init[i].0 == c;
          assert rows[i] == init[i];
        }
      }
    }
  }

  /** The total length of the code lists of the keys in `order`. */
  function SumLengths<K(==), V>(order: seq<K>, rows: seq<(K, V)>): nat
    decreases |order|
  {
    if order == [] then 0
    else SumLengths(order[..|order| - 1], rows) + |Codes(rows, order[|order| - 1])|
  }

  /** The lists together hold every row's code exactly once: their lengths
      add up to the number of rows. */
  lemma {:induction false} GroupedLengthsSum<K, V>(rows: seq<(K, V)>)
    ensures SumLengths(ChainsInOrder(rows), rows) == |rows|
    decreases |rows|
  {
    if rows != [] {
      var init := rows[..|rows| - 1];
      var c := rows[|rows| - 1].0;
      var order := ChainsInOrder(init);
      GroupedLengthsSum(init);
      ChainsInOrderFacts(init);
      SumLengthsSnoc(order, rows);
      if c !in order {
        assert ChainsInOrder(rows) == order + [c];
        assert (order + [c])[..|order|] == order;
        assert Codes(rows, c) == Codes(init, c) + [rows[|rows| - 1].1];
      }
    }
  }

  /** The total length of the lists `m` holds for the keys in `order`. */
  function Total<K(==), V>(order: seq<K>, m: map<K, seq<V>>): nat
    decreases |order|
  {
    if order == [] then 0
    else
      var c := order[|order| - 1];
      Total(order[..|order| - 1], m) + if c in m then |m[c]| else 0
  }

  /** A dictionary from each occurring key to its codes, the dictionary
      `GroupByChain` returns, holds one code per row in all. */
  lemma GroupedTotal<K, V>(rows: seq<(K, V)>, m: map<K, seq<V>>)
    requires m.Keys == Chains(rows)
    requires forall c :: c in m ==> m[c] == Codes(rows, c)
    ensures Total(ChainsInOrder(rows), m) == |rows|
  {
    var order := ChainsInOrder(rows);
    forall c | c in order ensures c in m && m[c] == Codes(rows, c) {
      OrderedKeyOccurs(rows, c);
    }
    TotalIsSumLengths(order, m, rows);
    GroupedLengthsSum(rows);
  }

  /** A key of the first-seen order occurs in the rows. */
  lemma OrderedKeyOccurs<K, V>(rows: seq<(K, V)>, c: K)
    requires c in ChainsInOrder(rows)
    ensures c in Chains(rows)
  {
    ChainsInOrderFacts(rows);
  }

  /** A dictionary holding each key's codes has the totals of the codes. */
  lemma {:induction false} TotalIsSumLengths<K, V>(order: seq<K>, m: map<K, seq<V>>, rows: seq<(K, V)>)
    requires forall c :: c in order ==> c in m && m[c] == Codes(rows, c)
    ensures Total(order, m) == SumLengths(order, rows)
    decreases |order|
  {
    if order != [] {
      TotalIsSumLengths(order[..|order| - 1], m, rows);
    }
  }

  /** Adding a row adds one to the total of a key list that holds its key once. */
  lemma {:induction false} SumLengthsSnoc<K, V>(order: seq<K>, rows: seq<(K, V)>)
    requires rows != [] && Distinct(order)
    ensures SumLengths(order, rows) ==
      SumLengths(order, rows[..|rows| - 1]) + if rows[|rows| - 1].0 in order then 1 else 0
    decreases |order|
  {
    if order != [] {
      var init := order[..|order| - 1];
      assert Distinct(init);
      SumLengthsSnoc(init, rows);
      assert rows[|rows| - 1].0 in order <==> rows[|rows| - 1].0 in init || rows[|rows| - 1].0 == order[|order| - 1];
      assert order[|order| - 1] !in init;
    }
  }
}
