/**
 * The dashboard of app.py: the total profit over all sales, and per
 * (species, purchased variation, sold variation) the summed weight, revenue
 * and profit of the sales made under that mapping.
 */
module Dashboard {
  import opened Models

  /** The grouping key `(species.name, purchase_variation.name, sold_variation.name)`. */
  datatype Key = Key(species: string, purchaseVariation: string, soldVariation: string)

  /** The per-mapping record `{'weight': .., 'revenue': .., 'profit': ..}`. */
  datatype Totals = Totals(weight: real, revenue: real, profit: real)

  const Zero := Totals(0.0, 0.0, 0.0)

  function Add(a: Totals, b: Totals): Totals
  {
    Totals(a.weight + b.weight, a.revenue + b.revenue, a.profit + b.profit)
  }

  function KeyOf(s: Sale): Key
  {
    Key(s.species, s.purchaseVariation, s.soldVariation)
  }

  /** What one sale adds to its mapping's record. */
  function SaleTotals(s: Sale): Totals
  {
    Totals(s.weightKg, Revenue(s), Profit(s))
  }

  /** `sum(s.profit for s in sales)`. */
  function TotalProfit(sales: seq<Sale>): (r: real)
    ensures (forall i :: 0 <= i < |sales| ==> Profit(sales[i]) >= 0.0) ==> r >= 0.0
  {
    if sales == [] then 0.0
    else TotalProfit(sales[..|sales| - 1]) + Profit(sales[|sales| - 1])
  }

  /** The keys the dashboard has seen after the given sales. */
  function Keys(sales: seq<Sale>): (r: set<Key>)
    ensures forall i :: 0 <= i < |sales| ==> KeyOf(sales[i]) in r
  {
    if sales == [] then {}
    else Keys(sales[..|sales| - 1]) + {KeyOf(sales[|sales| - 1])}
  }

  /** The record of mapping `k` after the given sales; a mapping without
      sales has the all-zero record `setdefault` starts from. */
  function GroupTotals(sales: seq<Sale>, k: Key): (r: Totals)
    ensures k !in Keys(sales) ==> r == Zero
  {
    if sales == [] then Zero
    else
      var before := GroupTotals(sales[..|sales| - 1], k);
      var s := sales[|sales| - 1];
      if KeyOf(s) == k then Add(before, SaleTotals(s)) else before
  }

  /** The mappings in the order the dashboard's dictionary first sees them. */
  function FirstSeen(sales: seq<Sale>): seq<Key>
  {
    if sales == [] then []
    else
      var prefix := sales[..|sales| - 1];
      var k := KeyOf(sales[|sales| - 1]);
      if k in Keys(prefix) then FirstSeen(prefix) else FirstSeen(prefix) + [k]
  }

  /** The dictionary's key order lists every mapping with sales once. */
  lemma {:induction false} FirstSeenLists(sales: seq<Sale>)
    ensures NoDuplicates(FirstSeen(sales))
    ensures forall k :: k in FirstSeen(sales) <==> k in Keys(sales)
  {
    if sales != [] {
      FirstSeenLists(sales[..|sales| - 1]);
    }
  }

  /** Weight, revenue and profit summed over all sales, whatever their mapping. */
  function Overall(sales: seq<Sale>): Totals
  {
    if sales == [] then Zero
    else Add(Overall(sales[..|sales| - 1]), SaleTotals(sales[|sales| - 1]))
  }

  /** The records of the mappings `ks`, added up. */
  function SumGroups(ks: seq<Key>, sales: seq<Sale>): Totals
  {
    if ks == [] then Zero else Add(GroupTotals(sales, ks[0]), SumGroups(ks[1..], sales))
  }

  predicate NoDuplicates(ks: seq<Key>)
  {
    forall i, j :: 0 <= i < j < |ks| ==> ks[i] != ks[j]
  }

  /** The `dashboard` view: `total_profit` and `mapping_totals` (its records,
      and its keys in the dictionary's order), built by the source's two
      passes over the sales. */
  method Summarize(sales: seq<Sale>) returns (totalProfit: real, mappingTotals: map<Key, Totals>, order: seq<Key>)
    ensures totalProfit == TotalProfit(sales)
    ensures mappingTotals.Keys == Keys(sales)
    ensures forall k :: k in mappingTotals ==> mappingTotals[k] == GroupTotals(sales, k)
    ensures order == FirstSeen(sales)
    ensures SumGroups(order, sales).profit == totalProfit
  {
    totalProfit := 0.0;
    for i := 0 to |sales|
      invariant totalProfit == TotalProfit(sales[..i])
    {
      assert sales[..i + 1][..i] == sales[..i];
      totalProfit := totalProfit + Profit(sales[i]);
    }
    assert sales[..|sales|] == sales;
    mappingTotals, order := GroupByMapping(sales);
    FirstSeenLists(sales);
    GroupedProfitsAddUp(sales, order);
  }

  /** The second pass: `setdefault` on each sale's mapping and the three
      `+=` on its record; `order` lists the keys as the dictionary holds them. */
  method GroupByMapping(sales: seq<Sale>) returns (mappingTotals: map<Key, Totals>, order: seq<Key>)
    ensures mappingTotals.Keys == Keys(sales)
    ensures forall k :: k in mappingTotals ==> mappingTotals[k] == GroupTotals(sales, k)
    ensures order == FirstSeen(sales)
  {
    mappingTotals, order := map[], [];
    for i := 0 to |sales|
      invariant mappingTotals.Keys == Keys(sales[..i])
      invariant forall k :: k in mappingTotals ==> mappingTotals[k] == GroupTotals(sales[..i], k)
      invariant order == FirstSeen(sales[..i])
    {
      var s := sales[i];
      var key := KeyOf(s);
      var seen := if key in mappingTotals then order else order + [key];
      OrderStep(sales, i, mappingTotals.Keys, order, seen);
      order := seen;
      var data := if key in mappingTotals then mappingTotals[key] else Zero;
      data := Totals(data.weight + s.weightKg, data.revenue + Revenue(s), data.profit + Profit(s));
      MappingStep(sales, i, mappingTotals, data, mappingTotals[key := data]);
      mappingTotals := mappingTotals[key := data];
    }
    assert sales[..|sales|] == sales;
  }

  /** One turn of the grouping loop: `setdefault` and the three `+=` on the
      record of sale `i`'s mapping extend the records from the first `i` sales
      to the first `i + 1`. */
  lemma MappingStep(sales: seq<Sale>, i: nat, before: map<Key, Totals>, data: Totals, after: map<Key, Totals>)
    requires i < |sales|
    requires before.Keys == Keys(sales[..i])
    requires forall k :: k in before ==> before[k] == GroupTotals(sales[..i], k)
    requires data == Add(if KeyOf(sales[i]) in before then before[KeyOf(sales[i])] else Zero, SaleTotals(sales[i]))
    requires after == before[KeyOf(sales[i]) := data]
    ensures after.Keys == Keys(sales[..i + 1])
    ensures forall k :: k in after ==> after[k] == GroupTotals(sales[..i + 1], k)
  {
    assert sales[..i + 1][..i] == sales[..i];
  }

  /** One turn of the grouping loop as seen in the dictionary's key order:
      `setdefault` appends the mapping of sale `i` when it is new. */
  lemma OrderStep(sales: seq<Sale>, i: nat, keys: set<Key>, before: seq<Key>, after: seq<Key>)
    requires i < |sales| && keys == Keys(sales[..i]) && before == FirstSeen(sales[..i])
    requires after == if KeyOf(sales[i]) in keys then before else before + [KeyOf(sales[i])]
    ensures after == FirstSeen(sales[..i + 1])
  {
    assert sales[..i + 1][..i] == sales[..i];
  }

  /** A mapping is on the dashboard exactly when some sale was made under it. */
  lemma {:induction false} KeysMembers(sales: seq<Sale>, k: Key)
    ensures k in Keys(sales) <==> exists s :: s in sales && KeyOf(s) == k
  {
    if sales != [] {
      var prefix := sales[..|sales| - 1];
      KeysMembers(prefix, k);
      assert sales == prefix + [sales[|sales| - 1]];
      if k in Keys(prefix) {
        var s :| s in prefix && KeyOf(s) == k;
        assert s in sales;
      }
    }
  }

  /** The total profit is the profit column of the overall totals. */
  lemma {:induction false} TotalProfitIsOverall(sales: seq<Sale>)
    ensures TotalProfit(sales) == Overall(sales).profit
  {
    if sales != [] {
      TotalProfitIsOverall(sales[..|sales| - 1]);
    }
  }

  /** Adding a record that is zero in one of two places: an arithmetic
      step split out for the solver. */
  lemma Regroup(g: Totals, s: Totals, e0: Totals, e1: Totals, e: Totals)
    requires (e0 == Zero && e == e1) || (e1 == Zero && e == e0)
    ensures Add(Add(g, e0), Add(s, e1)) == Add(Add(g, s), e)
  {
  }

  /** One more sale adds its figures to its own mapping's record only. */
  lemma GroupSnoc(sales: seq<Sale>, k: Key)
    requires sales != []
    ensures var last := sales[|sales| - 1];
      GroupTotals(sales, k) ==
        Add(GroupTotals(sales[..|sales| - 1], k), if KeyOf(last) == k then SaleTotals(last) else Zero)
  {
  }

  /** A list without duplicates is its head followed by a tail without
      duplicates that does not hold the head. */
  lemma NoDuplicatesTail(ks: seq<Key>)
    requires ks != [] && NoDuplicates(ks)
    ensures NoDuplicates(ks[1..]) && ks[0] !in ks[1..]
    ensures forall x :: x in ks <==> x == ks[0] || x in ks[1..]
  {
    forall i, j | 0 <= i < j < |ks[1..]|
      ensures ks[1..][i] != ks[1..][j]
    {
      assert ks[1..][i] == ks[i + 1] && ks[1..][j] == ks[j + 1];
    }
    forall j | 0 <= j < |ks[1..]|
      ensures ks[1..][j] != ks[0]
    {
      assert ks[1..][j] == ks[j + 1];
    }
    assert ks == [ks[0]] + ks[1..];
  }

  /** One more sale adds its figures to the records of the mappings `ks`
      once if its own mapping is among them, and not at all otherwise. */
  lemma {:induction false} SumGroupsSnoc(ks: seq<Key>, sales: seq<Sale>)
    requires sales != [] && NoDuplicates(ks)
    ensures var last := sales[|sales| - 1];
      SumGroups(ks, sales) ==
        Add(SumGroups(ks, sales[..|sales| - 1]), if KeyOf(last) in ks then SaleTotals(last) else Zero)
  {
    var last := sales[|sales| - 1];
    var prefix := sales[..|sales| - 1];
    if ks == [] {
      assert SumGroups(ks, prefix) == Zero;
    } else {
      var k0 := ks[0];
      NoDuplicatesTail(ks);
      SumGroupsSnoc(ks[1..], sales);
      GroupSnoc(sales, k0);
      var e0 := if KeyOf(last) == k0 then SaleTotals(last) else Zero;
      var e1 := if KeyOf(last) in ks[1..] then SaleTotals(last) else Zero;
      var e := if KeyOf(last) in ks then SaleTotals(last) else Zero;
      Regroup(GroupTotals(prefix, k0), SumGroups(ks[1..], prefix), e0, e1, e);
    }
  }

  /** The mapping records add up to the overall figures: listing every
      mapping on the dashboard once (and any other keys at most once), the
      records sum to the total weight, revenue and profit of all sales. */
  lemma {:induction false} GroupsAddUp(ks: seq<Key>, sales: seq<Sale>)
    requires NoDuplicates(ks)
    requires forall k :: k in Keys(sales) ==> k in ks
    ensures SumGroups(ks, sales) == Overall(sales)
  {
    if sales == [] {
      AllZero(ks, sales);
    } else {
      var prefix := sales[..|sales| - 1];
      assert Keys(prefix) <= Keys(sales);
      GroupsAddUp(ks, prefix);
      SumGroupsSnoc(ks, sales);
    }
  }

  lemma {:induction false} AllZero(ks: seq<Key>, sales: seq<Sale>)
    requires sales == []
    ensures SumGroups(ks, sales) == Zero
  {
    if ks != [] {
      AllZero(ks[1..], sales);
    }
  }

  /** The dashboard's grouped profits add up to its `total_profit`. */
  lemma GroupedProfitsAddUp(sales: seq<Sale>, ks: seq<Key>)
    requires NoDuplicates(ks)
    requires forall k :: k in Keys(sales) ==> k in ks
    ensures SumGroups(ks, sales).profit == TotalProfit(sales)
  {
    GroupsAddUp(ks, sales);
    TotalProfitIsOverall(sales);
  }
}
