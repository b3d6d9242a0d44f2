/**
 * What `consume_inventory_cost` guarantees, proved about its specification
 * `Ledger.Consume` (which `InventoryTable.ConsumeInventoryCost` implements):
 * refusal leaves the table alone, success removes exactly the weight sold,
 * lots go oldest first with at most one left partly used, weights stay
 * non-negative, other variations are untouched, and the returned value is a
 * weighted average of the lots' costs.
 */
module FifoProperties {
  import opened Wrappers
  import opened Models
  import opened Ledger

  /** Every lot of variation `v` in the table has a positive weight. */
  predicate PositiveStock(lots: seq<Lot>, v: int)
  {
    forall l :: l in lots && l.variationId == v ==> l.weightKg > 0.0
  }

  /** Every lot of variation `v` in the table has a non-negative weight. */
  predicate NonNegativeStock(lots: seq<Lot>, v: int)
  {
    forall l :: l in lots && l.variationId == v ==> l.weightKg >= 0.0
  }

  /** The query result of an id-ordered table is in id order: "oldest
      first" among a variation's lots. */
  lemma {:induction false} MatchingOrdered(lots: seq<Lot>, v: int)
    requires OrderedById(lots)
    ensures OrderedById(Matching(lots, v))
  {
    if lots != [] {
      var tail := lots[1..];
      OrderedHead(lots);
      MatchingOrdered(tail, v);
      if lots[0].variationId == v {
        MatchingMembers(tail, v);
        OrderedCons(lots[0], Matching(tail, v));
      } else {
        assert Matching(lots, v) == Matching(tail, v);
      }
    }
  }

  /** The query over a table that starts with row `x`. */
  lemma MatchingCons(x: Lot, tail: seq<Lot>, v: int)
    ensures Matching([x] + tail, v) == (if x.variationId == v then [x] else []) + Matching(tail, v)
  {
    assert ([x] + tail)[1..] == tail;
  }

  /** The query returns exactly the table's lots of variation `v`. */
  lemma {:induction false} MatchingMembers(lots: seq<Lot>, v: int)
    ensures forall l :: l in Matching(lots, v) <==> l in lots && l.variationId == v
  {
    if lots != [] {
      MatchingMembers(lots[1..], v);
      assert lots == [lots[0]] + lots[1..];
    }
  }

  /** The stock of a table, split into its first row and the others. */
  lemma AvailableCons(lots: seq<Lot>, v: int)
    requires lots != []
    ensures Available(lots, v) ==
      (if lots[0].variationId == v then lots[0].weightKg else 0.0) + Available(lots[1..], v)
  {
    var m := Matching(lots[1..], v);
    if lots[0].variationId == v {
      assert ([lots[0]] + m)[1..] == m;
    } else {
      assert [] + m == m;
    }
  }

  /** Bookkeeping of one walk: the variation's stock falls by what was taken
      (`need` less what stayed unmet), and nothing stays unmet when the stock
      covered the request. No assumption on the sign of the weights is needed. */
  lemma {:induction false} FifoAccounting(lots: seq<Lot>, v: int, need: real)
    requires need >= 0.0
    ensures var d := Fifo(lots, v, need);
      && d.unmet >= 0.0
      && Available(d.rest, v) == Available(lots, v) - need + d.unmet
      && (Available(lots, v) >= need ==> d.unmet == 0.0)
    decreases |lots|
  {
    if lots == [] {
    } else if need == 0.0 {
      FifoNothingNeeded(lots, v, need);
    } else {
      var lot := lots[0];
      var next := Next(lot, v, need);
      var head := Remains(lot, v, need);
      var tail := Fifo(lots[1..], v, next).rest;
      AvailableCons(lots, v);
      FifoAccounting(lots[1..], v, next);
      if head == [] {
        assert head + tail == tail;
      } else {
        AvailableCons(head + tail, v);
        assert (head + tail)[1..] == tail;
      }
      if next == 0.0 {
        FifoNothingNeeded(lots[1..], v, next);
      }
    }
  }

  /** A negative request takes nothing: the table stays as it was and the
      returned value is zero, unless the stock is below even that request. */
  lemma ConsumeNegativeRequest(lots: seq<Lot>, v: int, need: real)
    requires need < 0.0
    ensures Consume(lots, v, need) == (lots, if Available(lots, v) < need then None else Some(0.0))
  {
    FifoNothingNeeded(lots, v, need);
  }

  /** A served request lowers the variation's stock by exactly the weight sold. */
  lemma ConsumeRemovesExactly(lots: seq<Lot>, v: int, need: real)
    requires need > 0.0 && Available(lots, v) >= need
    ensures Consume(lots, v, need).1.Some?
    ensures Available(Consume(lots, v, need).0, v) == Available(lots, v) - need
  {
    FifoAccounting(lots, v, need);
  }

  /** The walk for `v` leaves the lots of every other variation as they were. */
  lemma {:induction false} FifoOtherVariations(lots: seq<Lot>, v: int, u: int, need: real)
    requires u != v
    ensures Matching(Fifo(lots, v, need).rest, u) == Matching(lots, u)
    decreases |lots|
  {
    if lots != [] {
      var lot := lots[0];
      var next := Next(lot, v, need);
      var head := Remains(lot, v, need);
      var tail := Fifo(lots[1..], v, next).rest;
      FifoOtherVariations(lots[1..], v, u, next);
      if head == [] {
        assert head + tail == tail;
      } else {
        MatchingCons(head[0], tail, u);
      }
    }
  }

  /** Recording a sale of `v` never changes another variation's lots. */
  lemma ConsumeLeavesOtherVariations(lots: seq<Lot>, v: int, u: int, need: real)
    requires need != 0.0 || Available(lots, v) < need
    requires u != v
    ensures Matching(Consume(lots, v, need).0, u) == Matching(lots, u)
  {
    FifoOtherVariations(lots, v, u, need);
  }

  /** The walk over the whole table does to the lots of `v` what a walk over
      the query result alone does, at the same cost. */
  lemma {:induction false} FifoMatchingView(lots: seq<Lot>, v: int, need: real)
    ensures var d := Fifo(lots, v, need);
      Fifo(Matching(lots, v), v, need) == Draw(Matching(d.rest, v), d.cost, d.unmet)
    decreases |lots|
  {
    if lots != [] {
      var lot := lots[0];
      var next := Next(lot, v, need);
      var head := Remains(lot, v, need);
      var d' := Fifo(lots[1..], v, next);
      var m' := Matching(lots[1..], v);
      FifoMatchingView(lots[1..], v, next);
      if head == [] {
        assert head + d'.rest == d'.rest;
      } else {
        MatchingCons(head[0], d'.rest, v);
      }
      if lot.variationId == v {
        assert Matching(lots, v) == [lot] + m';
        assert ([lot] + m')[1..] == m';
        if head == [] {
          assert Matching(head + d'.rest, v) == head + Matching(d'.rest, v);
        }
      } else {
        assert Matching(lots, v) == m' by {
          assert [] + m' == m';
        }
      }
    }
  }

  /** Lots that start with a non-negative (positive) weight keep a
      non-negative (positive) weight: a lot gives up at most what it holds,
      and one that reaches zero is deleted. */
  lemma {:induction false} FifoKeepsWeights(lots: seq<Lot>, v: int, need: real)
    requires NonNegativeStock(lots, v)
    ensures NonNegativeStock(Fifo(lots, v, need).rest, v)
    ensures PositiveStock(lots, v) ==> PositiveStock(Fifo(lots, v, need).rest, v)
    decreases |lots|
  {
    if lots != [] {
      var lot := lots[0];
      var next := Next(lot, v, need);
      var head := Remains(lot, v, need);
      var tail := Fifo(lots[1..], v, next).rest;
      assert lot in lots;
      assert forall l :: l in lots[1..] ==> l in lots;
      FifoKeepsWeights(lots[1..], v, next);
      assert forall l :: l in head + tail ==> l in head || l in tail;
    }
  }

  /** What is left of the variation after a sale: no lot with a negative
      weight, and, given positive weights, no lot emptied but kept. */
  lemma ConsumeKeepsWeights(lots: seq<Lot>, v: int, need: real)
    requires need != 0.0 && NonNegativeStock(lots, v)
    ensures NonNegativeStock(Consume(lots, v, need).0, v)
    ensures PositiveStock(lots, v) ==> PositiveStock(Consume(lots, v, need).0, v)
  {
    FifoKeepsWeights(lots, v, need);
  }

  /** Every lot of the sequence belongs to variation `v`. */
  predicate AllOf(m: seq<Lot>, v: int)
  {
    forall l :: l in m ==> l.variationId == v
  }

  /** Positive lots add up to a positive weight. */
  lemma {:induction false} WeightPositive(m: seq<Lot>, v: int)
    requires PositiveStock(m, v) && AllOf(m, v)
    ensures Weight(m) >= 0.0
    ensures m != [] ==> Weight(m) > 0.0
  {
    if m != [] {
      assert m[0] in m;
      assert forall l :: l in m[1..] ==> l in m;
      WeightPositive(m[1..], v);
    }
  }

  /** Lot `k` of `m` is the one where `need` runs out: the lots before it
      hold less than `need`, the lots up to and including it hold enough. */
  predicate SplitsAt(m: seq<Lot>, need: real, k: int)
  {
    0 <= k < |m| && Weight(m[..k]) < need <= Weight(m[..k + 1])
  }

  /** Oldest first, as a closed form: the lots before `k` are gone, lot `k`
      keeps what it holds beyond `need` (and is gone when nothing is beyond),
      and the later lots are as they were. */
  function OldestFirstRest(m: seq<Lot>, need: real, k: int): seq<Lot>
    requires 0 <= k < |m|
  {
    var upTo := Weight(m[..k + 1]);
    if need == upTo then m[k + 1..] else [m[k].(weightKg := upTo - need)] + m[k + 1..]
  }

  /** ... and the cost of that: the full value of the lots before `k` plus
      what is taken from lot `k` at its own price. */
  function OldestFirstCost(m: seq<Lot>, need: real, k: int): real
    requires 0 <= k < |m|
  {
    LotCost(m[..k]) + (need - Weight(m[..k])) * m[k].costPerKg
  }

  /** The sums over a prefix of `m`, split into its first lot and the rest. */
  lemma PrefixCons(m: seq<Lot>, k: nat)
    requires k < |m|
    ensures Weight(m[..k + 1]) == m[0].weightKg + Weight(m[1..][..k])
    ensures LotCost(m[..k + 1]) == m[0].weightKg * m[0].costPerKg + LotCost(m[1..][..k])
  {
    assert m[..k + 1][1..] == m[1..][..k];
  }

  /** Walk `d` is the closed form at lot `k`. */
  predicate OldestFirstAt(m: seq<Lot>, need: real, k: int, d: Draw)
  {
    SplitsAt(m, need, k) && d.rest == OldestFirstRest(m, need, k) && d.cost == OldestFirstCost(m, need, k)
  }

  /** Equal weights at the same price cost the same (a step the solver
      does not take by itself when the two weights are different terms). */
  lemma SamePrice(x: real, y: real, p: real)
    requires x == y
    ensures x * p == y * p
  {
  }

  /** A walk whose request the oldest lot covers takes it all from that lot. */
  lemma FifoFirstCovers(m: seq<Lot>, v: int, need: real)
    requires m != [] && m[0].variationId == v && 0.0 < need <= m[0].weightKg
    ensures var d := Fifo(m, v, need);
      && d.rest == (if need == m[0].weightKg then m[1..] else [m[0].(weightKg := m[0].weightKg - need)] + m[1..])
      && d.cost == need * m[0].costPerKg
      && d.unmet == 0.0
  {
    var lot := m[0];
    assert Taken(lot, v, need) == need && Next(lot, v, need) == 0.0;
    FifoNothingNeeded(m[1..], v, 0.0);
  }

  /** A walk whose request goes beyond the oldest lot uses that lot up and
      goes on with the rest. */
  lemma FifoFirstUsedUp(m: seq<Lot>, v: int, need: real)
    requires m != [] && m[0].variationId == v && m[0].weightKg < need && 0.0 < need
    ensures var d := Fifo(m, v, need);
      var d' := Fifo(m[1..], v, need - m[0].weightKg);
      d.rest == d'.rest && d.cost == m[0].weightKg * m[0].costPerKg + d'.cost && d.unmet == d'.unmet
  {
    var lot := m[0];
    assert Taken(lot, v, need) == lot.weightKg && Next(lot, v, need) == need - lot.weightKg;
    assert Remains(lot, v, need) == [];
  }

  /** The closed form at lot 0. */
  lemma OldestFirstBase(m: seq<Lot>, need: real, d: Draw)
    requires m != [] && 0.0 < need <= m[0].weightKg
    requires d.rest == (if need == m[0].weightKg then m[1..] else [m[0].(weightKg := m[0].weightKg - need)] + m[1..])
    requires d.cost == need * m[0].costPerKg
    ensures OldestFirstAt(m, need, 0, d)
  {
    PrefixCons(m, 0);
    assert m[..0] == [] && m[1..][..0] == [];
    SamePrice(need - Weight(m[..0]), need, m[0].costPerKg);
  }

  /** The closed form for the lots after the oldest at `k`, shifted by the
      oldest lot, is the closed form at `k + 1`. */
  lemma OldestFirstStep(m: seq<Lot>, need: real, k: int, d: Draw, d': Draw)
    requires m != [] && OldestFirstAt(m[1..], need - m[0].weightKg, k, d')
    requires d.rest == d'.rest && d.cost == m[0].weightKg * m[0].costPerKg + d'.cost
    ensures OldestFirstAt(m, need, k + 1, d)
  {
    var tail := m[1..];
    PrefixCons(m, k);
    PrefixCons(m, k + 1);
    assert m[k + 1] == tail[k] && m[k + 2..] == tail[k + 1..];
    SamePrice(need - Weight(m[..k + 1]), need - m[0].weightKg - Weight(tail[..k]), tail[k].costPerKg);
  }

  /** Oldest first, on the lots of one variation: the walk ends at the lot
      where the request runs out, with the closed-form table and cost. */
  lemma {:induction false} UniformOldestFirst(m: seq<Lot>, v: int, need: real)
    requires AllOf(m, v)
    requires 0.0 < need <= Weight(m)
    ensures exists k :: OldestFirstAt(m, need, k, Fifo(m, v, need))
  {
    var lot := m[0];
    assert lot in m;
    if need <= lot.weightKg {
      FifoFirstCovers(m, v, need);
      OldestFirstBase(m, need, Fifo(m, v, need));
    } else {
      var tail := m[1..];
      var d' := Fifo(tail, v, need - lot.weightKg);
      assert forall l :: l in tail ==> l in m;
      UniformOldestFirst(tail, v, need - lot.weightKg);
      var k :| OldestFirstAt(tail, need - lot.weightKg, k, d');
      FifoFirstUsedUp(m, v, need);
      OldestFirstStep(m, need, k, Fifo(m, v, need), d');
    }
  }

  /** Oldest first, for a served request: among the variation's lots in id
      order there is a lot `k` where the request runs out; the table left
      behind and the returned value are those of the closed form. */
  lemma ConsumeOldestFirst(lots: seq<Lot>, v: int, need: real)
    requires need > 0.0 && Available(lots, v) >= need
    ensures OrderedById(lots) ==> OrderedById(Matching(lots, v))
    ensures var m := Matching(lots, v);
      var (after, avg) := Consume(lots, v, need);
      exists k :: (SplitsAt(m, need, k)
        && Matching(after, v) == OldestFirstRest(m, need, k)
        && avg == Some(OldestFirstCost(m, need, k) / need))
  {
    var m := Matching(lots, v);
    MatchingMembers(lots, v);
    if OrderedById(lots) {
      MatchingOrdered(lots, v);
    }
    FifoMatchingView(lots, v, need);
    UniformOldestFirst(m, v, need);
  }

  /** Selling a variation's whole stock deletes every one of its lots and
      costs the full value of the stock. */
  lemma {:induction false} UniformExhaust(m: seq<Lot>, v: int)
    requires AllOf(m, v) && PositiveStock(m, v)
    ensures Fifo(m, v, Weight(m)) == Draw([], LotCost(m), 0.0)
  {
    if m != [] {
      var lot := m[0];
      var tail := m[1..];
      assert lot in m;
      assert forall l :: l in tail ==> l in m;
      WeightPositive(tail, v);
      if tail == [] {
        FifoFirstCovers(m, v, Weight(m));
      } else {
        assert Weight(m) - lot.weightKg == Weight(tail);
        FifoFirstUsedUp(m, v, Weight(m));
        UniformExhaust(tail, v);
      }
    }
  }

  /** Selling all of a variation's stock deletes every lot of it and returns
      `sum(w_i * c_i) / sum(w_i)`. */
  lemma ConsumeAllStock(lots: seq<Lot>, v: int)
    requires PositiveStock(lots, v) && Available(lots, v) > 0.0
    ensures var m := Matching(lots, v);
      var (after, avg) := Consume(lots, v, Available(lots, v));
      Matching(after, v) == [] && avg == Some(LotCost(m) / Weight(m))
  {
    var m := Matching(lots, v);
    MatchingMembers(lots, v);
    FifoMatchingView(lots, v, Weight(m));
    UniformExhaust(m, v);
  }

  /** One row's share of the bound: a charge at a price between `lo` and
      `hi` keeps the running cost between the two bounds. */
  lemma ChargeBounds(used: real, price: real, charge: real, cost: real,
                     need: real, next: real, unmet: real, lo: real, hi: real)
    requires used >= 0.0 && lo <= price <= hi && charge == used * price && next == need - used
    requires lo * (next - unmet) <= cost <= hi * (next - unmet)
    ensures lo * (need - unmet) <= charge + cost <= hi * (need - unmet)
  {
    assert lo * used <= used * price <= hi * used;
    assert lo * (need - unmet) == lo * used + lo * (need - used - unmet);
    assert hi * (need - unmet) == hi * used + hi * (need - used - unmet);
  }

  /** The cost of what a walk takes lies between the cheapest and the
      dearest price per kilogram of the lots it takes from. */
  lemma {:induction false} FifoCostBounds(lots: seq<Lot>, v: int, need: real, lo: real, hi: real)
    requires need >= 0.0 && NonNegativeStock(lots, v) && PricedWithin(lots, v, lo, hi)
    ensures CostWithin(Fifo(lots, v, need), need, lo, hi)
    decreases |lots|
  {
    if lots != [] && need != 0.0 {
      StockTail(lots, v, lo, hi);
      FifoCostBounds(lots[1..], v, Next(lots[0], v, need), lo, hi);
    }
    CostBoundsStep(lots, v, need, lo, hi);
  }

  /** The inductive step of `FifoCostBounds`, row by row. */
  lemma CostBoundsStep(lots: seq<Lot>, v: int, need: real, lo: real, hi: real)
    requires need >= 0.0 && NonNegativeStock(lots, v) && PricedWithin(lots, v, lo, hi)
    requires lots != [] && need != 0.0 ==>
      CostWithin(Fifo(lots[1..], v, Next(lots[0], v, need)), Next(lots[0], v, need), lo, hi)
    ensures CostWithin(Fifo(lots, v, need), need, lo, hi)
  {
    var d := Fifo(lots, v, need);
    if lots == [] {
      NothingTaken(d, need, lo, hi);
    } else if need == 0.0 {
      FifoNothingNeeded(lots, v, need);
      NothingTaken(d, need, lo, hi);
    } else {
      var lot := lots[0];
      var d' := Fifo(lots[1..], v, Next(lot, v, need));
      StockTail(lots, v, lo, hi);
      assert d.cost == Charge(lot, v, need) + d'.cost && d.unmet == d'.unmet;
      TakeBounds(lot, v, need, d, d', lo, hi);
    }
  }

  /** The cost of what a walk for `need` took lies between `lo` and `hi`
      per kilogram taken. */
  predicate CostWithin(d: Draw, need: real, lo: real, hi: real)
  {
    lo * (need - d.unmet) <= d.cost <= hi * (need - d.unmet)
  }

  /** Every lot of variation `v` costs between `lo` and `hi` per kilogram. */
  predicate PricedWithin(lots: seq<Lot>, v: int, lo: real, hi: real)
  {
    forall l :: l in lots && l.variationId == v ==> lo <= l.costPerKg <= hi
  }

  /** What the stock predicates say about the first row and the others. */
  lemma StockTail(lots: seq<Lot>, v: int, lo: real, hi: real)
    requires lots != [] && NonNegativeStock(lots, v) && PricedWithin(lots, v, lo, hi)
    ensures NonNegativeStock(lots[1..], v) && PricedWithin(lots[1..], v, lo, hi)
    ensures lots[0].variationId == v ==> lots[0].weightKg >= 0.0 && lo <= lots[0].costPerKg <= hi
  {
    assert lots[0] in lots;
    assert forall l :: l in lots[1..] ==> l in lots;
  }

  /** The row a walk takes from keeps the running cost within the bounds. */
  lemma TakeBounds(lot: Lot, v: int, need: real, d: Draw, d': Draw, lo: real, hi: real)
    requires need > 0.0
    requires lot.variationId == v ==> lot.weightKg >= 0.0 && lo <= lot.costPerKg <= hi
    requires CostWithin(d', Next(lot, v, need), lo, hi)
    requires d.cost == Charge(lot, v, need) + d'.cost && d.unmet == d'.unmet
    ensures CostWithin(d, need, lo, hi)
  {
    if lot.variationId == v {
      ChargeBounds(Taken(lot, v, need), lot.costPerKg, Charge(lot, v, need), d'.cost,
                   need, Next(lot, v, need), d'.unmet, lo, hi);
    }
  }

  /** Nothing taken costs nothing: the bound's base case, an arithmetic
      step split out for the solver. */
  lemma NothingTaken(d: Draw, need: real, lo: real, hi: real)
    requires d.unmet == need && d.cost == 0.0
    ensures CostWithin(d, need, lo, hi)
  {
  }

  /** A total between `lo` and `hi` per unit of a positive weight averages
      between them: an arithmetic step split out for the solver. */
  lemma AverageBetween(total: real, weight: real, lo: real, hi: real)
    requires weight > 0.0 && lo * weight <= total <= hi * weight
    ensures lo <= total / weight <= hi
  {
  }

  /** The returned cost basis is a weighted average: it lies between the
      cheapest and the dearest price per kilogram of the variation's lots. */
  lemma ConsumeAverageBounds(lots: seq<Lot>, v: int, need: real, lo: real, hi: real)
    requires need > 0.0 && Available(lots, v) >= need && NonNegativeStock(lots, v)
    requires PricedWithin(lots, v, lo, hi)
    ensures Consume(lots, v, need).1.Some?
    ensures lo <= Consume(lots, v, need).1.value <= hi
  {
    var d := Fifo(lots, v, need);
    FifoAccounting(lots, v, need);
    FifoCostBounds(lots, v, need, lo, hi);
    AverageBetween(d.cost, need, lo, hi);
  }

  /** A served request, given the walk's outcome. */
  lemma ConsumeServed(lots: seq<Lot>, v: int, need: real, rest: seq<Lot>, cost: real)
    requires need != 0.0 && Available(lots, v) >= need
    requires Fifo(lots, v, need).rest == rest && Fifo(lots, v, need).cost == cost
    ensures Consume(lots, v, need) == (rest, Some(cost / need))
  {
  }

  /** The sale recorded with the returned cost basis costs exactly what the
      consumed lots cost: `Sale.cost` undoes the division by the weight sold. */
  lemma RecordedSaleCost(lots: seq<Lot>, v: int, need: real, price: real,
                         species: string, purchaseVariation: string, soldVariation: string)
    requires need != 0.0 && Available(lots, v) >= need
    ensures var avg := Consume(lots, v, need).1;
      avg.Some? &&
      Cost(Sale(species, purchaseVariation, soldVariation, need, price, avg.value)) == Fifo(lots, v, need).cost
  {
    var d := Fifo(lots, v, need);
    ConsumeServed(lots, v, need, d.rest, d.cost);
    CostUndoesAverage(Sale(species, purchaseVariation, soldVariation, need, price, d.cost / need), d.cost);
  }

  /** A sale whose cost basis is `total / weight` costs `total`. */
  lemma CostUndoesAverage(s: Sale, total: real)
    requires s.weightKg != 0.0 && s.costPerKg == total / s.weightKg
    ensures Cost(s) == total
  {
  }

  /** Selling 12 kg of variation 7 from lots of 10 kg at 2 per kg and 5 kg at
      3 per kg (and one lot of variation 8) deletes the first lot, leaves 3 kg
      of the second and costs (10*2 + 2*3)/12. */
  lemma ScenarioTwoLots(a: Lot, b: Lot, c: Lot)
    requires a == Lot(1, 7, 10.0, 2.0) && b == Lot(2, 7, 5.0, 3.0) && c == Lot(3, 8, 4.0, 9.0)
    ensures Consume([a, b, c], 7, 12.0) == ([Lot(2, 7, 3.0, 3.0), Lot(3, 8, 4.0, 9.0)], Some(26.0 / 12.0))
  {
    var lots := [a, b, c];
    assert lots[1..] == [b, c] && [b, c][1..] == [c] && [c][1..] == [];
    AvailableCons([c], 7);
    AvailableCons([b, c], 7);
    AvailableCons(lots, 7);
    FifoFirstUsedUp(lots, 7, 12.0);
    FifoFirstCovers([b, c], 7, 2.0);
    ConsumeServed(lots, 7, 12.0, [b.(weightKg := 3.0), c], 26.0);
  }

  /** 10 kg in stock; selling 15 kg is refused and changes nothing. */
  lemma ScenarioShortStock()
    ensures var lots := [Lot(1, 7, 6.0, 2.0), Lot(2, 7, 4.0, 3.0)];
      Consume(lots, 7, 15.0) == (lots, None)
  {
    var lots := [Lot(1, 7, 6.0, 2.0), Lot(2, 7, 4.0, 3.0)];
    AvailableCons(lots, 7);
    AvailableCons(lots[1..], 7);
    assert lots[1..][1..] == [];
  }
}
