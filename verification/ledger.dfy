/**
 * The inventory ledger of app.py: FIFO consumption of purchase lots when a
 * sale is recorded (`consume_inventory_cost`).
 *
 * The Inventory table is a sequence of lots kept in id order, so "the lots of
 * a variation ordered by id" is the subsequence of that variation's lots.
 * Weights and costs are exact reals: the source's floating-point test for an
 * exhausted lot becomes an exact comparison with zero.
 */
module Ledger {
  import opened Wrappers
  import opened Models

  /** `min(a, b)` of the source. */
  function Min(a: real, b: real): (m: real)
    ensures m <= a && m <= b
    ensures m == a || m == b
  {
    if a <= b then a else b
  }

  /** The table is in primary-key order: insertion order, so oldest first. */
  predicate OrderedById(lots: seq<Lot>)
  {
    forall i, j :: 0 <= i < j < |lots| ==> lots[i].id < lots[j].id
  }

  /** The query `filter_by(variation_id=v).order_by(Inventory.id)`: the lots
      of variation `v`, in table order. */
  function Matching(lots: seq<Lot>, v: int): seq<Lot>
  {
    if lots == [] then []
    else (if lots[0].variationId == v then [lots[0]] else []) + Matching(lots[1..], v)
  }

  /** Summed weight of some lots. */
  function Weight(lots: seq<Lot>): real
  {
    if lots == [] then 0.0 else lots[0].weightKg + Weight(lots[1..])
  }

  /** Summed purchase value `weight * cost_per_kg` of some lots. */
  function LotCost(lots: seq<Lot>): real
  {
    if lots == [] then 0.0 else lots[0].weightKg * lots[0].costPerKg + LotCost(lots[1..])
  }

  /** `total_available`: the stock of variation `v`. */
  function Available(lots: seq<Lot>, v: int): real
  {
    Weight(Matching(lots, v))
  }

  /** Whether the walk takes anything from row `lot`: only from a lot of `v`
      reached while weight is still needed (any other row is not in the query
      result, or the source has already left its loop). */
  predicate Draws(lot: Lot, v: int, need: real)
  {
    lot.variationId == v && need > 0.0
  }

  /** `used = min(item.weight_kg, remaining)`: what the walk takes from the row. */
  function Taken(lot: Lot, v: int, need: real): (used: real)
    ensures !Draws(lot, v, need) ==> used == 0.0
    ensures Draws(lot, v, need) ==> used <= need && used <= lot.weightKg
    ensures Draws(lot, v, need) ==> used == need || used == lot.weightKg
  {
    if Draws(lot, v, need) then Min(lot.weightKg, need) else 0.0
  }

  /** `used * item.cost_per_kg`: what the weight taken from the row cost. */
  function Charge(lot: Lot, v: int, need: real): (c: real)
    ensures !Draws(lot, v, need) ==> c == 0.0
    ensures Draws(lot, v, need) && lot.weightKg >= 0.0 && lot.costPerKg >= 0.0 ==>
      0.0 <= c <= need * lot.costPerKg && c <= lot.weightKg * lot.costPerKg
  {
    if Draws(lot, v, need) then Taken(lot, v, need) * lot.costPerKg else 0.0
  }

  /** `remaining - used`: what is still needed after the row. */
  function Next(lot: Lot, v: int, need: real): (r: real)
    ensures !Draws(lot, v, need) ==> r == need
    ensures Draws(lot, v, need) ==> 0.0 <= r && (r < need <==> lot.weightKg > 0.0)
  {
    need - Taken(lot, v, need)
  }

  /** What becomes of the row: nothing when a draw brings it to exactly zero
      (`db.session.delete`), otherwise the row with its weight reduced by what
      was taken; every other field stays. */
  function Remains(lot: Lot, v: int, need: real): (r: seq<Lot>)
    ensures r == [] || r == [lot.(weightKg := lot.weightKg - Taken(lot, v, need))]
    ensures r == [] <==> Draws(lot, v, need) && lot.weightKg == Taken(lot, v, need)
    ensures !Draws(lot, v, need) ==> r == [lot]
  {
    if !Draws(lot, v, need) then [lot]
    else
      var left := lot.weightKg - Taken(lot, v, need);
      if left == 0.0 then [] else [lot.(weightKg := left)]
  }

  /** What walking the table for `need` kilograms of `v` leaves behind: the
      new table, the accumulated `total_cost`, and the `remaining` weight that
      no lot could cover. */
  datatype Draw = Draw(rest: seq<Lot>, cost: real, unmet: real)

  /** The consumption loop of the source, row by row of the table in id order. */
  function Fifo(lots: seq<Lot>, v: int, need: real): Draw
  {
    if lots == [] then Draw([], 0.0, need)
    else
      var d := Fifo(lots[1..], v, Next(lots[0], v, need));
      Draw(Remains(lots[0], v, need) + d.rest, Charge(lots[0], v, need) + d.cost, d.unmet)
  }

  /** `consume_inventory_cost(v, need)`: the new table and the returned value,
      `None` when the variation's stock is short and otherwise the average
      cost per kilogram of what was taken. */
  function Consume(lots: seq<Lot>, v: int, need: real): (r: (seq<Lot>, Option<real>))
    requires need != 0.0 || Available(lots, v) < need
    ensures r.1.None? <==> Available(lots, v) < need
    ensures r.1.None? ==> r.0 == lots
  {
    if Available(lots, v) < need then (lots, None)
    else
      var d := Fifo(lots, v, need);
      (d.rest, Some(d.cost / need))
  }

  /** Once nothing more is needed the walk changes nothing. */
  lemma {:induction false} FifoNothingNeeded(lots: seq<Lot>, v: int, need: real)
    requires need <= 0.0
    ensures Fifo(lots, v, need) == Draw(lots, 0.0, need)
  {
    if lots != [] {
      FifoNothingNeeded(lots[1..], v, need);
      assert [lots[0]] + lots[1..] == lots;
    }
  }

  /** One turn of the consumption loop at row `i`: the rows kept so far grow
      by what remains of row `i`, the cost by its charge. */
  lemma WalkStep(lots: seq<Lot>, i: nat, v: int, need: real, kept: seq<Lot>, cost: real, goal: Draw)
    requires i < |lots|
    requires goal.rest == kept + Fifo(lots[i..], v, need).rest
    requires goal.cost == cost + Fifo(lots[i..], v, need).cost
    ensures goal.rest == (kept + Remains(lots[i], v, need)) + Fifo(lots[i + 1..], v, Next(lots[i], v, need)).rest
    ensures goal.cost == (cost + Charge(lots[i], v, need)) + Fifo(lots[i + 1..], v, Next(lots[i], v, need)).cost
  {
    assert lots[i..][1..] == lots[i + 1..];
    var tail := Fifo(lots[i + 1..], v, Next(lots[i], v, need)).rest;
    assert kept + (Remains(lots[i], v, need) + tail) == (kept + Remains(lots[i], v, need)) + tail;
  }

  /** The turn of the loop that passes over row `i`, as the source's loop
      body writes it: the row is kept as it is. */
  lemma WalkSkip(lots: seq<Lot>, i: nat, v: int, need: real, kept: seq<Lot>, cost: real, goal: Draw,
                 kept': seq<Lot>)
    requires i < |lots| && lots[i].variationId != v
    requires goal.rest == kept + Fifo(lots[i..], v, need).rest
    requires goal.cost == cost + Fifo(lots[i..], v, need).cost
    requires kept' == kept + [lots[i]]
    ensures goal.rest == kept' + Fifo(lots[i + 1..], v, need).rest
    ensures goal.cost == cost + Fifo(lots[i + 1..], v, need).cost
  {
    WalkStep(lots, i, v, need, kept, cost, goal);
  }

  /** The turn of the loop that takes `used` kilograms from row `i`, as the
      source's loop body writes it: the cost grows by `used * cost_per_kg`,
      the need shrinks by `used`, and the row is kept with its weight reduced
      unless that leaves exactly zero. */
  lemma WalkTake(lots: seq<Lot>, i: nat, v: int, need: real, kept: seq<Lot>, cost: real, goal: Draw,
                 used: real, kept': seq<Lot>, cost': real, need': real)
    requires i < |lots| && lots[i].variationId == v && need > 0.0
    requires goal.rest == kept + Fifo(lots[i..], v, need).rest
    requires goal.cost == cost + Fifo(lots[i..], v, need).cost
    requires used == Min(lots[i].weightKg, need)
    requires cost' == cost + used * lots[i].costPerKg && need' == need - used
    requires var left := lots[i].weightKg - used;
      kept' == if left != 0.0 then kept + [lots[i].(weightKg := left)] else kept
    ensures goal.rest == kept' + Fifo(lots[i + 1..], v, need').rest
    ensures goal.cost == cost' + Fifo(lots[i + 1..], v, need').cost
  {
    WalkStep(lots, i, v, need, kept, cost, goal);
    assert Taken(lots[i], v, need) == used;
    if lots[i].weightKg - used == 0.0 {
      assert kept + Remains(lots[i], v, need) == kept;
    }
  }

  /** Where the consumption loop stops, at the end of the table or once
      nothing more is needed, the rows not yet visited stay as they are. */
  lemma WalkDone(lots: seq<Lot>, i: nat, v: int, need: real, kept: seq<Lot>, cost: real, goal: Draw)
    requires i <= |lots| && (i == |lots| || need <= 0.0)
    requires goal.rest == kept + Fifo(lots[i..], v, need).rest
    requires goal.cost == cost + Fifo(lots[i..], v, need).cost
    ensures goal.rest == kept + lots[i..] && goal.cost == cost
  {
    if i < |lots| {
      FifoNothingNeeded(lots[i..], v, need);
    } else {
      assert lots[i..] == [];
    }
  }

  /** The ids of some rows. */
  function Ids(lots: seq<Lot>): set<nat>
  {
    set l | l in lots :: l.id
  }

  /** Every row the walk leaves has the id of a row of the table before. */
  lemma {:induction false} FifoKeepsIds(lots: seq<Lot>, v: int, need: real)
    ensures Ids(Fifo(lots, v, need).rest) <= Ids(lots)
  {
    if lots != [] {
      var lot := lots[0];
      FifoKeepsIds(lots[1..], v, Next(lot, v, need));
      assert lots == [lot] + lots[1..];
      assert Ids(lots) == {lot.id} + Ids(lots[1..]);
      var head := Remains(lot, v, need);
      var tail := Fifo(lots[1..], v, Next(lot, v, need)).rest;
      assert Ids(head) <= {lot.id};
      assert Ids(head + tail) == Ids(head) + Ids(tail);
    }
  }

  lemma OrderedCons(x: Lot, s: seq<Lot>)
    requires OrderedById(s)
    requires forall id :: id in Ids(s) ==> x.id < id
    ensures OrderedById([x] + s)
  {
    var r := [x] + s;
    forall i, j | 0 <= i < j < |r|
      ensures r[i].id < r[j].id
    {
      assert r[j] == s[j - 1] && r[j].id in Ids(s);
    }
  }

  lemma OrderedHead(s: seq<Lot>)
    requires s != [] && OrderedById(s)
    ensures OrderedById(s[1..])
    ensures forall id :: id in Ids(s[1..]) ==> s[0].id < id
  {
    forall id | id in Ids(s[1..])
      ensures s[0].id < id
    {
      var l :| l in s[1..] && l.id == id;
      var k :| 0 <= k < |s[1..]| && s[1..][k] == l;
      assert s[k + 1] == l;
    }
  }

  /** Deleting and shrinking rows keeps the table in id order. */
  lemma {:induction false} FifoKeepsOrder(lots: seq<Lot>, v: int, need: real)
    requires OrderedById(lots)
    ensures OrderedById(Fifo(lots, v, need).rest)
  {
    if lots != [] {
      var lot := lots[0];
      var head := Remains(lot, v, need);
      var tail := Fifo(lots[1..], v, Next(lot, v, need)).rest;
      OrderedHead(lots);
      FifoKeepsOrder(lots[1..], v, Next(lot, v, need));
      FifoKeepsIds(lots[1..], v, Next(lot, v, need));
      if head == [] {
        assert head + tail == tail;
      } else {
        OrderedCons(head[0], tail);
      }
    }
  }

  /** The Inventory table and the operation that consumes it. */
  class InventoryTable {
    /** The rows, in primary-key order. */
    var lots: seq<Lot>

    ghost predicate Valid()
      reads this
    {
      OrderedById(lots)
    }

    constructor (initial: seq<Lot>)
      requires OrderedById(initial)
      ensures Valid() && lots == initial
    {
      lots := initial;
    }

    /** `consume_inventory_cost`: refuses a request the variation's stock
        cannot cover, leaving the table as it was; otherwise takes the weight
        from the oldest lots first, shrinking and deleting them, and returns
        the average cost per kilogram taken. */
    method ConsumeInventoryCost(variationId: int, weightNeeded: real) returns (avg: Option<real>)
      requires Valid()
      requires weightNeeded != 0.0 || Available(lots, variationId) < weightNeeded
      modifies this
      ensures Valid()
      ensures (lots, avg) == Consume(old(lots), variationId, weightNeeded)
      ensures avg.None? <==> Available(old(lots), variationId) < weightNeeded
      ensures avg.None? ==> lots == old(lots)
    {
      var totalAvailable := Available(lots, variationId);
      if totalAvailable < weightNeeded {
        return None;
      }
      var items := lots;
      ghost var goal := Fifo(items, variationId, weightNeeded);
      var remaining := weightNeeded;
      var totalCost := 0.0;
      var kept: seq<Lot> := [];
      var i := 0;
      while i < |items| && remaining > 0.0
        invariant 0 <= i <= |items|
        invariant goal.rest == kept + Fifo(items[i..], variationId, remaining).rest
        invariant goal.cost == totalCost + Fifo(items[i..], variationId, remaining).cost
        decreases |items| - i
      {
        var item := items[i];
        if item.variationId == variationId {
          var used := Min(item.weightKg, remaining);
          var kept' := kept;
          item := item.(weightKg := item.weightKg - used);
          if item.weightKg != 0.0 {
            kept' := kept + [item];
          }
          WalkTake(items, i, variationId, remaining, kept, totalCost, goal,
                   used, kept', totalCost + used * items[i].costPerKg, remaining - used);
          totalCost := totalCost + used * items[i].costPerKg;
          remaining := remaining - used;
          kept := kept';
        } else {
          WalkSkip(items, i, variationId, remaining, kept, totalCost, goal, kept + [item]);
          kept := kept + [item];
        }
        i := i + 1;
      }
      WalkDone(items, i, variationId, remaining, kept, totalCost, goal);
      FifoKeepsOrder(items, variationId, weightNeeded);
      lots := kept + items[i..];
      avg := Some(totalCost / weightNeeded);
    }
  }
}
