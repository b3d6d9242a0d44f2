/**
 * The records of models.py that the ledger and the dashboard work on.
 *
 * An `Inventory` row is a purchase lot of one variation; a `Sale` row records
 * one resale together with the cost basis the ledger computed for it. Database
 * identity, timestamps and relationships are not modelled, except that a sale
 * carries the names its relationships resolve to, since the dashboard groups
 * by those names.
 */
module Models {

  /** One row of the Inventory table: `weightKg` is what is left of the lot. */
  datatype Lot = Lot(id: nat, variationId: int, weightKg: real, costPerKg: real)

  /** One row of the Sale table, with `species`, `purchaseVariation` and
      `soldVariation` standing for the names of the related rows. */
  datatype Sale = Sale(
    species: string,
    purchaseVariation: string,
    soldVariation: string,
    weightKg: real,
    salePricePerKg: real,
    costPerKg: real)

  /** What the buyer paid: nothing for an empty sale, never negative for a
      non-negative price and weight. */
  function Revenue(s: Sale): (r: real)
    ensures s.weightKg == 0.0 ==> r == 0.0
    ensures s.salePricePerKg >= 0.0 && s.weightKg >= 0.0 ==> r >= 0.0
  {
    s.salePricePerKg * s.weightKg
  }

  /** What the sold weight cost at the recorded cost basis. */
  function Cost(s: Sale): (r: real)
    ensures s.weightKg == 0.0 ==> r == 0.0
    ensures s.costPerKg >= 0.0 && s.weightKg >= 0.0 ==> r >= 0.0
  {
    s.costPerKg * s.weightKg
  }

  /** Profit is the per-kilogram margin times the weight, so it is never
      negative when the sale price covers the cost basis. */
  function Profit(s: Sale): (r: real)
    ensures r == (s.salePricePerKg - s.costPerKg) * s.weightKg
    ensures s.salePricePerKg >= s.costPerKg && s.weightKg >= 0.0 ==> r >= 0.0
    ensures s.salePricePerKg < s.costPerKg && s.weightKg > 0.0 ==> r < 0.0
  {
    var margin := s.salePricePerKg - s.costPerKg;
    assert margin < 0.0 && s.weightKg > 0.0 ==> (-margin) * s.weightKg > 0.0;
    Revenue(s) - Cost(s)
  }
}
