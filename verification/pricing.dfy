/** The pricing policy: what a selection of `count` cells costs, and the
    derived counters shown next to the grid. */
module Pricing {
  import opened Selection

  /** The original price of the whole grid, charged by `buyOriginal`; the unit
      price of a cell is `FullGridPrice / Cells`. */
  const FullGridPrice: int := 640

  /** `Math.ceil(count * unitPrice)`, computed exactly with integers: the least
      whole number of currency units not below `count * 640 / 64`. */
  function Cost(count: nat): (c: nat)
    ensures c * Cells >= count * FullGridPrice
    ensures c > 0 ==> (c - 1) * Cells < count * FullGridPrice
  {
    (FullGridPrice * count + Cells - 1) / Cells
  }

  /** `64 - count`, the cells still free: for any well-formed selection of
      `count` cells it is the number of grid cells not selected. */
  function Remaining(count: nat): (r: int)
    ensures forall sel :: Wf(sel) && |sel| == count ==> r == |Unselected(sel)|
    ensures count <= Cells ==> 0 <= r <= Cells
    ensures r + count == Cells
  {
    forall sel | Wf(sel) && |sel| == count
      ensures Cells - count == |Unselected(sel)|
    {
      RemainingIsUnselected(sel);
    }
    Cells - count
  }

  /** The pay button is enabled exactly when something is selected, which is
      exactly when there is something to pay. */
  function PayEnabled(count: nat): (b: bool)
    ensures b <==> Cost(count) > 0
  {
    CostIsTenPerCell(count);
    count > 0
  }

  /** 640/64 is exactly 10, so the ceiling never rounds: every cell costs 10. */
  lemma CostIsTenPerCell(count: nat)
    ensures Cost(count) == 10 * count
  {
    assert FullGridPrice * count + Cells - 1 == Cells * (10 * count) + 63;
  }

  /** Selecting more cells never makes the price lower. */
  lemma CostMonotone(a: nat, b: nat)
    requires a <= b
    ensures Cost(a) <= Cost(b)
  {
    CostIsTenPerCell(a);
    CostIsTenPerCell(b);
  }

  /** No charge without a selection; the full grid costs the original price. */
  lemma CostBounds(count: nat)
    requires count <= Cells
    ensures Cost(count) == 0 <==> count == 0
    ensures Cost(count) <= FullGridPrice
    ensures count == Cells ==> Cost(count) == FullGridPrice
  {
    CostIsTenPerCell(count);
  }
}
