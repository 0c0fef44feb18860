/**
 The threshold and the utilisation gate (shared/sellable/computation.py:53-90), over exact reals.
 */
module Gate {
  import opened Prelude

  const PCT_SLACK := 0.000000001 // 1e-9
  const QTY_SLACK := 0.000001    // 1e-6

  /** computation.py:53-58 */
  function ApplyThreshold(total: real, taken: real, pct: real): real {
    if total <= 0.0 then 0.0
    else Max(total * (Max(pct, 0.0) / 100.0) - Max(taken, 0.0), 0.0)
  }

  /** computation.py:61-72; an absent utilisation is passed as 0. */
  predicate GateBlocked(total: real, taken: real, utilPct: real, pct: real) {
    total > 0.0 && Max(100.0 * Max(taken, 0.0) / total, Max(utilPct, 0.0)) > pct + PCT_SLACK
  }

  /** computation.py:75-90 */
  function Headroom(total: real, taken: real, utilPct: real, pct: real): real {
    if total <= 0.0 || GateBlocked(total, taken, utilPct, pct) then 0.0
    else ApplyThreshold(total, taken, pct)
  }

  /** Headroom never goes below zero, and taking it all stays within the threshold. */
  lemma HeadroomBounds(total: real, taken: real, utilPct: real, pct: real)
    ensures Headroom(total, taken, utilPct, pct) >= 0.0
    ensures Headroom(total, taken, utilPct, pct) > 0.0 ==>
              total > 0.0 && pct > 0.0 && Max(taken, 0.0) + Headroom(total, taken, utilPct, pct)
                  == total * (pct / 100.0)
  {
  }

  /**
   Something is left to sell: the share of the total is not used up, and the utilisation does not
   close the gate.
   */
  predicate HasRoom(total: real, taken: real, utilPct: real, pct: real) {
    total > 0.0 && pct > 0.0 && Max(utilPct, 0.0) <= pct + PCT_SLACK && Max(taken, 0.0) < total * (pct / 100.0)
  }

  lemma RoomMeansHeadroom(total: real, taken: real, utilPct: real, pct: real)
    ensures HasRoom(total, taken, utilPct, pct) <==> Headroom(total, taken, utilPct, pct) > 0.0
  {
    if HasRoom(total, taken, utilPct, pct) {
      assert 100.0 * Max(taken, 0.0) <= total * pct;
      DivideBound(100.0 * Max(taken, 0.0), total, pct);
    }
  }

  /** Quantities sold out of the headroom come off it exactly, and never trip the gate. */
  lemma HeadroomAfterSale(total: real, taken: real, utilPct: real, pct: real, sold: real)
    requires taken >= 0.0 && 0.0 <= sold <= Headroom(total, taken, utilPct, pct)
    ensures Headroom(total, taken + sold, utilPct, pct) == Headroom(total, taken, utilPct, pct) - sold
  {
    HeadroomBounds(total, taken, utilPct, pct);
    if sold > 0.0 {
      var after := taken + sold;
      assert after <= total * (pct / 100.0);
      assert 100.0 * after <= total * pct;
      DivideBound(100.0 * after, total, pct);
    }
  }

  lemma DivideBound(x: real, d: real, q: real)
    requires d > 0.0 && x <= d * q
    ensures x / d <= q
  {
  }

  // ---------------------------------------------------------------- arithmetic

  lemma ScaleStrict(x: real, y: real, k: real)
    requires x < y && k > 0.0
    ensures x * k < y * k
  {
  }

  lemma Scale(x: real, y: real, k: real)
    requires x <= y && k >= 0.0
    ensures x * k <= y * k
  {
  }

  lemma Divide(x: real, y: real, d: real)
    requires x <= y && d > 0.0
    ensures x / d <= y / d
    ensures x >= 0.0 ==> x / d >= 0.0
    ensures x / d * d == x
  {
  }
}
