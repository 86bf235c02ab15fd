/** Worked examples of the laws, on the ledger of a flour mill. */
module Scenarios {
  import opened Ledger
  import opened StockView
  import opened Operations

  /** A row of the stock tab for a product that only ever left the depot
      shows a negative balance. */
  lemma EgressOnlyRowIsNegative(l: Ledger, c: Catalog, d: Depot, x: ViewRow)
    requires x in DepotView(l, c, d)
    requires forall m :: m in l && m.producto == x.producto && m.deposito == d ==> m.tipo != "Ingreso" && m.cantidad > 0.0
    ensures x.disponible < 0.0
  {
    EgressOnlyIsNegative(l, x.producto, d);
  }

  /** Three bundles of a 25-unit product are booked as 75 units. */
  lemma HarinaByBundles(l: Ledger, t: string)
    ensures ManualEntry([Product("Harina", None, None, 25.0)], l, "Harina", "Ingreso", 3.0, Fardos, Molino, t)
         == Ok(l + [Movement(t, "Harina", "Ingreso", 75.0, Molino)])
  {
  }

  /** With 10 units at the mill, moving 15 is blocked and reports the 10;
      forcing it posts both movements and leaves the mill at -5. */
  lemma HarinaForcedTransfer(t0: string, t: string)
    ensures var l := [Movement(t0, "Harina", "Ingreso", 10.0, Molino)];
      && Transfer(l, "Harina", Molino, Despacho, 15.0, false, t) == Err(InsufficientStock(10.0))
      && Transfer(l, "Harina", Molino, Despacho, 15.0, true, t)
         == Ok(l + [Movement(t, "Harina", "Egreso", 15.0, Molino), Movement(t, "Harina", "Ingreso", 15.0, Despacho)])
      && Balance(Transfer(l, "Harina", Molino, Despacho, 15.0, true, t).value, "Harina", Molino) == -5.0
  {
    var l := [Movement(t0, "Harina", "Ingreso", 10.0, Molino)];
    assert Balance(l, "Harina", Molino) == 10.0 by {
      assert l[..0] == [];
    }
    TransferConservation(l, "Harina", Molino, Despacho, 15.0, true, t, "Harina", Molino);
  }

  /** The stock guard comes before the quantity check: a zero-quantity
      transfer out of a depot already in the red is reported as blocked, not
      as an invalid quantity. */
  lemma GuardBeforeQuantityCheck(t0: string, t: string)
    ensures var l := [Movement(t0, "Harina", "Egreso", 2.0, Molino)];
      Transfer(l, "Harina", Molino, Fabrica, 0.0, false, t) == Err(InsufficientStock(-2.0))
  {
    var l := [Movement(t0, "Harina", "Egreso", 2.0, Molino)];
    assert Balance(l, "Harina", Molino) == -2.0 by {
      assert l[..0] == [];
    }
  }

  /** The "Tipo" cell is compared with the labels exactly: "Ingreso" books
      stock, while the same word spelled in lower case books nothing. */
  lemma TipoCellIsMatchedExactly(t: string)
    ensures Balance([Movement(t, "Harina", "Ingreso", 5.0, Molino)], "Harina", Molino) == 5.0
    ensures Balance([Movement(t, "Harina", "ingreso", 5.0, Molino)], "Harina", Molino) == 0.0
  {
    var a, b := [Movement(t, "Harina", "Ingreso", 5.0, Molino)], [Movement(t, "Harina", "ingreso", 5.0, Molino)];
    assert a[..0] == [] && b[..0] == [];
    assert "ingreso" != "Ingreso" by {
      assert "ingreso"[0] != "Ingreso"[0];
    }
  }
}
