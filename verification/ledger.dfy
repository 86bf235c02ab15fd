/** The two tables of the inventory: the catalog of products and the
    append-only list of stock movements, with the net balance of a product at
    a depot as the reference definition every derived view is checked
    against. */
module Ledger {

  datatype Option<T> = None | Some(value: T)

  /** The fixed set of sectors (clc.py:28). */
  datatype Depot = Molino | Despacho | Fabrica

  /** The direction a "Tipo" cell books. A cell holding anything other than
      "Ingreso" or "Egreso" can only come from editing the file by hand; it
      reads as `Unrecognised` and counts on neither side of a balance. */
  datatype Kind = Ingreso | Egreso | Unrecognised(cell: string)

  /** Reads a "Tipo" cell: the balance computations compare the cell with the
      two labels exactly, so any other text, however close, is unrecognised. */
  function ParseKind(cell: string): (k: Kind)
    ensures k == Ingreso <==> cell == "Ingreso"
    ensures k == Egreso <==> cell == "Egreso"
    ensures k.Unrecognised? ==> k.cell == cell && cell != "Ingreso" && cell != "Egreso"
  {
    if cell == "Ingreso" then Ingreso
    else if cell == "Egreso" then Egreso
    else Unrecognised(cell)
  }

  /** One row of the "Movimientos" sheet, with the "Tipo" cell as written.
      The quantity is a magnitude; the direction is carried by the cell. */
  datatype Movement = Movement(
    fecha: string,
    producto: string,
    tipo: string,
    cantidad: real,
    deposito: Depot)

  type Ledger = seq<Movement>

  /** One row of the "Catalogo" sheet. Supplier and minimum may be blank. */
  datatype Product = Product(
    producto: string,
    proveedor: Option<string>,
    minimo: Option<real>,
    unidadesFardo: real)

  type Catalog = seq<Product>

  /** Both sheets of the backing file, saved together. */
  datatype Store = Store(catalogo: Catalog, movimientos: Ledger)

  /** The contribution of one movement to the balance of its own product and depot. */
  function Signed(m: Movement): real
  {
    match ParseKind(m.tipo)
    case Ingreso => m.cantidad
    case Egreso => -m.cantidad
    case Unrecognised(_) => 0.0
  }

  /** Reference definition: the net stock of `p` at `d` is the sum of its
      Ingreso quantities there minus the sum of its Egreso quantities there. */
  function Balance(l: Ledger, p: string, d: Depot): real
  {
    if l == [] then 0.0
    else
      var m := l[|l| - 1];
      Balance(l[..|l| - 1], p, d) + (if m.producto == p && m.deposito == d then Signed(m) else 0.0)
  }

  /** Appending one movement changes only the balance of its own product and depot. */
  lemma BalanceSnoc(l: Ledger, m: Movement, p: string, d: Depot)
    ensures Balance(l + [m], p, d)
         == Balance(l, p, d) + (if m.producto == p && m.deposito == d then Signed(m) else 0.0)
  {
    assert (l + [m])[..|l|] == l;
  }

  /** Balances add up over consecutive stretches of the ledger: the balance
      of a ledger is the balance of its first part plus that of the rest. */
  lemma {:induction false} BalanceAppend(l1: Ledger, l2: Ledger, p: string, d: Depot)
    ensures Balance(l1 + l2, p, d) == Balance(l1, p, d) + Balance(l2, p, d)
    decreases |l2|
  {
    if l2 == [] {
      assert l1 + l2 == l1;
    } else {
      var l0, m := l2[..|l2| - 1], l2[|l2| - 1];
      assert l1 + l2 == (l1 + l0) + [m];
      BalanceSnoc(l1 + l0, m, p, d);
      BalanceAppend(l1, l0, p, d);
    }
  }

  /** Some Ingreso or Egreso of `p` is booked at `d`. */
  ghost predicate HasFlow(l: Ledger, p: string, d: Depot)
  {
    exists m :: m in l && m.producto == p && m.deposito == d && (m.tipo == "Ingreso" || m.tipo == "Egreso")
  }

  /** Without any Ingreso or Egreso of `p` at `d`, its balance there is zero. */
  lemma {:induction false} NoFlowZeroBalance(l: Ledger, p: string, d: Depot)
    requires !HasFlow(l, p, d)
    ensures Balance(l, p, d) == 0.0
    decreases |l|
  {
    if l != [] {
      var m := l[|l| - 1];
      assert m in l;
      assert !HasFlow(l[..|l| - 1], p, d) by {
        forall x | x in l[..|l| - 1]
          ensures !(x.producto == p && x.deposito == d && (x.tipo == "Ingreso" || x.tipo == "Egreso"))
        {
          assert x in l;
        }
      }
      NoFlowZeroBalance(l[..|l| - 1], p, d);
    }
  }

  /** A product that was only ever taken out of a depot, in positive
      amounts, stands below zero there. */
  lemma {:induction false} EgressOnlyIsNegative(l: Ledger, p: string, d: Depot)
    requires forall m :: m in l && m.producto == p && m.deposito == d ==> m.tipo != "Ingreso" && m.cantidad > 0.0
    ensures Balance(l, p, d) <= 0.0
    ensures HasFlow(l, p, d) ==> Balance(l, p, d) < 0.0
    decreases |l|
  {
    if l != [] {
      var l0, m := l[..|l| - 1], l[|l| - 1];
      assert l == l0 + [m];
      EgressOnlyIsNegative(l0, p, d);
      if HasFlow(l, p, d) && !HasFlow(l0, p, d) {
        var x :| x in l && x.producto == p && x.deposito == d && (x.tipo == "Ingreso" || x.tipo == "Egreso");
        assert x == m;
      }
    }
  }

  /** No two catalog rows share a product name. */
  predicate UniqueNames(c: Catalog)
  {
    forall i, j :: 0 <= i < j < |c| ==> c[i].producto != c[j].producto
  }

  /** The first catalog row named `p`; the entry tab reads the bundle size
      from this row when the product has several. */
  function Lookup(c: Catalog, p: string): (r: Option<Product>)
    ensures r.None? <==> forall i :: 0 <= i < |c| ==> c[i].producto != p
    ensures r.Some? ==> exists i :: 0 <= i < |c| && c[i] == r.value && c[i].producto == p
                                  && forall j :: 0 <= j < i ==> c[j].producto != p
  {
    if c == [] then None
    else if c[0].producto == p then Some(c[0])
    else
      var r := Lookup(c[1..], p);
      assert forall i :: 1 <= i < |c| ==> c[i] == c[1..][i - 1];
      r
  }
}
