/** The balance engine: the per-depot stock table the stock tab shows
    (clc.py:68-78) and the origin balance the transfer guard reads
    (clc.py:104-107), both computed the way the source computes them and both
    proved equal to `Ledger.Balance`. */
module Balances {
  import opened Ledger
  import opened Text

  // ---------------------------------------------------------------------
  // Row filters and sums, each the model of one pandas selection
  // ---------------------------------------------------------------------

  /** The movements booked at depot `d`, in ledger order (the `m_dep` selection). */
  function AtDepot(l: Ledger, d: Depot): Ledger
  {
    if l == [] then []
    else if l[|l| - 1].deposito == d then AtDepot(l[..|l| - 1], d) + [l[|l| - 1]] else AtDepot(l[..|l| - 1], d)
  }

  /** The movements whose "Tipo" cell is `k`, in ledger order. */
  function OfKind(l: Ledger, k: string): Ledger
  {
    if l == [] then []
    else if l[|l| - 1].tipo == k then OfKind(l[..|l| - 1], k) + [l[|l| - 1]] else OfKind(l[..|l| - 1], k)
  }

  /** The movements of product `p` at depot `d`, in ledger order (the guard's `df_f`). */
  function OfProductAt(l: Ledger, p: string, d: Depot): Ledger
  {
    if l == [] then []
    else
      var m := l[|l| - 1];
      if m.producto == p && m.deposito == d then OfProductAt(l[..|l| - 1], p, d) + [m] else OfProductAt(l[..|l| - 1], p, d)
  }

  /** The sum of the quantities of a selection. */
  function Total(l: Ledger): real
  {
    if l == [] then 0.0 else Total(l[..|l| - 1]) + l[|l| - 1].cantidad
  }

  /** The "Producto" column of a selection. */
  function Names(l: Ledger): (r: seq<string>)
    ensures |r| == |l|
  {
    seq(|l|, i requires 0 <= i < |l| => l[i].producto)
  }

  /** A grouped sum read with a missing key as 0, as `fill_value=0` does. */
  function Get(g: map<string, real>, p: string): real
  {
    if p in g then g[p] else 0.0
  }

  /** The quantities of a selection summed per product name: one entry per product
      present in `l`, holding the sum of its quantities. */
  function GroupSum(l: Ledger): map<string, real>
  {
    if l == [] then map[]
    else
      var m := l[|l| - 1];
      var g := GroupSum(l[..|l| - 1]);
      g[m.producto := Get(g, m.producto) + m.cantidad]
  }

  lemma {:induction false} AtDepotMembers(l: Ledger, d: Depot)
    ensures forall m :: m in AtDepot(l, d) <==> m in l && m.deposito == d
    decreases |l|
  {
    if l != [] {
      AtDepotMembers(l[..|l| - 1], d);
      assert l == l[..|l| - 1] + [l[|l| - 1]];
    }
  }

  lemma {:induction false} OfKindMembers(l: Ledger, k: string)
    ensures forall m :: m in OfKind(l, k) <==> m in l && m.tipo == k
    decreases |l|
  {
    if l != [] {
      OfKindMembers(l[..|l| - 1], k);
      assert l == l[..|l| - 1] + [l[|l| - 1]];
    }
  }

  lemma OfKindSnoc(x: Ledger, m: Movement, k: string)
    ensures OfKind(x + [m], k) == if m.tipo == k then OfKind(x, k) + [m] else OfKind(x, k)
  {
    assert (x + [m])[..|x|] == x;
  }

  lemma GroupSumSnoc(x: Ledger, m: Movement)
    ensures GroupSum(x + [m]) == GroupSum(x)[m.producto := Get(GroupSum(x), m.producto) + m.cantidad]
  {
    assert (x + [m])[..|x|] == x;
  }

  lemma TotalSnoc(x: Ledger, m: Movement)
    ensures Total(x + [m]) == Total(x) + m.cantidad
  {
    assert (x + [m])[..|x|] == x;
  }

  lemma NamesMembership(x: Ledger)
    ensures forall p :: p in Names(x) <==> exists m :: m in x && m.producto == p
  {
    forall p | p in Names(x)
      ensures exists m :: m in x && m.producto == p
    {
      var i :| 0 <= i < |x| && Names(x)[i] == p;
      assert x[i] in x;
    }
    forall m | m in x
      ensures m.producto in Names(x)
    {
      var i :| 0 <= i < |x| && x[i] == m;
      assert Names(x)[i] == m.producto;
    }
  }

  // ---------------------------------------------------------------------
  // The transfer guard's origin balance (clc.py:104-107)
  // ---------------------------------------------------------------------

  lemma {:induction false} GuardSumsGiveBalance(l: Ledger, p: string, d: Depot)
    ensures Total(OfKind(OfProductAt(l, p, d), "Ingreso"))
          - Total(OfKind(OfProductAt(l, p, d), "Egreso")) == Balance(l, p, d)
    decreases |l|
  {
    if l != [] {
      var l0, m := l[..|l| - 1], l[|l| - 1];
      GuardSumsGiveBalance(l0, p, d);
      if m.producto == p && m.deposito == d {
        var f := OfProductAt(l0, p, d);
        assert OfProductAt(l, p, d) == f + [m];
        OfKindSnoc(f, m, "Ingreso");
        OfKindSnoc(f, m, "Egreso");
        TotalSnoc(OfKind(f, "Ingreso"), m);
        TotalSnoc(OfKind(f, "Egreso"), m);
        assert Balance(l, p, d) == Balance(l0, p, d) + Signed(m);
      } else {
        assert OfProductAt(l, p, d) == OfProductAt(l0, p, d);
      }
    }
  }

  /** `stk_origen`: Ingreso total minus Egreso total over the rows of `p` at
      `d`, and 0 when there are no movements at all. */
  function OriginStock(l: Ledger, p: string, d: Depot): (s: real)
    ensures s == Balance(l, p, d)
  {
    if l == [] then 0.0
    else
      var f := OfProductAt(l, p, d);
      GuardSumsGiveBalance(l, p, d);
      Total(OfKind(f, "Ingreso")) - Total(OfKind(f, "Egreso"))
  }

  // ---------------------------------------------------------------------
  // The sorted product index of a grouped result
  // ---------------------------------------------------------------------

  /** Strictly increasing, hence free of repeats. */
  ghost predicate Increasing(s: seq<string>)
  {
    forall i, j :: 0 <= i < j < |s| ==> Less(s[i], s[j])
  }

  /** A strictly increasing index repeats no name. */
  lemma IncreasingDistinct(s: seq<string>)
    requires Increasing(s)
    ensures forall i, j :: 0 <= i < j < |s| ==> s[i] != s[j]
  {
    forall i, j | 0 <= i < j < |s|
      ensures s[i] != s[j]
    {
      LessIrreflexive(s[i]);
    }
  }

  lemma ConsIncreasing(h: string, s: seq<string>)
    requires Increasing(s)
    requires forall y :: y in s ==> Less(h, y)
    ensures Increasing([h] + s)
  {
    forall i, j | 0 <= i < j < |[h] + s|
      ensures Less(([h] + s)[i], ([h] + s)[j])
    {
      if i == 0 {
        assert s[j - 1] in s;
      }
    }
  }

  lemma PrependIncreasing(x: string, s: seq<string>)
    requires Increasing(s) && s != [] && Less(x, s[0])
    ensures Increasing([x] + s)
  {
    forall y | y in s
      ensures Less(x, y)
    {
      var j :| 0 <= j < |s| && s[j] == y;
      if j > 0 {
        LessTransitive(x, s[0], y);
      }
    }
    ConsIncreasing(x, s);
  }

  /** Adds `x` to a sorted index unless it is already there. */
  function Insert(x: string, s: seq<string>): (r: seq<string>)
    requires Increasing(s)
    ensures Increasing(r)
    ensures forall y :: y in r <==> y == x || y in s
    decreases |s|
  {
    if s == [] then [x]
    else if x == s[0] then s
    else if Less(x, s[0]) then
      PrependIncreasing(x, s);
      [x] + s
    else
      LessTotal(x, s[0]);
      assert s == [s[0]] + s[1..];
      var rest := Insert(x, s[1..]);
      assert forall y :: y in s[1..] ==> Less(s[0], y);
      ConsIncreasing(s[0], rest);
      [s[0]] + rest
  }

  /** The sorted, repeat-free index of a list of names, as a pandas group-by
      produces it. */
  function SortedIndex(names: seq<string>): (r: seq<string>)
    ensures Increasing(r)
    ensures forall y :: y in r <==> y in names
  {
    if names == [] then []
    else
      assert names == names[..|names| - 1] + [names[|names| - 1]];
      Insert(names[|names| - 1], SortedIndex(names[..|names| - 1]))
  }

  // ---------------------------------------------------------------------
  // The stock table of one depot (clc.py:68-75)
  // ---------------------------------------------------------------------

  datatype StockRow = StockRow(producto: string, disponible: real)

  /** Appending one movement to a selection adds its quantity to its own
      product's group in the per-kind sums, and to nothing else. */
  lemma KindGroupSnoc(x: Ledger, m: Movement, k: string, p: string)
    ensures Get(GroupSum(OfKind(x + [m], k)), p)
         == Get(GroupSum(OfKind(x, k)), p) + (if m.tipo == k && m.producto == p then m.cantidad else 0.0)
  {
    OfKindSnoc(x, m, k);
    if m.tipo == k {
      GroupSumSnoc(OfKind(x, k), m);
    }
  }

  lemma {:induction false} KindSumsGiveBalance(l: Ledger, p: string, d: Depot)
    ensures Get(GroupSum(OfKind(AtDepot(l, d), "Ingreso")), p)
          - Get(GroupSum(OfKind(AtDepot(l, d), "Egreso")), p) == Balance(l, p, d)
    decreases |l|
  {
    if l != [] {
      var l0, m := l[..|l| - 1], l[|l| - 1];
      KindSumsGiveBalance(l0, p, d);
      if m.deposito == d {
        var x := AtDepot(l0, d);
        assert AtDepot(l, d) == x + [m];
        KindGroupSnoc(x, m, "Ingreso", p);
        KindGroupSnoc(x, m, "Egreso", p);
        assert Balance(l, p, d) == Balance(l0, p, d) + (if m.producto == p then Signed(m) else 0.0);
      } else {
        assert AtDepot(l, d) == AtDepot(l0, d);
      }
    }
  }

  lemma AllKindSumsGiveBalance(l: Ledger, d: Depot)
    ensures forall p :: Get(GroupSum(OfKind(AtDepot(l, d), "Ingreso")), p)
                      - Get(GroupSum(OfKind(AtDepot(l, d), "Egreso")), p) == Balance(l, p, d)
  {
    forall p
      ensures Get(GroupSum(OfKind(AtDepot(l, d), "Ingreso")), p)
            - Get(GroupSum(OfKind(AtDepot(l, d), "Egreso")), p) == Balance(l, p, d)
    {
      KindSumsGiveBalance(l, p, d);
    }
  }

  /** The union of the two group indexes holds exactly the products with an
      Ingreso or an Egreso at `d`. */
  lemma FlowIndex(l: Ledger, d: Depot)
    ensures forall p :: p in Names(OfKind(AtDepot(l, d), "Ingreso")) + Names(OfKind(AtDepot(l, d), "Egreso"))
                    <==> HasFlow(l, p, d)
  {
    AtDepotMembers(l, d);
    OfKindMembers(AtDepot(l, d), "Ingreso");
    OfKindMembers(AtDepot(l, d), "Egreso");
    NamesMembership(OfKind(AtDepot(l, d), "Ingreso"));
    NamesMembership(OfKind(AtDepot(l, d), "Egreso"));
  }

  /** `stk_final`: one row per product with an Ingreso or an Egreso at `d`,
      in name order, holding the Ingreso sum minus the Egreso sum with a
      missing side read as 0. An empty ledger or a depot without movements
      yields no rows (the source shows a notice instead of a table). */
  function StockTable(l: Ledger, d: Depot): (t: seq<StockRow>)
    ensures forall i, j :: 0 <= i < j < |t| ==> Less(t[i].producto, t[j].producto)
    ensures forall i, j :: 0 <= i < j < |t| ==> t[i].producto != t[j].producto
    ensures forall p :: (exists i :: 0 <= i < |t| && t[i].producto == p) <==> HasFlow(l, p, d)
    ensures forall i :: 0 <= i < |t| ==> t[i].disponible == Balance(l, t[i].producto, d)
  {
    var dep := AtDepot(l, d);
    var ing := GroupSum(OfKind(dep, "Ingreso"));
    var egr := GroupSum(OfKind(dep, "Egreso"));
    var idx := SortedIndex(Names(OfKind(dep, "Ingreso")) + Names(OfKind(dep, "Egreso")));
    FlowIndex(l, d);
    AllKindSumsGiveBalance(l, d);
    IncreasingDistinct(idx);
    var t := seq(|idx|, i requires 0 <= i < |idx| => StockRow(idx[i], Get(ing, idx[i]) - Get(egr, idx[i])));
    assert forall p :: p in idx ==> exists i :: 0 <= i < |t| && t[i].producto == p by {
      forall p | p in idx
        ensures exists i :: 0 <= i < |t| && t[i].producto == p
      {
        var i :| 0 <= i < |idx| && idx[i] == p;
        assert t[i].producto == p;
      }
    }
    t
  }
}
