/** The depot view of the stock tab: the stock table left-joined to the
    catalog on the product name (clc.py:78). */
module StockView {
  import opened Ledger
  import opened Text
  import opened Balances
  import opened Subsequences

  /** One displayed row: the product, its balance, and the catalog row it
      joined with (`None` when the catalog has no row of that name, in which
      case supplier and minimum show blank). */
  datatype ViewRow = ViewRow(producto: string, disponible: real, entry: Option<Product>)
  {
    function Proveedor(): Option<string>
    {
      if entry.Some? then entry.value.proveedor else None
    }
  }

  /** The catalog rows named `p`, in catalog order. */
  function Matching(c: Catalog, p: string): seq<Product>
  {
    if c == [] then []
    else
      assert c == [c[0]] + c[1..];
      if c[0].producto == p then [c[0]] + Matching(c[1..], p) else Matching(c[1..], p)
  }

  /** `Matching` is the name-filtered subsequence of the catalog: it holds
      exactly the catalog rows named `p`, in catalog order, each as often as
      in the catalog. */
  lemma {:induction false} MatchingSelects(c: Catalog, p: string)
    ensures forall e :: e in Matching(c, p) <==> e in c && e.producto == p
    ensures Subsequence(Matching(c, p), c)
    ensures forall e :: multiset(Matching(c, p))[e] == if e.producto == p then multiset(c)[e] else 0
    decreases |c|
  {
    if c != [] {
      assert c == [c[0]] + c[1..];
      MatchingSelects(c[1..], p);
      var rest := Matching(c[1..], p);
      if c[0].producto == p {
        SubsequenceConsBoth(c[0], rest, c[1..]);
      } else {
        SubsequenceConsRight(rest, c[0], c[1..]);
      }
    }
  }

  /** The stock row `s` paired with each of the catalog rows `ms`, in order. */
  function Attach(s: StockRow, ms: seq<Product>): seq<ViewRow>
  {
    if ms == [] then [] else [ViewRow(s.producto, s.disponible, Some(ms[0]))] + Attach(s, ms[1..])
  }

  lemma {:induction false} AttachShape(s: StockRow, ms: seq<Product>)
    ensures |Attach(s, ms)| == |ms|
    ensures forall i :: 0 <= i < |ms| ==> Attach(s, ms)[i] == ViewRow(s.producto, s.disponible, Some(ms[i]))
    decreases |ms|
  {
    if ms != [] {
      AttachShape(s, ms[1..]);
    }
  }

  /** The rows a left join emits for one stock row. */
  function JoinRow(s: StockRow, c: Catalog): seq<ViewRow>
  {
    var ms := Matching(c, s.producto);
    if ms == [] then [ViewRow(s.producto, s.disponible, None)] else Attach(s, ms)
  }

  /** A left join emits one row per matching catalog row, in catalog order,
      or one row with blank catalog fields when nothing matches; every row
      keeps the stock row's product and balance. */
  lemma JoinRowShape(s: StockRow, c: Catalog)
    ensures var ms, r := Matching(c, s.producto), JoinRow(s, c);
      && |r| == (if ms == [] then 1 else |ms|)
      && (ms == [] ==> r[0].entry.None?)
      && (forall i :: 0 <= i < |ms| ==> r[i].entry == Some(ms[i]))
      && (forall i :: 0 <= i < |r| ==> r[i].producto == s.producto && r[i].disponible == s.disponible)
  {
    AttachShape(s, Matching(c, s.producto));
  }

  /** The per-row blocks of a left join with catalog `c`. */
  function Block(c: Catalog): StockRow -> seq<ViewRow>
  {
    s => JoinRow(s, c)
  }

  /** The blocks `f(s)` of the rows `s` of `t`, concatenated in the order of `t`. */
  function Concat(t: seq<StockRow>, f: StockRow -> seq<ViewRow>): seq<ViewRow>
  {
    if t == [] then [] else Concat(t[..|t| - 1], f) + f(t[|t| - 1])
  }

  /** The left join of the stock table with the catalog on the product name,
      keeping the stock table's row order. */
  function Join(t: seq<StockRow>, c: Catalog): seq<ViewRow>
  {
    Concat(t, Block(c))
  }

  lemma {:induction false} ConcatAppend(t1: seq<StockRow>, t2: seq<StockRow>, f: StockRow -> seq<ViewRow>)
    ensures Concat(t1 + t2, f) == Concat(t1, f) + Concat(t2, f)
    decreases |t2|
  {
    if t2 == [] {
      assert t1 + t2 == t1;
    } else {
      var t0, s := t2[..|t2| - 1], t2[|t2| - 1];
      ConcatAppend(t1, t0, f);
      assert (t1 + t2)[..|t1 + t2| - 1] == t1 + t0;
    }
  }

  /** A joined row comes from the block of some stock row, and every row of
      every block is in the join. */
  lemma {:induction false} ConcatMembers(t: seq<StockRow>, f: StockRow -> seq<ViewRow>)
    ensures forall x :: x in Concat(t, f) ==> exists k :: 0 <= k < |t| && x in f(t[k])
    ensures forall k, x :: 0 <= k < |t| && x in f(t[k]) ==> x in Concat(t, f)
    decreases |t|
  {
    if t != [] {
      var t0 := t[..|t| - 1];
      ConcatMembers(t0, f);
      assert forall k :: 0 <= k < |t0| ==> t0[k] == t[k];
    }
  }

  /** With blocks of one row each, the join has one row per stock row. */
  lemma {:induction false} ConcatSingles(t: seq<StockRow>, f: StockRow -> seq<ViewRow>)
    requires forall s :: |f(s)| == 1
    ensures |Concat(t, f)| == |t|
    ensures forall i :: 0 <= i < |t| ==> Concat(t, f)[i] == f(t[i])[0]
    decreases |t|
  {
    if t != [] {
      ConcatSingles(t[..|t| - 1], f);
    }
  }

  /** The join is the concatenation of the per-row blocks in stock-table
      order: joining a table split in two joins each half. */
  lemma JoinAppend(t1: seq<StockRow>, t2: seq<StockRow>, c: Catalog)
    ensures Join(t1 + t2, c) == Join(t1, c) + Join(t2, c)
  {
    ConcatAppend(t1, t2, Block(c));
  }

  /** Every row of the block shows product `p`. */
  predicate Uniform(b: seq<ViewRow>, p: string)
  {
    forall x :: x in b ==> x.producto == p
  }

  /** Every block a left join emits shows its stock row's product. */
  lemma BlocksUniform(c: Catalog)
    ensures forall s :: Uniform(Block(c)(s), s.producto)
  {
    forall s
      ensures Uniform(Block(c)(s), s.producto)
    {
      JoinRowShape(s, c);
    }
  }

  /** The rows of a view that show product `p`, in view order. */
  function RowsFor(v: seq<ViewRow>, p: string): seq<ViewRow>
  {
    if v == [] then []
    else
      var x := v[|v| - 1];
      if x.producto == p then RowsFor(v[..|v| - 1], p) + [x] else RowsFor(v[..|v| - 1], p)
  }

  /** Picking the rows of one product distributes over concatenation. */
  lemma {:induction false} RowsForAppend(a: seq<ViewRow>, b: seq<ViewRow>, p: string)
    ensures RowsFor(a + b, p) == RowsFor(a, p) + RowsFor(b, p)
    decreases |b|
  {
    if b == [] {
      assert a + b == a;
      assert RowsFor(a, p) + [] == RowsFor(a, p);
    } else {
      var b0, x := b[..|b| - 1], b[|b| - 1];
      assert (a + b)[..|a + b| - 1] == a + b0;
      assert (a + b)[|a + b| - 1] == x;
      RowsForAppend(a, b0, p);
      if x.producto == p {
        assert RowsFor(a + b, p) == RowsFor(a, p) + RowsFor(b0, p) + [x];
      }
    }
  }

  /** A block whose rows all show `p` is picked whole; one without `p` is
      dropped. */
  lemma {:induction false} RowsForBlock(a: seq<ViewRow>, p: string)
    ensures Uniform(a, p) ==> RowsFor(a, p) == a
    ensures (forall x :: x in a ==> x.producto != p) ==> RowsFor(a, p) == []
    decreases |a|
  {
    if a != [] {
      var a0 := a[..|a| - 1];
      assert a == a0 + [a[|a| - 1]];
      RowsForBlock(a0, p);
    }
  }

  /** With one stock row per product and blocks that show their row's
      product, the rows of the concatenation that show `p` are exactly the
      block of `p`'s stock row, and none when `t` has no row for `p`. */
  lemma {:induction false} ConcatBlocks(t: seq<StockRow>, f: StockRow -> seq<ViewRow>, p: string)
    requires forall i, j :: 0 <= i < j < |t| ==> t[i].producto != t[j].producto
    requires forall s :: Uniform(f(s), s.producto)
    ensures forall i :: 0 <= i < |t| && t[i].producto == p ==> RowsFor(Concat(t, f), p) == f(t[i])
    ensures (forall i :: 0 <= i < |t| ==> t[i].producto != p) ==> RowsFor(Concat(t, f), p) == []
    decreases |t|
  {
    if t != [] {
      var t0, s := t[..|t| - 1], t[|t| - 1];
      assert forall i :: 0 <= i < |t0| ==> t0[i] == t[i];
      ConcatBlocks(t0, f, p);
      var b := f(s);
      RowsForAppend(Concat(t0, f), b, p);
      RowsForBlock(b, p);
      assert Uniform(b, s.producto);
      if s.producto == p {
        assert t[|t| - 1].producto == p;
        assert forall i :: 0 <= i < |t0| ==> t0[i].producto != p;
        assert RowsFor(Concat(t, f), p) == [] + b;
      } else {
        assert RowsFor(Concat(t, f), p) == RowsFor(Concat(t0, f), p) + [];
      }
    }
  }

  /** Rows of one product stay together and products follow one another in
      code-point order of their names. */
  predicate NameOrdered(v: seq<ViewRow>)
  {
    forall i, j :: 0 <= i < j < |v| ==> v[i].producto == v[j].producto || Less(v[i].producto, v[j].producto)
  }

  /** Concatenating, in strict name order, blocks that each show their own
      row's product gives rows in name order. */
  lemma {:induction false} ConcatSorted(t: seq<StockRow>, f: StockRow -> seq<ViewRow>)
    requires forall i, j :: 0 <= i < j < |t| ==> Less(t[i].producto, t[j].producto)
    requires forall s :: Uniform(f(s), s.producto)
    ensures NameOrdered(Concat(t, f))
    decreases |t|
  {
    if t != [] {
      var t0, s := t[..|t| - 1], t[|t| - 1];
      ConcatSorted(t0, f);
      ConcatMembers(t0, f);
      var v0, b := Concat(t0, f), f(s);
      assert Uniform(b, s.producto);
      assert forall x :: x in v0 ==> Less(x.producto, s.producto) by {
        forall x | x in v0
          ensures Less(x.producto, s.producto)
        {
          var k :| 0 <= k < |t0| && x in f(t0[k]);
          assert Uniform(f(t0[k]), t0[k].producto);
          assert t[k] == t0[k];
        }
      }
      var v := v0 + b;
      forall i, j | 0 <= i < j < |v|
        ensures v[i].producto == v[j].producto || Less(v[i].producto, v[j].producto)
      {
        if j < |v0| {
          assert v[i] == v0[i] && v[j] == v0[j];
        } else if i < |v0| {
          assert v[i] == v0[i] && v[j] == b[j - |v0|];
          assert v0[i] in v0 && b[j - |v0|] in b;
        } else {
          assert v[i] == b[i - |v0|] && v[j] == b[j - |v0|];
          assert b[i - |v0|] in b && b[j - |v0|] in b;
        }
      }
      assert Concat(t, f) == v;
    }
  }

  /** With one stock row per product, the rows of the join that show `p` are
      exactly the block of `p`'s stock row, and there are none when the stock
      table has no row for `p`. */
  lemma JoinBlocks(t: seq<StockRow>, c: Catalog, p: string)
    requires forall i, j :: 0 <= i < j < |t| ==> t[i].producto != t[j].producto
    ensures forall i :: 0 <= i < |t| && t[i].producto == p ==> RowsFor(Join(t, c), p) == JoinRow(t[i], c)
    ensures (forall i :: 0 <= i < |t| ==> t[i].producto != p) ==> RowsFor(Join(t, c), p) == []
  {
    BlocksUniform(c);
    ConcatBlocks(t, Block(c), p);
  }

  /** A stock table in strict name order joins to a view in name order: rows
      of one product stay together, and products follow one another by name. */
  lemma JoinSorted(t: seq<StockRow>, c: Catalog)
    requires forall i, j :: 0 <= i < j < |t| ==> Less(t[i].producto, t[j].producto)
    ensures NameOrdered(Join(t, c))
  {
    BlocksUniform(c);
    ConcatSorted(t, Block(c));
  }

  /** Every joined row carries the product and balance of some stock row and,
      when it has a catalog part, a catalog row of that same product; every
      stock row shows up in at least one joined row. */
  lemma JoinRows(t: seq<StockRow>, c: Catalog)
    ensures forall v :: v in Join(t, c) ==> StockRow(v.producto, v.disponible) in t
    ensures forall v :: v in Join(t, c) && v.entry.Some? ==> v.entry.value in c && v.entry.value.producto == v.producto
    ensures forall s :: s in t ==> exists v :: v in Join(t, c) && v.producto == s.producto && v.disponible == s.disponible
  {
    var f := Block(c);
    ConcatMembers(t, f);
    forall v | v in Join(t, c)
      ensures StockRow(v.producto, v.disponible) in t
      ensures v.entry.Some? ==> v.entry.value in c && v.entry.value.producto == v.producto
    {
      var k :| 0 <= k < |t| && v in f(t[k]);
      var s := t[k];
      var r, ms := JoinRow(s, c), Matching(c, s.producto);
      JoinRowShape(s, c);
      MatchingSelects(c, s.producto);
      var i :| 0 <= i < |r| && r[i] == v;
      assert StockRow(v.producto, v.disponible) == s;
      if v.entry.Some? {
        assert ms != [];
        assert ms[i] in ms;
      }
    }
    forall s | s in t
      ensures exists v :: v in Join(t, c) && v.producto == s.producto && v.disponible == s.disponible
    {
      var k :| 0 <= k < |t| && t[k] == s;
      JoinRowShape(s, c);
      assert JoinRow(s, c)[0] in f(t[k]);
    }
  }

  /** With repeat-free catalog names the rows naming `p` are exactly the
      first (and only) one `Lookup` finds. */
  lemma {:induction false} MatchingUnique(c: Catalog, p: string)
    requires UniqueNames(c)
    ensures Matching(c, p) == if Lookup(c, p).Some? then [Lookup(c, p).value] else []
    decreases |c|
  {
    if c != [] {
      assert UniqueNames(c[1..]) by {
        forall i, j | 0 <= i < j < |c[1..]|
          ensures c[1..][i].producto != c[1..][j].producto
        {
          assert c[1..][i] == c[i + 1] && c[1..][j] == c[j + 1];
        }
      }
      MatchingUnique(c[1..], p);
      if c[0].producto == p {
        assert forall i :: 0 <= i < |c[1..]| ==> c[1..][i].producto != p by {
          forall i | 0 <= i < |c[1..]|
            ensures c[1..][i].producto != p
          {
            assert c[1..][i] == c[i + 1];
          }
        }
      }
    }
  }

  /** With repeat-free catalog names the join is one-to-one: each stock row
      becomes exactly one view row, with the catalog row `Lookup` finds. */
  lemma JoinUnique(t: seq<StockRow>, c: Catalog)
    requires UniqueNames(c)
    ensures |Join(t, c)| == |t|
    ensures forall i :: 0 <= i < |t| ==>
              Join(t, c)[i] == ViewRow(t[i].producto, t[i].disponible, Lookup(c, t[i].producto))
  {
    var f := Block(c);
    forall s
      ensures |f(s)| == 1 && f(s)[0] == ViewRow(s.producto, s.disponible, Lookup(c, s.producto))
    {
      MatchingUnique(c, s.producto);
      JoinRowShape(s, c);
    }
    ConcatSingles(t, f);
  }

  /** The stock tab's table for depot `d` before the search box applies:
      every row shows the balance of its product at `d` by the reference
      definition, every row's product has an Ingreso or Egreso there, every
      such product has a row, and a catalog part always belongs to the row's
      product. */
  function DepotView(l: Ledger, c: Catalog, d: Depot): (v: seq<ViewRow>)
    ensures forall x :: x in v ==> x.disponible == Balance(l, x.producto, d) && HasFlow(l, x.producto, d)
    ensures forall p :: HasFlow(l, p, d) ==> exists x :: x in v && x.producto == p
    ensures forall x :: x in v && x.entry.Some? ==> x.entry.value in c && x.entry.value.producto == x.producto
    ensures NameOrdered(v)
    ensures forall p :: HasFlow(l, p, d) ==> RowsFor(v, p) == JoinRow(StockRow(p, Balance(l, p, d)), c)
    ensures forall p :: !HasFlow(l, p, d) ==> RowsFor(v, p) == []
  {
    var t := StockTable(l, d);
    JoinRows(t, c);
    JoinSorted(t, c);
    ViewBlocks(l, c, d);
    assert forall s :: s in t ==> s.disponible == Balance(l, s.producto, d) && HasFlow(l, s.producto, d);
    assert forall p :: HasFlow(l, p, d) ==> exists s :: s in t && s.producto == p by {
      forall p | HasFlow(l, p, d)
        ensures exists s :: s in t && s.producto == p
      {
        var i :| 0 <= i < |t| && t[i].producto == p;
        assert t[i] in t;
      }
    }
    Join(t, c)
  }

  /** Each product's rows in the sector view: its block of the join when it
      has an Ingreso or Egreso there, and nothing otherwise. */
  lemma ViewBlocks(l: Ledger, c: Catalog, d: Depot)
    ensures forall p :: HasFlow(l, p, d) ==> RowsFor(Join(StockTable(l, d), c), p) == JoinRow(StockRow(p, Balance(l, p, d)), c)
    ensures forall p :: !HasFlow(l, p, d) ==> RowsFor(Join(StockTable(l, d), c), p) == []
  {
    var t := StockTable(l, d);
    forall p
      ensures HasFlow(l, p, d) ==> RowsFor(Join(t, c), p) == JoinRow(StockRow(p, Balance(l, p, d)), c)
      ensures !HasFlow(l, p, d) ==> RowsFor(Join(t, c), p) == []
    {
      JoinBlocks(t, c, p);
      if HasFlow(l, p, d) {
        var i :| 0 <= i < |t| && t[i].producto == p;
        assert t[i] == StockRow(p, Balance(l, p, d));
      }
    }
  }

  /** When no two catalog rows share a name the view has exactly one row per
      product with an Ingreso or Egreso at `d`, in name order, each joined with that
      product's catalog row. */
  lemma DepotViewUnique(l: Ledger, c: Catalog, d: Depot)
    requires UniqueNames(c)
    ensures var v := DepotView(l, c, d);
      && (forall i, j :: 0 <= i < j < |v| ==> Less(v[i].producto, v[j].producto))
      && (forall p :: (exists i :: 0 <= i < |v| && v[i].producto == p) <==> HasFlow(l, p, d))
      && (forall i :: 0 <= i < |v| ==> v[i].disponible == Balance(l, v[i].producto, d))
      && (forall i :: 0 <= i < |v| ==> v[i].entry == Lookup(c, v[i].producto))
  {
    JoinUnique(StockTable(l, d), c);
  }

  /** The transfer guard reads the same balance the stock tab shows: the
      `Disponible` of the product's row when it has one, and 0 when it has
      none (clc.py:104-107 against clc.py:72-74). */
  lemma GuardAgreesWithView(l: Ledger, c: Catalog, d: Depot, p: string)
    ensures forall x :: x in DepotView(l, c, d) && x.producto == p ==> OriginStock(l, p, d) == x.disponible
    ensures (forall x :: x in DepotView(l, c, d) ==> x.producto != p) ==> OriginStock(l, p, d) == 0.0
  {
    var v := DepotView(l, c, d);
    if forall x :: x in v ==> x.producto != p {
      assert !HasFlow(l, p, d);
      NoFlowZeroBalance(l, p, d);
    }
  }
}
