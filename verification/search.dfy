/** The search box of the stock tab (clc.py:81-84): a row stays when the
    query occurs, ignoring case, in its product name or in its supplier. */
module Search {
  import opened Text
  import opened StockView
  import opened Subsequences

  /** What the search box promises of a kept row. A blank supplier never
      matches (`na=False`). */
  ghost predicate Wanted(q: string, v: ViewRow)
  {
    || IsSubstring(Lower(q), Lower(v.producto))
    || (v.Proveedor().Some? && IsSubstring(Lower(q), Lower(v.Proveedor().value)))
  }

  /** One entry of the search mask: a case-insensitive containment test on
      the product name, or the same test on the supplier, which fails on a
      blank supplier. */
  function Mask(q: string, v: ViewRow): (b: bool)
    ensures b <==> Wanted(q, v)
  {
    var onName := Contains(Lower(q), Lower(v.producto));
    ContainsIsSubstring(Lower(q), Lower(v.producto));
    match v.Proveedor()
    case None => onName
    case Some(s) =>
      ContainsIsSubstring(Lower(q), Lower(s));
      onName || Contains(Lower(q), Lower(s))
  }

  /** Applies the mask: the rows it accepts, in their original order. */
  function Keep(rows: seq<ViewRow>, q: string): seq<ViewRow>
  {
    if rows == [] then []
    else
      var v := rows[|rows| - 1];
      if Mask(q, v) then Keep(rows[..|rows| - 1], q) + [v] else Keep(rows[..|rows| - 1], q)
  }

  lemma {:induction false} KeepSelects(rows: seq<ViewRow>, q: string)
    ensures Subsequence(Keep(rows, q), rows)
    ensures forall v :: multiset(Keep(rows, q))[v] == if Wanted(q, v) then multiset(rows)[v] else 0
    decreases |rows|
  {
    if rows != [] {
      var r0, v := rows[..|rows| - 1], rows[|rows| - 1];
      assert rows == r0 + [v];
      KeepSelects(r0, q);
      var k := Keep(r0, q);
      if Mask(q, v) {
        assert (k + [v])[..|k|] == k;
      }
    }
  }

  /** The empty query occurs in every product name, so it wants every row. */
  lemma EmptyQueryWantsAll()
    ensures forall v :: Wanted([], v)
  {
    forall v: ViewRow
      ensures Wanted([], v)
    {
      assert Lower([]) == [];
      EmptyIsSubstring(Lower(v.producto));
    }
  }

  /** The search step: an empty query leaves the rows as they are; otherwise
      exactly the wanted rows stay, each as often as before, in their
      original order, and no row is added. */
  function Filter(rows: seq<ViewRow>, q: string): (r: seq<ViewRow>)
    ensures q == [] ==> r == rows
    ensures Subsequence(r, rows)
    ensures forall v :: multiset(r)[v] == if Wanted(q, v) then multiset(rows)[v] else 0
    ensures forall v :: v in r <==> v in rows && Wanted(q, v)
  {
    if q == [] then
      EmptyQueryWantsAll();
      SubsequenceOfItself(rows);
      rows
    else
      KeepSelects(rows, q);
      Keep(rows, q)
  }
}
