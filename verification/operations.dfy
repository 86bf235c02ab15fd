/** The state-changing operations of the app: transfer between sectors
    (clc.py:109-122), manual entry with bundle conversion (clc.py:131-154)
    and catalog replacement (clc.py:163-165), each followed by the save of
    both sheets, which may fail because the file is locked. */
module Operations {
  import opened Ledger
  import opened Balances

  /** Why an operation writes nothing. */
  datatype Refusal =
    | InsufficientStock(available: real)
    | InvalidQuantity

  datatype Result<T> = Ok(value: T) | Err(refusal: Refusal)

  // ---------------------------------------------------------------------
  // Transfer (clc.py:109-122)
  // ---------------------------------------------------------------------

  /** The movements a transfer of `q` units of `p` posts, both stamped `t`. */
  function TransferPair(p: string, origin: Depot, dest: Depot, q: real, t: string): seq<Movement>
  {
    [Movement(t, p, "Egreso", q, origin), Movement(t, p, "Ingreso", q, dest)]
  }

  /** The transfer button. The stock guard runs first and is skipped when
      `force` is on; the non-positive quantity check runs only once the
      guard has passed. The destination selector never offers the origin. */
  function Transfer(l: Ledger, p: string, origin: Depot, dest: Depot, q: real, force: bool, t: string)
    : (r: Result<Ledger>)
    requires origin != dest
    ensures r == Err(InsufficientStock(Balance(l, p, origin))) <==> Balance(l, p, origin) < q && !force
    ensures r == Err(InvalidQuantity) <==> (Balance(l, p, origin) >= q || force) && q <= 0.0
    ensures r.Ok? <==> (Balance(l, p, origin) >= q || force) && q > 0.0
    ensures r.Ok? ==>
              && |r.value| == |l| + 2
              && r.value[..|l|] == l
              && r.value[|l|] == Movement(t, p, "Egreso", q, origin)
              && r.value[|l| + 1] == Movement(t, p, "Ingreso", q, dest)
  {
    var stk := OriginStock(l, p, origin);
    if stk < q && !force then Err(InsufficientStock(stk))
    else if q <= 0.0 then Err(InvalidQuantity)
    else Ok(l + TransferPair(p, origin, dest, q, t))
  }

  /** Conservation: a transfer takes `q` off the origin balance of `p`, puts
      `q` on its destination balance, and leaves every other product and
      depot as it was. */
  lemma TransferConservation(l: Ledger, p: string, origin: Depot, dest: Depot, q: real, force: bool, t: string,
                             p2: string, d2: Depot)
    requires origin != dest
    requires Transfer(l, p, origin, dest, q, force, t).Ok?
    ensures Balance(Transfer(l, p, origin, dest, q, force, t).value, p2, d2)
         == Balance(l, p2, d2) + (if p2 == p && d2 == origin then -q
                                  else if p2 == p && d2 == dest then q
                                  else 0.0)
  {
    var egress, ingress := Movement(t, p, "Egreso", q, origin), Movement(t, p, "Ingreso", q, dest);
    assert l + TransferPair(p, origin, dest, q, t) == (l + [egress]) + [ingress];
    BalanceSnoc(l, egress, p2, d2);
    BalanceSnoc(l + [egress], ingress, p2, d2);
  }

  /** The stock of a product summed over every sector. */
  function SectorTotal(l: Ledger, p: string): real
  {
    Balance(l, p, Molino) + Balance(l, p, Despacho) + Balance(l, p, Fabrica)
  }

  /** A transfer moves stock between sectors without creating or destroying
      any: the total over all sectors is unchanged. */
  lemma TransferKeepsSectorTotal(l: Ledger, p: string, origin: Depot, dest: Depot, q: real, force: bool, t: string,
                                 p2: string)
    requires origin != dest
    requires Transfer(l, p, origin, dest, q, force, t).Ok?
    ensures SectorTotal(Transfer(l, p, origin, dest, q, force, t).value, p2) == SectorTotal(l, p2)
  {
    TransferConservation(l, p, origin, dest, q, force, t, p2, Molino);
    TransferConservation(l, p, origin, dest, q, force, t, p2, Despacho);
    TransferConservation(l, p, origin, dest, q, force, t, p2, Fabrica);
  }

  // ---------------------------------------------------------------------
  // Manual entry with bundle conversion (clc.py:131-154)
  // ---------------------------------------------------------------------

  /** The "Cargar por" choice. */
  datatype Mode = UnidadesKg | Fardos

  /** `u_fardo`: the bundle size of the first catalog row of `p`, or 1.0 when
      the catalog has no row of that name. */
  function BundleSize(c: Catalog, p: string): real
  {
    match Lookup(c, p)
    case Some(e) => e.unidadesFardo
    case None => 1.0
  }

  /** `cant_final_c`: in bundle mode the entered value times the bundle size
      of the product's first catalog row (times 1.0 without one); in unit
      mode the entered value itself. */
  function ResolveQuantity(c: Catalog, p: string, valor: real, mode: Mode): (q: real)
    ensures mode == UnidadesKg ==> q == valor
    ensures mode == Fardos && (forall i :: 0 <= i < |c| ==> c[i].producto != p) ==> q == valor
    ensures mode == Fardos ==>
              forall i :: 0 <= i < |c| && c[i].producto == p && (forall j :: 0 <= j < i ==> c[j].producto != p)
                      ==> q == valor * c[i].unidadesFardo
  {
    if mode == Fardos then valor * BundleSize(c, p) else valor
  }

  /** The save button of the entry tab: a resolved quantity that is not
      positive writes nothing; a positive one appends exactly one movement of
      the chosen kind at the chosen sector. */
  function ManualEntry(c: Catalog, l: Ledger, p: string, k: string, valor: real, mode: Mode, dep: Depot, t: string)
    : (r: Result<Ledger>)
    requires k == "Ingreso" || k == "Egreso"
    ensures r.Ok? <==> ResolveQuantity(c, p, valor, mode) > 0.0
    ensures r.Err? ==> r.refusal == InvalidQuantity
    ensures r.Ok? ==>
              && |r.value| == |l| + 1
              && r.value[..|l|] == l
              && r.value[|l|] == Movement(t, p, k, ResolveQuantity(c, p, valor, mode), dep)
  {
    var q := ResolveQuantity(c, p, valor, mode);
    if q > 0.0 then Ok(l + [Movement(t, p, k, q, dep)]) else Err(InvalidQuantity)
  }

  /** A manual entry moves only the balance of its own product at its own
      sector, up for an Ingreso and down for an Egreso. */
  lemma EntryBalance(c: Catalog, l: Ledger, p: string, k: string, valor: real, mode: Mode, dep: Depot, t: string,
                     p2: string, d2: Depot)
    requires k == "Ingreso" || k == "Egreso"
    requires ManualEntry(c, l, p, k, valor, mode, dep, t).Ok?
    ensures var q := ResolveQuantity(c, p, valor, mode);
      Balance(ManualEntry(c, l, p, k, valor, mode, dep, t).value, p2, d2)
      == Balance(l, p2, d2) + (if p2 == p && d2 == dep then (if k == "Ingreso" then q else -q) else 0.0)
  {
    BalanceSnoc(l, Movement(t, p, k, ResolveQuantity(c, p, valor, mode), dep), p2, d2);
  }

  // ---------------------------------------------------------------------
  // Saving, and the three interactions that end in a save
  // ---------------------------------------------------------------------

  /** What the user is told after pressing a button. */
  datatype Reply = Recorded | Refused(why: Refusal) | FileLocked

  datatype Outcome = Outcome(store: Store, reply: Reply)

  /** `guardar_datos` after an operation: a refused operation writes nothing,
      a locked file keeps its previous contents, otherwise both sheets are
      replaced by the computed ones. */
  function Commit(s: Store, next: Result<Store>, locked: bool): (o: Outcome)
    ensures o.reply == Recorded <==> next.Ok? && !locked
    ensures o.reply == FileLocked <==> next.Ok? && locked
    ensures o.reply == Recorded ==> o.store == next.value
    ensures o.reply != Recorded ==> o.store == s
    ensures next.Err? ==> o.reply == Refused(next.refusal)
  {
    match next
    case Err(why) => Outcome(s, Refused(why))
    case Ok(n) => if locked then Outcome(s, FileLocked) else Outcome(n, Recorded)
  }

  function TransferAction(s: Store, p: string, origin: Depot, dest: Depot, q: real, force: bool, t: string,
                          locked: bool): (o: Outcome)
    requires origin != dest
    ensures o.store.catalogo == s.catalogo
    ensures o.reply != Recorded ==> o.store == s
    ensures o.reply == Recorded <==> Transfer(s.movimientos, p, origin, dest, q, force, t).Ok? && !locked
    ensures o.reply == FileLocked <==> Transfer(s.movimientos, p, origin, dest, q, force, t).Ok? && locked
    ensures Transfer(s.movimientos, p, origin, dest, q, force, t).Err? ==>
              o.reply == Refused(Transfer(s.movimientos, p, origin, dest, q, force, t).refusal)
    ensures o.reply == Recorded ==> o.store.movimientos == s.movimientos + TransferPair(p, origin, dest, q, t)
  {
    var r := Transfer(s.movimientos, p, origin, dest, q, force, t);
    Commit(s, if r.Ok? then Ok(Store(s.catalogo, r.value)) else Err(r.refusal), locked)
  }

  function EntryAction(s: Store, p: string, k: string, valor: real, mode: Mode, dep: Depot, t: string,
                       locked: bool): (o: Outcome)
    requires k == "Ingreso" || k == "Egreso"
    ensures o.store.catalogo == s.catalogo
    ensures o.reply != Recorded ==> o.store == s
    ensures o.reply == Recorded <==> ManualEntry(s.catalogo, s.movimientos, p, k, valor, mode, dep, t).Ok? && !locked
    ensures o.reply == FileLocked <==> ManualEntry(s.catalogo, s.movimientos, p, k, valor, mode, dep, t).Ok? && locked
    ensures ManualEntry(s.catalogo, s.movimientos, p, k, valor, mode, dep, t).Err? ==>
              o.reply == Refused(ManualEntry(s.catalogo, s.movimientos, p, k, valor, mode, dep, t).refusal)
    ensures o.reply == Recorded ==>
              o.store.movimientos == s.movimientos + [Movement(t, p, k, ResolveQuantity(s.catalogo, p, valor, mode), dep)]
  {
    var r := ManualEntry(s.catalogo, s.movimientos, p, k, valor, mode, dep, t);
    Commit(s, if r.Ok? then Ok(Store(s.catalogo, r.value)) else Err(r.refusal), locked)
  }

  /** The catalog update of the settings tab: the uploaded table replaces the
      catalog wholesale and the movements are written back as they were, so
      the ledger is identical whether or not the save goes through. */
  function CatalogAction(s: Store, nuevo: Catalog, locked: bool): (o: Outcome)
    ensures o.store.movimientos == s.movimientos
    ensures o.reply == Recorded <==> !locked
    ensures o.reply == FileLocked <==> locked
    ensures o.reply == Recorded ==> o.store.catalogo == nuevo
    ensures o.reply != Recorded ==> o.store == s
  {
    Commit(s, Ok(Store(nuevo, s.movimientos)), locked)
  }

  // ---------------------------------------------------------------------
  // A session: a sequence of button presses
  // ---------------------------------------------------------------------

  datatype Request =
    | TransferRequest(p: string, origin: Depot, dest: Depot, q: real, force: bool, t: string)
    | EntryRequest(p: string, k: string, valor: real, mode: Mode, dep: Depot, t: string)
    | CatalogRequest(nuevo: Catalog)

  /** What the widgets can produce: two different sectors for a transfer, and
      Ingreso or Egreso for an entry. */
  predicate Admissible(r: Request)
  {
    match r
    case TransferRequest(_, origin, dest, _, _, _) => origin != dest
    case EntryRequest(_, k, _, _, _, _) => k == "Ingreso" || k == "Egreso"
    case CatalogRequest(_) => true
  }

  function Step(s: Store, r: Request, locked: bool): Outcome
    requires Admissible(r)
  {
    match r
    case TransferRequest(p, origin, dest, q, force, t) => TransferAction(s, p, origin, dest, q, force, t, locked)
    case EntryRequest(p, k, valor, mode, dep, t) => EntryAction(s, p, k, valor, mode, dep, t, locked)
    case CatalogRequest(nuevo) => CatalogAction(s, nuevo, locked)
  }

  /** The file after a session, assuming every page reload returns exactly the
      last saved state; `locked[i]` says whether the i-th save found the file
      held open elsewhere. */
  function Run(s: Store, rs: seq<Request>, locked: seq<bool>): Store
    requires |rs| == |locked|
    requires forall i :: 0 <= i < |rs| ==> Admissible(rs[i])
    decreases |rs|
  {
    if rs == [] then s
    else Run(Step(s, rs[0], locked[0]).store, rs[1..], locked[1..])
  }

  /** Every movement is stored as a positive magnitude. */
  predicate PositiveQuantities(l: Ledger)
  {
    forall i :: 0 <= i < |l| ==> l[i].cantidad > 0.0
  }

  /** Across a session whose reloads each return the last saved state, the
      ledger only grows at its end: every earlier movement stays where it
      was, unchanged, and positive magnitudes stay positive. */
  lemma {:induction false} RunAppendOnly(s: Store, rs: seq<Request>, locked: seq<bool>)
    requires |rs| == |locked|
    requires forall i :: 0 <= i < |rs| ==> Admissible(rs[i])
    ensures s.movimientos <= Run(s, rs, locked).movimientos
    ensures PositiveQuantities(s.movimientos) ==> PositiveQuantities(Run(s, rs, locked).movimientos)
    decreases |rs|
  {
    if rs != [] {
      var o := Step(s, rs[0], locked[0]);
      assert s.movimientos <= o.store.movimientos;
      assert PositiveQuantities(s.movimientos) ==> PositiveQuantities(o.store.movimientos);
      assert forall i :: 0 <= i < |rs[1..]| ==> Admissible(rs[1..][i]) by {
        forall i | 0 <= i < |rs[1..]|
          ensures Admissible(rs[1..][i])
        {
          assert rs[1..][i] == rs[i + 1];
        }
      }
      RunAppendOnly(o.store, rs[1..], locked[1..]);
    }
  }
}
