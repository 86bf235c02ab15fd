# Flor de Sauco stock ledger, in Dafny

A model of the stock ledger inside the Streamlit app `clc.py` of the Flor de
Sauco inventory tracker. The app keeps two sheets in one spreadsheet file. The
catalog ("Catalogo") holds one row per product: supplier, minimum and units
per bundle. The movements sheet ("Movimientos") is an append-only list of
dated `Ingreso`/`Egreso` records. Each record names a product, a quantity and
one of three sectors: Molino, Despacho or Fábrica. The widgets are replaced by
function parameters. What is left are five pure operations:

- **Balance engine** (`Balances`, `StockView`). The stock tab filters the
  ledger to one sector. It sums `Ingreso` and `Egreso` quantities per product
  (a missing side counts as 0) and left-joins the result to the catalog. The
  transfer tab computes the origin balance (`stk_origen`) a second way, by
  filtering on product and sector. Both computations are modelled as the
  source writes them, and both are proved equal to one reference definition,
  `Ledger.Balance`.
- **Search** (`Search`). A row is kept when the query occurs, ignoring case,
  in its product name or in its supplier. An empty query keeps everything.
- **Transfer** (`Operations.Transfer`). The stock guard can be overridden by
  the force toggle, and it runs before the non-positive quantity check. A
  successful transfer appends an egress at the origin and an ingress at the
  destination, both with the same timestamp.
- **Manual entry** (`Operations.ResolveQuantity`, `Operations.ManualEntry`).
  In bundle mode the quantity is converted with the product's
  `Unidades_Fardo`. A non-positive result is refused. A positive one appends
  exactly one movement.
- **Catalog update** (`Operations.CatalogAction`). The catalog is replaced
  wholesale and the movements are written back unchanged.

Every button that passes its checks ends in `guardar_datos`; a refused
transfer or entry ends in a message and saves nothing. A save is modelled as a step that either
writes the whole computed state or, when the file is locked, leaves the
previous state in place (`Operations.Commit`). `Operations.Run` chains button
presses into a session, on the assumption that every page reload returns the
last saved state.

Quantities are Dafny `real`s. Timestamps are opaque strings passed in by the
caller.

Behaviour of `clc.py` worth knowing:

- The transfer code checks the stock guard before the quantity. A
  zero-quantity transfer out of a sector with a negative balance is therefore
  reported as blocked, not as an invalid quantity (`Scenarios.GuardBeforeQuantityCheck`).
- The bundle size falls back to 1.0 only when the product has no catalog row.
  It does not fall back when the cell is blank or not a number.
- The stock tab has one row per product with an `Ingreso` or an `Egreso` at
  the sector. It does not have a row for every product with some movement
  there: a movement whose "Tipo" is neither value creates no row.
- When the catalog repeats a product name, the left join repeats that
  product's row. The view has one row per product only when catalog names are
  unique (`StockView.DepotViewUnique`).
- The settings tab only replaces the catalog. It books no stock, and the
  movements are written back as they were.

## Model

| member | source | states |
|---|---|---|
| `Ledger.Lookup` | clc.py:131-132 | the catalog row found for a product is the first row with that name; none is found exactly when no row has that name |
| `Ledger.NoFlowZeroBalance` | clc.py:104-107 | a product with no Ingreso or Egreso at a sector has balance 0 there |
| `Ledger.EgressOnlyIsNegative` | clc.py:72-74 | a product only ever taken out of a sector, in positive amounts, has a negative balance there |
| `Ledger.BalanceAppend` | clc.py:70-75 | the balance over two consecutive stretches of the ledger is the sum of their balances, so appending rows changes each balance by what the new rows book for it |
| `Balances.KindSumsGiveBalance` | clc.py:70-74 | the per-sector sum over rows whose "Tipo" cell is exactly "Ingreso" minus the sum over rows whose cell is exactly "Egreso", with missing groups read as 0, equals the product's reference balance |
| `Balances.GuardSumsGiveBalance` | clc.py:106-107 | the guard's total over rows whose "Tipo" cell is exactly "Ingreso" minus its total over rows whose cell is exactly "Egreso", over the rows of one product and sector, equals its reference balance |
| `Balances.OriginStock` | clc.py:104-107 | `stk_origen`, including the 0 for an empty ledger, equals the reference balance of the product at the origin |
| `Balances.Insert` | clc.py:72-74 | inserting a name into a strictly sorted index keeps it strictly sorted and adds exactly that name |
| `Balances.SortedIndex` | clc.py:72-74 | the group-by index is strictly increasing in code-point order and holds exactly the names given |
| `Balances.StockTable` | clc.py:68-75 | the sector's stock table is in name order with one row per product; it has a row exactly for the products with an Ingreso or Egreso there; each `Disponible` is the reference balance |
| `StockView.MatchingSelects` | clc.py:78 | the catalog rows a product joins with are the name-filtered subsequence of the catalog: exactly the rows of that name, in catalog order, each as often as in the catalog |
| `StockView.JoinRowShape` | clc.py:78 | a stock row joins to one row per catalog row of its name, in catalog order, or to a single row with blank catalog fields when there is none; every such row keeps the stock row's product and balance |
| `StockView.JoinAppend` | clc.py:78 | the join of a table is the join of its first part followed by the join of the rest, so the join is the stock rows' blocks concatenated in stock-table order |
| `StockView.JoinBlocks` | clc.py:78 | with one stock row per product, the joined rows showing a product are exactly that stock row's block, and there are none for a product without a stock row |
| `StockView.JoinSorted` | clc.py:74-78 | a stock table in strict name order joins to rows in name order, with the rows of one product together |
| `StockView.JoinRows` | clc.py:78 | the left join keeps every stock row, adds no product or balance that is not in the stock table, and attaches only catalog rows of the same product |
| `StockView.MatchingUnique` | clc.py:78 | with unique catalog names a product joins with at most one row, the one `Lookup` finds |
| `StockView.JoinUnique` | clc.py:78 | with unique catalog names the join is one-to-one and attaches the product's catalog row or blanks |
| `StockView.DepotView` | clc.py:68-78 | every row of the sector view shows its product's reference balance; the view is in name order; the rows of a product with an Ingreso or Egreso there are exactly one per catalog row of that name (one blank-catalog row when there is none), and a product without one has no rows |
| `StockView.DepotViewUnique` | clc.py:70-78 | with unique catalog names the view has exactly one row per product with an Ingreso or Egreso at the sector, in name order, with its balance and catalog row |
| `StockView.GuardAgreesWithView` | clc.py:104-107 | the transfer guard's origin balance equals the view's `Disponible` for the product, or 0 when the view has no row for it |
| `Text.ContainsIsSubstring` | clc.py:82-83 | the left-to-right search succeeds exactly when the query occurs somewhere in the text |
| `Text.LessTransitive` | clc.py:72-74 | the code-point order of names is transitive |
| `Text.LessTotal` | clc.py:72-74 | any two different names are ordered one way or the other |
| `Search.Mask` | clc.py:82-83 | the mask is true exactly when the lower-cased query occurs in the lower-cased product name or in a non-blank supplier |
| `Search.KeepSelects` | clc.py:84 | selecting by the mask keeps rows in order and keeps exactly the matching rows, each as often as it was there |
| `Search.Filter` | clc.py:81-84 | an empty query returns the rows unchanged; otherwise a row stays exactly when it matches the query; nothing is added or reordered |
| `Operations.Transfer` | clc.py:111-120 | the transfer is blocked, reporting the reference balance, exactly when that balance is below the quantity and force is off; a non-positive quantity is refused only after the guard passes; on success the old ledger is followed by exactly the egress at the origin and the ingress at the destination, both stamped `t` |
| `Operations.TransferConservation` | clc.py:116-120 | after a transfer the origin balance is lower by the quantity and the destination balance higher by it; every other balance is unchanged |
| `Operations.TransferKeepsSectorTotal` | clc.py:116-120 | a transfer leaves every product's stock summed over the three sectors unchanged |
| `Operations.ResolveQuantity` | clc.py:131-138 | in unit mode the value passes through; in bundle mode it is multiplied by the first catalog row's `Unidades_Fardo`, or by 1.0 when the product has no row |
| `Operations.ManualEntry` | clc.py:146-154 | a non-positive resolved quantity is refused and writes nothing; a positive one appends exactly one movement with the chosen kind, sector and resolved quantity |
| `Operations.EntryBalance` | clc.py:147-150 | an entry moves only its own product's balance at its own sector, up for Ingreso and down for Egreso |
| `Operations.Commit` | clc.py:46-54 | a refused operation is reported with its own refusal and a locked file as `FileLocked`, and both leave the saved state as it was; otherwise the computed state is saved whole and reported as recorded |
| `Operations.TransferAction` | clc.py:111-122 | a transfer is recorded exactly when the guard and quantity check pass and the file is not locked; a refusal is reported as the transfer's own refusal; the catalog is never touched; when recorded the ledger grows by exactly the transfer pair, and otherwise it is left as it was |
| `Operations.EntryAction` | clc.py:146-154 | a manual entry is recorded exactly when its resolved quantity is positive and the file is not locked; a refusal is reported as the entry's own refusal; the catalog is never touched; when recorded the ledger grows by exactly one movement, and otherwise it is left as it was |
| `Operations.CatalogAction` | clc.py:162-167 | a catalog update leaves the ledger identical whether or not the save succeeds; it is recorded and replaces the catalog wholesale exactly when the file is free, and is reported as `FileLocked` exactly when it is locked |
| `Operations.RunAppendOnly` | clc.py:109-167 | across button presses whose reloads return the last saved state, the old ledger stays a prefix of the new one, and positive quantities stay positive |
| `Scenarios.EgressOnlyRowIsNegative` | clc.py:74 | a view row for a product that only left the sector shows a negative balance |
| `Scenarios.HarinaByBundles` | clc.py:131-150 | three bundles of a product with 25 units per bundle are booked as 75 units |
| `Scenarios.HarinaForcedTransfer` | clc.py:111-120 | with 10 units at Molino a 15-unit transfer is blocked, reporting 10; forced, it posts both movements and leaves Molino at -5 |
| `Scenarios.GuardBeforeQuantityCheck` | clc.py:112-115 | a zero-quantity transfer from a sector in the red is blocked by the guard, not refused for its quantity |
| `Scenarios.TipoCellIsMatchedExactly` | clc.py:72-73 | a movement whose "Tipo" cell reads "Ingreso" adds its quantity to the balance, while one reading "ingreso" adds nothing, because the cell is compared with the label exactly |

## Left out

- Streamlit presentation is not modelled: page setup, styling, tabs, messages, reruns (clc.py:1-25, 60-66 and the rendering calls). Widget values are function parameters, and a refusal is a `Refusal` value instead of a message.
- `Operations.RunAppendOnly`: `Run` feeds each step's saved store to the next button press, so it assumes every reload (clc.py:57) returns exactly the last saved state. In the source, `cargar_datos` returns two empty tables when an existing file cannot be read (clc.py:40-42). The settings tab still renders then, and its save (clc.py:165) writes an empty "Movimientos" sheet, erasing the ledger. That data-loss path is outside the session the model describes.
- `cargar_datos` (clc.py:31-44) is not modelled. It reads the file and falls back to empty tables. The model starts from a given `Store`.
- `Operations.Commit` models `guardar_datos` only as a `locked` flag. It does not model how the file is written or what a write that fails half-way leaves on disk.
- `datetime.now()` and its formatting are not modelled. The timestamp is a parameter.
- Quantities are exact `real`s rather than floating point. Blank quantity cells, which pandas reads as NaN, are not represented.
- Text in the "Cantidad" column is not represented. pandas keeps such a cell as a string, and the sums at clc.py:72-73 and clc.py:107 then concatenate strings or raise `TypeError`.
- Non-numeric text in the "Unidades_Fardo" column (for example "25,5") is not represented. `float()` at clc.py:132 raises `ValueError` on it, even in unit mode, because the bundle size is read before the mode is chosen. Numeric text such as "25" is read as 25.0, which the model covers as the number.
- `Operations.ResolveQuantity`: `Unidades_Fardo` is always a number here. A blank bundle size, which the source reads as NaN, is not modelled. In Fardos mode it makes the quantity NaN and the entry is refused. In unit mode the entered value passes through unchanged (clc.py:138) and is saved.
- `Search.Mask`: the query is matched as a plain substring with ASCII-only case folding. The source hands it to pandas `str.contains`, which treats it as a regular expression and folds Unicode case.
- `Search.Mask`: a non-empty query is always answered here. In the source, `.str.contains` on the "Proveedor" column (clc.py:83) raises `AttributeError` when that column holds no strings at all, for example when every supplier cell is blank (read as float NaN) or every supplier is a number. That failure is not modelled.
- Ledger cells outside the three sectors are not modelled (`Ledger.Depot` has three values). Neither are product columns that pandas reads as numbers, which the product selector then turns into strings.
- The minimum-stock threshold is carried but never used, as in the source, where it is only displayed.
- The product selectors only offer catalog names. The operations accept any name, which covers those choices.
- An uploaded catalog whose columns differ from the four a `Product` has is not modelled: here every catalog row has all four fields. In the source such an upload is saved as it is, and later reads fail. Without "Proveedor" or "Minimo", the stock tab's table (clc.py:86) raises `KeyError` whenever it has rows to show. Without "Unidades_Fardo", the entry tab (clc.py:132) raises `KeyError`. Without "Producto", the merge (clc.py:78) and the product selectors (clc.py:97, clc.py:128) fail.
- Concurrent sessions are not modelled. The source has no locking of its own.
