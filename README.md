# Beverage stock ledger

A Dafny model of the stock ledger behind the single-screen beverage stock app
(`EstoqueApp` in `App.js`). The ledger is an ordered list of products. Each
product has a name, a constant nominal stock (`estoque`) and two independent
shift records, `manha` (morning) and `noite` (night). Each record holds
`inicial` (on hand at shift start), `vendas` (sold) and `reposicao`
(replenishment).

- `Ledger.dfy` holds the data model, the fixed catalog, the seeding, and the
  transition `UpdateField`. The transition sets `inicial` or `vendas` of one
  shift record of every product with the given name. It then recomputes
  `reposicao = max(0, estoque - inicial + vendas)` from the post-update values,
  using the `estoque` argument.
- `ProductRow.dfy` holds one row of the form: the five cells (`inicial`,
  `vendas`, `reposicao`, `final`, `estoque`), which two of them accept input, and
  the coercion `+text || 0`.
- `Report.dfy` holds the report of the selected shift: a header and one row per
  product, in ledger order.
- `App.dfy` holds the screen's state as a class. `tab` and `produtos` are
  replaced wholesale by the setters. Its methods are the tab buttons, the
  `updateField` callback, a row's change handler and the report button.
- `Wrappers.dfy` holds the `Option` type used for the outcome of parsing a text field.

The replenishment rule is not a ledger-wide invariant. A seeded record is all
zeros, so it breaks the rule whenever `estoque > 0`. The model therefore keeps
a weaker invariant, `Settled`: every record is either still zero or obeys the
rule against its own product's `estoque`. Every edit made through a row keeps
the ledger settled, because catalog names are distinct and the row passes its
own product's `estoque`.

Notes on the code's behaviour:
- Input is not coerced to a non-negative number. `+text || 0` lets a leading
  minus sign through, so `inicial` and `vendas` are plain integers.
- "`reposicao` matches the formula for every record" holds only for records
  edited at least once (see `SeedIsNotConsistent`).
- The formula uses the `estoque` passed to `updateField`, not the product's own.
  The two agree only because names are unique and the row passes its product's
  value (see `UpdateSettles`).

## Model

| member | source | states |
|---|---|---|
| `Ledger.Seed` | App.js:67-73 | The seeded ledger has exactly one product per catalog item, in catalog order, with the item's name and `estoque`. Both shift records are `{inicial: 0, reposicao: 0, vendas: 0}`. |
| `Ledger.InitialProductsDistinct` | App.js:6-28 | No two catalog items share a name, so a name picks out one product. |
| `Ledger.SeedIsSettled` | App.js:67-73 | A freshly seeded ledger satisfies the `Settled` invariant. |
| `Ledger.SeededCatalogBreaksRule` | App.js:6-28 | The catalog has 21 items, each with a positive nominal stock, so every record of the freshly seeded ledger violates the replenishment rule. |
| `Ledger.SeedIsNotConsistent` | App.js:68-72 | A seeded record of a product with `estoque > 0` violates `reposicao = max(0, estoque - inicial + vendas)`. The rule is not a seed-time invariant. |
| `Ledger.Replenishment` | App.js:83 | `Math.max(0, x)` for `x = estoque - inicial + vendas`: the result is at least 0 and at least `x`, and equals one of them. |
| `Ledger.ShiftRecord.Final` | App.js:39 | The derived final stock `inicial - vendas` is never clamped: it is negative exactly when more was sold than was on hand. |
| `Ledger.UpdateRecord` | App.js:79-83 | After the spread-and-set, the chosen field holds `valor` and the other stored field is unchanged. `reposicao` is recomputed from the post-update values, so a value written there directly cannot survive. |
| `Ledger.Product.WithRecord` | App.js:84 | `{ ...p, [turno]: rec }` replaces the `turno` record only. Name, `estoque` and the other shift are kept. |
| `Ledger.UpdateProduct` | App.js:78-86 | A product whose name differs is returned unchanged. The one named `nome` has `campo = valor` and the replenishment rule in its `turno` record, and keeps the other stored field of that record. It also keeps its name, `estoque` and other shift. |
| `Ledger.UpdateField` | App.js:75-89 | The transition keeps the ledger's length and, position by position, every product's name and `estoque`. |
| `Ledger.UpdateFieldAt` | App.js:77-87 | The update is element-wise, like `produtos.map`. It keeps the length, and position `i` of the new ledger is the per-product step applied to position `i` of the old one. |
| `Ledger.UpdateFieldFrame` | App.js:77-87 | An update keeps the length and order, every name and `estoque`, and every product's other shift. Products whose name differs are returned unchanged. |
| `Ledger.UpdateFieldTarget` | App.js:78-84 | In each product named `nome`, the `turno` record has `campo = valor` and keeps its other stored field. Its `reposicao` is `max(0, estoque - inicial + vendas)` from the post-update values, so it is non-negative even in the surplus case. |
| `Ledger.UpdateFieldUnknownName` | App.js:77-87 | If no product has name `nome`, the ledger after the update equals the ledger before it. |
| `Ledger.UpdateFieldIdempotent` | App.js:79-83 | Applying the same update twice gives the same ledger as applying it once. |
| `Ledger.EditsOfOneRecordCommute` | App.js:79-83 | Setting `inicial` then `vendas` gives the same ledger as the reverse order, so no stale `reposicao` survives interleaved edits. |
| `Ledger.ShiftsAreIndependent` | App.js:79-84 | Updates to different shifts commute: applying them in either order gives the same ledger. That an update leaves the other shift's records alone is stated by `UpdateFieldFrame`. |
| `Ledger.UpdateSettles` | App.js:75-89 | With unique names and the product's own `estoque` passed, the edited record obeys the replenishment rule against its product. Every record that obeyed it still does, and a settled ledger stays settled. |
| `ProductRow.Editable` | App.js:34-43 | A cell accepts input exactly when it shows a stored ledger field, that is, when it is one of the first two cells of the row (`inicial`, `vendas`). |
| `ProductRow.CellValue` | App.js:34-42 | An editable cell shows the stored field its input writes. The `reposicao` cell shows the stored `reposicao`, which is 0 in a seeded record whatever the formula would give. The `final` cell shows `inicial - vendas`, which is negative exactly when more was sold than was on hand. The `estoque` cell shows the nominal stock. |
| `ProductRow.Coerce` | App.js:55 | `+text || 0`: the result is 0 exactly when the text does not parse or parses to 0. Otherwise it is the parsed number, negatives included. |
| `ProductRow.OnChangeText` | App.js:53-55 | A row's change handler keeps the ledger's names, stocks and order, and leaves every product with another name unchanged. |
| `ProductRow.ReadOnlyCellsIgnoreInput` | App.js:43-55 | Input into the `reposicao`, `final` or `estoque` cell leaves the ledger unchanged. |
| `ProductRow.EditReadsBack` | App.js:34-55 | After typing into an editable cell, that cell shows the coerced input and the other editable cell is unchanged. The `reposicao` cell shows `max(0, estoque - inicial + vendas)`. The `final` cell shows `inicial - vendas`, unclamped. `estoque` is unchanged. |
| `ProductRow.EditKeepsSettled` | App.js:53-55 | With unique names, any input through any row keeps a settled ledger settled. |
| `Report.ShiftLabel` | App.js:106 | The shift label is `MANHA` for the morning tab and `NOITE` for the night tab, so the two shifts' reports are told apart. |
| `Report.RowOf` | App.js:120-130 | A product's row holds its name and `estoque` and the selected shift's `inicial`, `vendas` and `reposicao`. Its final column is `inicial - vendas`, unclamped, so it is negative exactly when more was sold than was on hand. |
| `Report.ReportRows` | App.js:119-132 | The report has one row per ledger product, in ledger order. Each row holds name, `inicial`, `vendas`, `reposicao`, `inicial - vendas` (unclamped) and `estoque` for the selected shift. |
| `Report.Render` | App.js:95-137 | The document carries the title `Relatório de Estoque`, the given date, the shift's label, the six column headers `Produto` to `Estoque`, and one row per ledger product in ledger order, each that product's `RowOf`. |
| `Report.ReportIgnoresOtherShift` | App.js:119-121 | The report of a shift does not change when the other shift is edited. |
| `Report.ReplenishedRowReachesStock` | App.js:120-129 | In a row whose record obeys the rule, `final + reposicao >= estoque`, with equality whenever `reposicao > 0`. |
| `Report.CocaScenario` | App.js:119-132 | Starting from Coca's seeded entry (`estoque` 24), setting its morning `inicial` to 20 and then `vendas` to 5 gives the report row (Coca, 20, 5, 9, 15, 24) at Coca's position. |
| `Report.SeededCoca` | App.js:9 | The seeded ledger holds Coca's seeded entry at the catalog's third position. |
| `App.EstoqueApp.constructor` | App.js:66-73 | The screen starts on the morning tab with the seeded ledger, which is settled and has the catalog's products. |
| `App.EstoqueApp.SetTab` | App.js:147-150 | A tab button changes only the selected shift. |
| `App.EstoqueApp.UpdateField` | App.js:75-89 | The ledger is replaced by the transition applied to it. The catalog is kept. The ledger stays settled when the `estoque` passed is that of the product so named. |
| `App.EstoqueApp.OnChangeText` | App.js:53-55 | A row's change handler applies the row's edit to the current tab. The ledger keeps its catalog and stays settled. |
| `App.EstoqueApp.GerarRelatorioPDF` | App.js:91-137 | The report button yields the document for the current ledger and tab: title, date, shift label, headers, and `ReportRows`. The ledger is not changed. |

## Left out

- JSX layout, `StyleSheet` and the tab buttons' styling (App.js:30-63, 143-223). These are presentation only. The editability flag and the displayed cell values are modelled in `ProductRow`.
- `Print.printToFileAsync` and `Sharing.shareAsync` (App.js:139-140). These are asynchronous platform calls. The model stops at the structured document.
- The HTML/CSS text of the report (App.js:95-118, 133-137). Rows are modelled as structured values, not markup.
- `new Date().toLocaleDateString('pt-BR')` (App.js:93). This is a clock and locale call, so the date is an opaque string parameter.
- `turnoAtual.toUpperCase()` (App.js:106). This is given as its result for the only two tab values, `MANHA` and `NOITE`.
- JavaScript's string-to-number conversion by unary `+`, including decimals, whitespace, exponents and floating point (App.js:55). The parse is an `Option<int>` input: `None` for NaN, `Some(n)` for an integer.
- JavaScript numbers are IEEE doubles, and the arithmetic of App.js:39, 83 and 121 rounds once magnitudes pass 2^53. The model computes `inicial - vendas` and `estoque - inicial + vendas` on exact integers, so it agrees with the source only while the operands and the results stay below 2^53 in magnitude.
- React's state-setter scheduling (`setProdutos(produtos => ...)`, App.js:76). This is modelled as applying the transition to the current ledger.
