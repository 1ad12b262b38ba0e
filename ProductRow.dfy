/**
  One product row of the form: the five cells shown for the selected shift,
  which of them accept input, and how typed text reaches the ledger.
*/
module ProductRow {
  import opened Wrappers
  import Ledger

  /** The cells of a row, in display order. */
  datatype Column = Inicial | Vendas | Reposicao | Final | Estoque

  const Columns: seq<Column> := [Inicial, Vendas, Reposicao, Final, Estoque]

  /** The cell that shows a stored, user-entered ledger field. */
  function ColumnOf(campo: Ledger.Field): Column {
    match campo
    case Inicial => Inicial
    case Vendas => Vendas
  }

  /** Only the cells of the two stored, user-entered fields accept input: a cell
      is editable exactly when some ledger field is shown in it, that is, when it
      is one of the first two cells of the row. */
  predicate Editable(c: Column): (b: bool)
    ensures b <==> exists campo :: ColumnOf(campo) == c
    ensures b <==> c in Columns[..2]
  {
    assert ColumnOf(Ledger.Inicial) == Inicial && ColumnOf(Ledger.Vendas) == Vendas;
    assert Columns[..2] == [Inicial, Vendas];
    c == Inicial || c == Vendas
  }

  /** The ledger field an editable cell writes: the one the cell shows. */
  function Campo(c: Column): (campo: Ledger.Field)
    requires Editable(c)
    ensures ColumnOf(campo) == c
  {
    if c == Inicial then Ledger.Inicial else Ledger.Vendas
  }

  /** The value a cell shows for a product in a shift: an editable cell shows the
      stored field its input writes, the replenishment cell the stored
      `reposicao` (0 in a seeded record, whatever the formula would give), the
      final cell the derived, unclamped `inicial - vendas`, and the stock cell
      the nominal stock. */
  function CellValue(p: Ledger.Product, turno: Ledger.Shift, c: Column): (v: int)
    ensures Editable(c) ==> v == p.Record(turno).Get(Campo(c))
    ensures c == Reposicao ==> v == p.Record(turno).reposicao
    ensures c == Final ==> v == p.Record(turno).inicial - p.Record(turno).vendas
    ensures c == Final ==> (v < 0 <==> p.Record(turno).vendas > p.Record(turno).inicial)
    ensures c == Estoque ==> v == p.estoque
  {
    match c
    case Reposicao => p.Record(turno).reposicao
    case Final => p.Record(turno).Final()
    case Estoque => p.estoque
    case Inicial => p.Record(turno).inicial
    case Vendas => p.Record(turno).vendas
  }

  /** `+text || 0`: the parsed number, or 0 when the text does not parse
      (`None`, JavaScript's NaN). Zero and unparseable text both give 0;
      negative numbers pass through unclamped. */
  function Coerce(text: Option<int>): (v: int)
    ensures v == 0 <==> text == None || text == Some(0)
    ensures text.Some? ==> v == text.value
  {
    match text
    case None => 0
    case Some(n) => n
  }

  /** The row's change handler: a read-only cell ignores input; an editable one
      calls the ledger transition with the row's own name and nominal stock. */
  function OnChangeText(ledger: seq<Ledger.Product>, turno: Ledger.Shift, product: Ledger.Product,
                        c: Column, text: Option<int>): (r: seq<Ledger.Product>)
    ensures Ledger.Catalog(r) == Ledger.Catalog(ledger)
    ensures forall i :: 0 <= i < |ledger| && ledger[i].name != product.name ==> r[i] == ledger[i]
  {
    if Editable(c) then
      Ledger.UpdateFieldFrame(ledger, turno, product.name, Campo(c), Coerce(text), product.estoque);
      Ledger.UpdateField(ledger, turno, product.name, Campo(c), Coerce(text), product.estoque)
    else ledger
  }

  /** `reposicao`, `final` and `estoque` cannot be set from the form: typing into
      them leaves the ledger as it was. */
  lemma ReadOnlyCellsIgnoreInput(ledger: seq<Ledger.Product>, turno: Ledger.Shift, product: Ledger.Product,
                                 c: Column, text: Option<int>)
    requires !Editable(c)
    ensures OnChangeText(ledger, turno, product, c, text) == ledger
  {
  }

  /** Typing into an editable cell of row `k` and reading the row back: the cell
      shows the coerced input, the other editable cell is unchanged, the
      replenishment cell shows `max(0, estoque - inicial + vendas)` and the final
      cell `inicial - vendas` (negative when more was sold than was on hand). */
  lemma EditReadsBack(ledger: seq<Ledger.Product>, turno: Ledger.Shift, k: int, c: Column, text: Option<int>)
    requires 0 <= k < |ledger| && Editable(c)
    ensures var p := OnChangeText(ledger, turno, ledger[k], c, text)[k];
      && CellValue(p, turno, c) == Coerce(text)
      && CellValue(p, turno, if c == Inicial then Vendas else Inicial)
         == CellValue(ledger[k], turno, if c == Inicial then Vendas else Inicial)
      && CellValue(p, turno, Reposicao)
         == Ledger.Replenishment(CellValue(p, turno, Estoque), CellValue(p, turno, Inicial), CellValue(p, turno, Vendas))
      && CellValue(p, turno, Final) == CellValue(p, turno, Inicial) - CellValue(p, turno, Vendas)
      && CellValue(p, turno, Estoque) == ledger[k].estoque
  {
    Ledger.UpdateFieldTarget(ledger, turno, ledger[k].name, Campo(c), Coerce(text), ledger[k].estoque, k);
    Ledger.UpdateFieldAt(ledger, turno, ledger[k].name, Campo(c), Coerce(text), ledger[k].estoque);
  }

  /** With unique names, any input through any row keeps the ledger settled:
      every record is either untouched or obeys the replenishment rule. */
  lemma EditKeepsSettled(ledger: seq<Ledger.Product>, turno: Ledger.Shift, k: int, c: Column, text: Option<int>)
    requires Ledger.UniqueNames(ledger) && Ledger.Settled(ledger) && 0 <= k < |ledger|
    ensures Ledger.Settled(OnChangeText(ledger, turno, ledger[k], c, text))
  {
    if Editable(c) {
      Ledger.UpdateSettles(ledger, k, turno, Campo(c), Coerce(text));
    }
  }
}
