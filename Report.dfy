/**
  The report exported for the selected shift: a header and one row per product,
  in ledger order, with the columns Produto, Inicial, Vendas, Reposição, Final
  and Estoque. The HTML markup around the rows is not modelled.
*/
module Report {
  import opened Ledger

  const Title := "Relatório de Estoque"

  const Headers: seq<string> := ["Produto", "Inicial", "Vendas", "Reposição", "Final", "Estoque"]

  /** One table row. */
  datatype Row = Row(name: string, inicial: int, vendas: int, reposicao: int, final: int, estoque: int)

  /** The report document: title, date line, shift label, column headers, rows. */
  datatype Document = Document(title: string, date: string, turno: string, headers: seq<string>, rows: seq<Row>)

  /** `turnoAtual.toUpperCase()` for the two tab values; the two shifts get
      different labels. */
  function ShiftLabel(turno: Shift): (shown: string)
    ensures shown == "MANHA" || shown == "NOITE"
    ensures shown == "MANHA" <==> turno == Manha
  {
    match turno
    case Manha => "MANHA"
    case Noite => "NOITE"
  }

  /** The row of one product in the selected shift: its identity, the shift's
      stored fields, and the final column derived from them. */
  function RowOf(turno: Shift, p: Product): (row: Row)
    ensures row.name == p.name && row.estoque == p.estoque
    ensures row.inicial == p.Record(turno).inicial && row.vendas == p.Record(turno).vendas
    ensures row.reposicao == p.Record(turno).reposicao
    ensures row.final == row.inicial - row.vendas
    ensures row.final < 0 <==> row.vendas > row.inicial
  {
    var t := p.Record(turno);
    Row(p.name, t.inicial, t.vendas, t.reposicao, t.Final(), p.estoque)
  }

  /** One row per product, in ledger order, for the selected shift; the final
      column is `inicial - vendas`, unclamped. */
  function ReportRows(ledger: seq<Product>, turno: Shift): (rows: seq<Row>)
    ensures |rows| == |ledger|
    ensures forall i :: 0 <= i < |ledger| ==>
      && rows[i].name == ledger[i].name
      && rows[i].estoque == ledger[i].estoque
      && rows[i].inicial == ledger[i].Record(turno).inicial
      && rows[i].vendas == ledger[i].Record(turno).vendas
      && rows[i].reposicao == ledger[i].Record(turno).reposicao
      && rows[i].final == rows[i].inicial - rows[i].vendas
  {
    if ledger == [] then [] else [RowOf(turno, ledger[0])] + ReportRows(ledger[1..], turno)
  }

  /** The whole document for a ledger snapshot, a shift and a date string: one
      row per product and one header per column of a row. */
  function Render(ledger: seq<Product>, turno: Shift, date: string): (doc: Document)
    ensures doc.title == Title && doc.headers == Headers
    ensures doc.date == date && doc.turno == ShiftLabel(turno)
    ensures |doc.headers| == 6 && |doc.rows| == |ledger|
    ensures forall i :: 0 <= i < |ledger| ==> doc.rows[i] == RowOf(turno, ledger[i])
  {
    Document(Title, date, ShiftLabel(turno), Headers, ReportRows(ledger, turno))
  }

  /** The report of a shift does not see edits made to the other shift. */
  lemma {:induction false} ReportIgnoresOtherShift(ledger: seq<Product>, turno: Shift, nome: string, campo: Field, valor: int, estoque: int)
    ensures ReportRows(UpdateField(ledger, turno, nome, campo, valor, estoque), turno.Other())
         == ReportRows(ledger, turno.Other())
  {
    var after := UpdateField(ledger, turno, nome, campo, valor, estoque);
    UpdateFieldFrame(ledger, turno, nome, campo, valor, estoque);
    var a, b := ReportRows(after, turno.Other()), ReportRows(ledger, turno.Other());
    forall i | 0 <= i < |ledger|
      ensures a[i] == b[i]
    {
      assert Catalog(after)[i] == Catalog(ledger)[i];
    }
  }

  /** In a row whose record obeys the replenishment rule, what is left plus what
      is replenished reaches the nominal stock, and overshoots it only when
      nothing is replenished. */
  lemma ReplenishedRowReachesStock(p: Product, turno: Shift)
    requires Consistent(p.Record(turno), p.estoque)
    ensures var row := RowOf(turno, p);
      && row.reposicao >= 0
      && row.final + row.reposicao >= row.estoque
      && (row.reposicao > 0 ==> row.final + row.reposicao == row.estoque)
  {
  }

  /** Coca (nominal stock 24) in the morning, from its seeded entry: 20 on hand,
      then 5 sold. Its row then reads 20, 5, 9, 15, 24. */
  lemma {:induction false} CocaScenario(ledger: seq<Product>, k: int)
    requires 0 <= k < |ledger| && ledger[k] == Product("Coca", 24, Zero, Zero)
    ensures var l1 := UpdateField(ledger, Manha, "Coca", Inicial, 20, 24);
      var l2 := UpdateField(l1, Manha, "Coca", Vendas, 5, 24);
      ReportRows(l2, Manha)[k] == Row("Coca", 20, 5, 9, 15, 24)
  {
    var l1 := UpdateField(ledger, Manha, "Coca", Inicial, 20, 24);
    UpdateFieldAt(ledger, Manha, "Coca", Inicial, 20, 24);
    var l2 := UpdateField(l1, Manha, "Coca", Vendas, 5, 24);
    UpdateFieldAt(l1, Manha, "Coca", Vendas, 5, 24);
  }

  /** The seeded ledger holds Coca's seeded entry at the catalog's third position. */
  lemma SeededCoca()
    ensures |Seed(InitialProducts)| > 2 && Seed(InitialProducts)[2] == Product("Coca", 24, Zero, Zero)
  {
    assert Catalog(Seed(InitialProducts))[2] == InitialProducts[2];
  }
}
