/**
  The screen's state: the selected tab and the ledger, each replaced wholesale
  by its setter, and the actions that the form and the report button perform.
*/
module App {
  import opened Wrappers
  import opened Ledger
  import ProductRow
  import Report

  class EstoqueApp {
    var tab: Shift
    var produtos: seq<Product>

    /** The products are always the catalog's, in its order, with its stocks. */
    ghost predicate Valid()
      reads this
    {
      Catalog(produtos) == InitialProducts
    }

    /** The screen opens on the morning tab with the freshly seeded ledger. */
    constructor ()
      ensures Valid() && Settled(produtos)
      ensures tab == Manha && produtos == Seed(InitialProducts)
    {
      tab := Manha;
      produtos := Seed(InitialProducts);
      SeedIsSettled(InitialProducts);
    }

    /** A tab button: select the shift shown and reported. */
    method SetTab(turno: Shift)
      modifies this
      ensures tab == turno && produtos == old(produtos)
    {
      tab := turno;
    }

    /** `updateField`: replace the ledger by the transition applied to it. When the
        nominal stock passed is that of the product so named, a settled ledger
        stays settled. */
    method UpdateField(turno: Shift, nome: string, campo: Field, valor: int, estoque: int)
      requires Valid()
      modifies this
      ensures Valid() && tab == old(tab)
      ensures produtos == Ledger.UpdateField(old(produtos), turno, nome, campo, valor, estoque)
      ensures old(Settled(produtos)) && (forall i :: 0 <= i < |old(produtos)| && old(produtos)[i].name == nome ==> old(produtos)[i].estoque == estoque)
              ==> Settled(produtos)
    {
      ghost var before := produtos;
      produtos := Ledger.UpdateField(produtos, turno, nome, campo, valor, estoque);
      UpdateFieldFrame(before, turno, nome, campo, valor, estoque);
      if Settled(before) && (forall i :: 0 <= i < |before| && before[i].name == nome ==> before[i].estoque == estoque) {
        if k :| 0 <= k < |before| && before[k].name == nome {
          InitialProductsDistinct();
          UpdateSettles(before, k, turno, campo, valor);
        } else {
          UpdateFieldUnknownName(before, turno, nome, campo, valor, estoque);
        }
      }
    }

    /** Text typed into cell `c` of row `k` on the current tab. */
    method OnChangeText(k: int, c: ProductRow.Column, text: Option<int>)
      requires Valid() && 0 <= k < |produtos|
      modifies this
      ensures Valid() && tab == old(tab)
      ensures produtos == ProductRow.OnChangeText(old(produtos), tab, old(produtos)[k], c, text)
      ensures old(Settled(produtos)) ==> Settled(produtos)
    {
      if ProductRow.Editable(c) {
        var product := produtos[k];
        InitialProductsDistinct();
        forall i | 0 <= i < |produtos| && produtos[i].name == product.name
          ensures produtos[i].estoque == product.estoque
        {
          assert Catalog(produtos)[i].name == produtos[i].name;
          assert Catalog(produtos)[k].name == product.name;
        }
        UpdateField(tab, product.name, ProductRow.Campo(c), ProductRow.Coerce(text), product.estoque);
      }
    }

    /** The report button: the document for the current ledger and tab; the
        ledger is only read. */
    method GerarRelatorioPDF(dataAtual: string) returns (doc: Report.Document)
      ensures doc == Report.Render(produtos, tab, dataAtual)
    {
      doc := Report.Render(produtos, tab, dataAtual);
    }
  }
}
