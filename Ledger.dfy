/**
  The stock ledger of the beverage stock app: an ordered list of products, each
  with a constant nominal stock (`estoque`) and two independent shift records
  (`manha`, `noite`), seeded from a fixed catalog and changed only by
  `UpdateField`.
*/
module Ledger {
  /** The two shifts of a day. */
  datatype Shift = Manha | Noite {
    function Other(): (s: Shift)
      ensures s != this
    {
      if Manha? then Noite else Manha
    }
  }

  /** The stored fields a user may edit. `reposicao` is not one of them. */
  datatype Field = Inicial | Vendas {
    function Other(): (f: Field)
      ensures f != this
    {
      if Inicial? then Vendas else Inicial
    }
  }

  /** The record kept for one product in one shift. */
  datatype ShiftRecord = ShiftRecord(inicial: int, reposicao: int, vendas: int) {

    function Get(campo: Field): int {
      match campo
      case Inicial => inicial
      case Vendas => vendas
    }

    /** Stock left at the end of the shift; derived on every read and never
        clamped, so it is negative exactly when more was sold than was on hand. */
    function Final(): (f: int)
      ensures f < 0 <==> vendas > inicial
    {
      inicial - vendas
    }
  }

  /** The record every shift starts with. */
  const Zero := ShiftRecord(0, 0, 0)

  datatype Product = Product(name: string, estoque: int, manha: ShiftRecord, noite: ShiftRecord) {

    function Record(turno: Shift): ShiftRecord {
      match turno
      case Manha => manha
      case Noite => noite
    }

    /** `{ ...p, [turno]: rec }`: the product with one shift record replaced. */
    function WithRecord(turno: Shift, rec: ShiftRecord): (p: Product)
      ensures p.Record(turno) == rec
      ensures p.Record(turno.Other()) == Record(turno.Other())
      ensures p.name == name && p.estoque == estoque
    {
      match turno
      case Manha => this.(manha := rec)
      case Noite => this.(noite := rec)
    }
  }

  /** One entry of the fixed catalog: a name and its nominal stock. */
  datatype CatalogItem = CatalogItem(name: string, estoque: int)

  /** The catalog the ledger is seeded from, in display order. */
  const InitialProducts: seq<CatalogItem> := [
    CatalogItem("Água s/ gás", 48),
    CatalogItem("Água c/ gás", 36),
    CatalogItem("Coca", 24),
    CatalogItem("Coca Zero", 24),
    CatalogItem("H2O", 12),
    CatalogItem("Mate", 12),
    CatalogItem("Água Tônica", 6),
    CatalogItem("Guaraná", 24),
    CatalogItem("Guaraná Zero", 6),
    CatalogItem("Fanta Laranja", 6),
    CatalogItem("Fanta Uva", 6),
    CatalogItem("Del Valle Manga", 6),
    CatalogItem("Del Valle Uva", 6),
    CatalogItem("Del Valle Maracujá", 6),
    CatalogItem("Del Valle Pêssego", 6),
    CatalogItem("Colorado", 20),
    CatalogItem("Budweiser", 20),
    CatalogItem("Corona", 20),
    CatalogItem("Stella", 20),
    CatalogItem("Therezópolis", 18),
    CatalogItem("Heineken", 12)
  ]

  /** The identity part of a ledger: names and nominal stocks, in order. */
  function Catalog(ledger: seq<Product>): seq<CatalogItem> {
    seq(|ledger|, i requires 0 <= i < |ledger| => CatalogItem(ledger[i].name, ledger[i].estoque))
  }

  predicate DistinctNames(catalog: seq<CatalogItem>) {
    forall i, j :: 0 <= i < j < |catalog| ==> catalog[i].name != catalog[j].name
  }

  /** Names are keys: no two products of the ledger share one. */
  predicate UniqueNames(ledger: seq<Product>) {
    DistinctNames(Catalog(ledger))
  }

  /** One product per catalog item, in catalog order, with both shifts zeroed. */
  function Seed(catalog: seq<CatalogItem>): (ledger: seq<Product>)
    ensures Catalog(ledger) == catalog
    ensures forall i, t :: 0 <= i < |ledger| ==> ledger[i].Record(t) == Zero
  {
    seq(|catalog|, i requires 0 <= i < |catalog| => Product(catalog[i].name, catalog[i].estoque, Zero, Zero))
  }

  /** `Math.max(0, estoque - inicial + vendas)`: what is needed to bring the
      shift back up to the nominal stock, floored at zero. */
  function Replenishment(estoque: int, inicial: int, vendas: int): (r: int)
    ensures r >= 0 && r >= estoque - inicial + vendas
    ensures r == 0 || r == estoque - inicial + vendas
  {
    if estoque - inicial + vendas > 0 then estoque - inicial + vendas else 0
  }

  /** The replenishment rule holds for a record against a nominal stock. */
  predicate Consistent(rec: ShiftRecord, estoque: int) {
    rec.reposicao == Replenishment(estoque, rec.inicial, rec.vendas)
  }

  /** Every record is either untouched since seeding or obeys the replenishment
      rule against its own product's nominal stock. */
  predicate Settled(ledger: seq<Product>) {
    forall i, t :: 0 <= i < |ledger| ==>
      ledger[i].Record(t) == Zero || Consistent(ledger[i].Record(t), ledger[i].estoque)
  }

  /** The record after setting `campo` to `valor`, with `reposicao` recomputed
      from the post-update values. */
  function UpdateRecord(rec: ShiftRecord, campo: Field, valor: int, estoque: int): (r: ShiftRecord)
    ensures r.Get(campo) == valor
    ensures r.Get(campo.Other()) == rec.Get(campo.Other())
    ensures Consistent(r, estoque)
  {
    var atualizado := match campo
      case Inicial => rec.(inicial := valor)
      case Vendas => rec.(vendas := valor);
    atualizado.(reposicao := Replenishment(estoque, atualizado.inicial, atualizado.vendas))
  }

  /** The per-product step of the update map: a product with another name is
      returned as it was; the one named `nome` gets `campo` of its `turno` record
      set, keeps the other stored field of that record, and keeps its name,
      nominal stock and other shift. */
  function UpdateProduct(p: Product, turno: Shift, nome: string, campo: Field, valor: int, estoque: int): (q: Product)
    ensures q.name == p.name && q.estoque == p.estoque
    ensures q.Record(turno.Other()) == p.Record(turno.Other())
    ensures p.name != nome ==> q == p
    ensures p.name == nome ==> q.Record(turno).Get(campo) == valor && Consistent(q.Record(turno), estoque)
    ensures p.name == nome ==> q.Record(turno).Get(campo.Other()) == p.Record(turno).Get(campo.Other())
  {
    if p.name == nome then p.WithRecord(turno, UpdateRecord(p.Record(turno), campo, valor, estoque)) else p
  }

  /** The transition `updateField(turno, nome, campo, valor, estoque)`: the new
      ledger, built product by product as `produtos.map` builds it. */
  function UpdateField(ledger: seq<Product>, turno: Shift, nome: string, campo: Field, valor: int, estoque: int): (r: seq<Product>)
    ensures |r| == |ledger|
    ensures forall i :: 0 <= i < |ledger| ==> r[i].name == ledger[i].name && r[i].estoque == ledger[i].estoque
  {
    if ledger == [] then []
    else [UpdateProduct(ledger[0], turno, nome, campo, valor, estoque)] + UpdateField(ledger[1..], turno, nome, campo, valor, estoque)
  }

  /** The update is element-wise: position `i` of the new ledger is the
      per-product step applied to position `i` of the old one. */
  lemma {:induction false} UpdateFieldAt(ledger: seq<Product>, turno: Shift, nome: string, campo: Field, valor: int, estoque: int)
    ensures forall i :: 0 <= i < |ledger| ==>
      UpdateField(ledger, turno, nome, campo, valor, estoque)[i] == UpdateProduct(ledger[i], turno, nome, campo, valor, estoque)
  {
    if ledger != [] {
      UpdateFieldAt(ledger[1..], turno, nome, campo, valor, estoque);
      var r := UpdateField(ledger, turno, nome, campo, valor, estoque);
      forall i | 1 <= i < |ledger|
        ensures r[i] == UpdateProduct(ledger[i], turno, nome, campo, valor, estoque)
      {
        assert ledger[1..][i - 1] == ledger[i];
      }
    }
  }

  /** An update keeps the length, the order, every name and nominal stock, every
      product's other shift, and every product whose name differs. */
  lemma {:induction false} UpdateFieldFrame(ledger: seq<Product>, turno: Shift, nome: string, campo: Field, valor: int, estoque: int)
    ensures |UpdateField(ledger, turno, nome, campo, valor, estoque)| == |ledger|
    ensures Catalog(UpdateField(ledger, turno, nome, campo, valor, estoque)) == Catalog(ledger)
    ensures forall i :: 0 <= i < |ledger| ==>
      UpdateField(ledger, turno, nome, campo, valor, estoque)[i].Record(turno.Other()) == ledger[i].Record(turno.Other())
    ensures forall i :: 0 <= i < |ledger| && ledger[i].name != nome ==>
      UpdateField(ledger, turno, nome, campo, valor, estoque)[i] == ledger[i]
  {
    UpdateFieldAt(ledger, turno, nome, campo, valor, estoque);
    var r := UpdateField(ledger, turno, nome, campo, valor, estoque);
    assert forall i :: 0 <= i < |ledger| ==> Catalog(r)[i] == Catalog(ledger)[i];
  }

  /** In every product named `nome`, the `turno` record has `campo = valor`, keeps
      its other stored field, and has `reposicao = max(0, estoque - inicial + vendas)`
      from the post-update values; that value is never negative. */
  lemma {:induction false} UpdateFieldTarget(ledger: seq<Product>, turno: Shift, nome: string, campo: Field, valor: int, estoque: int, i: int)
    requires 0 <= i < |ledger| && ledger[i].name == nome
    ensures UpdateField(ledger, turno, nome, campo, valor, estoque)[i].Record(turno).Get(campo) == valor
    ensures UpdateField(ledger, turno, nome, campo, valor, estoque)[i].Record(turno).Get(campo.Other())
      == ledger[i].Record(turno).Get(campo.Other())
    ensures Consistent(UpdateField(ledger, turno, nome, campo, valor, estoque)[i].Record(turno), estoque)
    ensures UpdateField(ledger, turno, nome, campo, valor, estoque)[i].Record(turno).reposicao >= 0
  {
    UpdateFieldAt(ledger, turno, nome, campo, valor, estoque);
  }

  /** Updating a name that no product has leaves the ledger as it was. */
  lemma {:induction false} UpdateFieldUnknownName(ledger: seq<Product>, turno: Shift, nome: string, campo: Field, valor: int, estoque: int)
    requires forall i :: 0 <= i < |ledger| ==> ledger[i].name != nome
    ensures UpdateField(ledger, turno, nome, campo, valor, estoque) == ledger
  {
    UpdateFieldFrame(ledger, turno, nome, campo, valor, estoque);
  }

  /** `reposicao` is recomputed from scratch, so repeating an update changes nothing. */
  lemma {:induction false} UpdateFieldIdempotent(ledger: seq<Product>, turno: Shift, nome: string, campo: Field, valor: int, estoque: int)
    ensures var once := UpdateField(ledger, turno, nome, campo, valor, estoque);
      UpdateField(once, turno, nome, campo, valor, estoque) == once
  {
    var once := UpdateField(ledger, turno, nome, campo, valor, estoque);
    var twice := UpdateField(once, turno, nome, campo, valor, estoque);
    UpdateFieldAt(ledger, turno, nome, campo, valor, estoque);
    UpdateFieldAt(once, turno, nome, campo, valor, estoque);
    forall i | 0 <= i < |ledger|
      ensures twice[i] == once[i]
    {
      var p := ledger[i];
      if p.name == nome {
        var rec := UpdateRecord(p.Record(turno), campo, valor, estoque);
        assert UpdateRecord(rec, campo, valor, estoque) == rec;
      }
    }
  }

  /** Editing `inicial` and then `vendas` of the same record gives the same
      ledger as the other order: nothing stale survives in `reposicao`. */
  lemma {:induction false} EditsOfOneRecordCommute(ledger: seq<Product>, turno: Shift, nome: string, inicial: int, vendas: int, estoque: int)
    ensures UpdateField(UpdateField(ledger, turno, nome, Inicial, inicial, estoque), turno, nome, Vendas, vendas, estoque)
         == UpdateField(UpdateField(ledger, turno, nome, Vendas, vendas, estoque), turno, nome, Inicial, inicial, estoque)
  {
    var a1 := UpdateField(ledger, turno, nome, Inicial, inicial, estoque);
    var b1 := UpdateField(ledger, turno, nome, Vendas, vendas, estoque);
    var a := UpdateField(a1, turno, nome, Vendas, vendas, estoque);
    var b := UpdateField(b1, turno, nome, Inicial, inicial, estoque);
    UpdateFieldAt(ledger, turno, nome, Inicial, inicial, estoque);
    UpdateFieldAt(ledger, turno, nome, Vendas, vendas, estoque);
    UpdateFieldAt(a1, turno, nome, Vendas, vendas, estoque);
    UpdateFieldAt(b1, turno, nome, Inicial, inicial, estoque);
    forall i | 0 <= i < |ledger|
      ensures a[i] == b[i]
    {
      var p := ledger[i];
      if p.name == nome {
        var rec := p.Record(turno);
        assert UpdateRecord(UpdateRecord(rec, Inicial, inicial, estoque), Vendas, vendas, estoque)
            == ShiftRecord(inicial, Replenishment(estoque, inicial, vendas), vendas);
        assert UpdateRecord(UpdateRecord(rec, Vendas, vendas, estoque), Inicial, inicial, estoque)
            == ShiftRecord(inicial, Replenishment(estoque, inicial, vendas), vendas);
      }
    }
  }

  /** Edits of different shifts are independent: they commute. */
  lemma {:induction false} ShiftsAreIndependent(ledger: seq<Product>, turno: Shift,
                             nome1: string, campo1: Field, valor1: int, estoque1: int,
                             nome2: string, campo2: Field, valor2: int, estoque2: int)
    ensures UpdateField(UpdateField(ledger, turno, nome1, campo1, valor1, estoque1), turno.Other(), nome2, campo2, valor2, estoque2)
         == UpdateField(UpdateField(ledger, turno.Other(), nome2, campo2, valor2, estoque2), turno, nome1, campo1, valor1, estoque1)
  {
    var a1 := UpdateField(ledger, turno, nome1, campo1, valor1, estoque1);
    var b1 := UpdateField(ledger, turno.Other(), nome2, campo2, valor2, estoque2);
    var a := UpdateField(a1, turno.Other(), nome2, campo2, valor2, estoque2);
    var b := UpdateField(b1, turno, nome1, campo1, valor1, estoque1);
    UpdateFieldAt(ledger, turno, nome1, campo1, valor1, estoque1);
    UpdateFieldAt(ledger, turno.Other(), nome2, campo2, valor2, estoque2);
    UpdateFieldAt(a1, turno.Other(), nome2, campo2, valor2, estoque2);
    UpdateFieldAt(b1, turno, nome1, campo1, valor1, estoque1);
    forall i | 0 <= i < |ledger|
      ensures a[i] == b[i]
    {
      assert a[i].Record(turno) == b[i].Record(turno);
      assert a[i].Record(turno.Other()) == b[i].Record(turno.Other());
    }
  }

  /** When names are unique and the nominal stock passed is the product's own
      (as the row that triggers the edit passes it), the edited record obeys the
      replenishment rule against its product, and every record that obeyed it
      still does. */
  lemma {:induction false} UpdateSettles(ledger: seq<Product>, k: int, turno: Shift, campo: Field, valor: int)
    requires UniqueNames(ledger) && 0 <= k < |ledger|
    ensures var r := UpdateField(ledger, turno, ledger[k].name, campo, valor, ledger[k].estoque);
      Consistent(r[k].Record(turno), r[k].estoque)
    ensures var r := UpdateField(ledger, turno, ledger[k].name, campo, valor, ledger[k].estoque);
      forall i, t :: 0 <= i < |ledger| && Consistent(ledger[i].Record(t), ledger[i].estoque) ==>
        Consistent(r[i].Record(t), r[i].estoque)
    ensures Settled(ledger) ==> Settled(UpdateField(ledger, turno, ledger[k].name, campo, valor, ledger[k].estoque))
  {
    var r := UpdateField(ledger, turno, ledger[k].name, campo, valor, ledger[k].estoque);
    UpdateFieldAt(ledger, turno, ledger[k].name, campo, valor, ledger[k].estoque);
    forall i | 0 <= i < |ledger| && i != k
      ensures r[i] == ledger[i]
    {
      assert Catalog(ledger)[i].name == ledger[i].name;
      assert Catalog(ledger)[k].name == ledger[k].name;
    }
  }

  /** A freshly seeded ledger is settled: every record is still zero. */
  lemma SeedIsSettled(catalog: seq<CatalogItem>)
    ensures Settled(Seed(catalog))
  {
  }

  /** The replenishment rule is not a seed-time invariant: a freshly seeded
      record of a product with positive nominal stock violates it. */
  lemma SeedIsNotConsistent(catalog: seq<CatalogItem>, i: int, t: Shift)
    requires 0 <= i < |catalog| && catalog[i].estoque > 0
    ensures !Consistent(Seed(catalog)[i].Record(t), Seed(catalog)[i].estoque)
  {
    var ledger := Seed(catalog);
    assert Catalog(ledger)[i] == CatalogItem(ledger[i].name, ledger[i].estoque);
  }

  /** Every catalog item has a positive nominal stock, so every record of the
      freshly seeded ledger breaks the replenishment rule. */
  lemma SeededCatalogBreaksRule()
    ensures |InitialProducts| == 21
    ensures forall i :: 0 <= i < |InitialProducts| ==> InitialProducts[i].estoque > 0
    ensures forall i, t :: 0 <= i < |Seed(InitialProducts)| ==>
      !Consistent(Seed(InitialProducts)[i].Record(t), Seed(InitialProducts)[i].estoque)
  {
    var c := InitialProducts;
    forall i | 0 <= i < |c|
      ensures c[i].estoque > 0
    {
      assert i in {0, 1, 2, 3, 4, 5, 6, 7, 8, 9, 10, 11, 12, 13, 14, 15, 16, 17, 18, 19, 20};
    }
    forall i, t | 0 <= i < |Seed(c)|
      ensures !Consistent(Seed(c)[i].Record(t), Seed(c)[i].estoque)
    {
      SeedIsNotConsistent(c, i, t);
    }
  }

  /** The position of a name in `InitialProducts`, spelled out name by name so
      that the verifier can evaluate it on each entry. */
  function CatalogPosition(name: string): int {
    if name == "Água s/ gás" then 0
    else if name == "Água c/ gás" then 1
    else if name == "Coca" then 2
    else if name == "Coca Zero" then 3
    else if name == "H2O" then 4
    else if name == "Mate" then 5
    else if name == "Água Tônica" then 6
    else if name == "Guaraná" then 7
    else if name == "Guaraná Zero" then 8
    else if name == "Fanta Laranja" then 9
    else if name == "Fanta Uva" then 10
    else if name == "Del Valle Manga" then 11
    else if name == "Del Valle Uva" then 12
    else if name == "Del Valle Maracujá" then 13
    else if name == "Del Valle Pêssego" then 14
    else if name == "Colorado" then 15
    else if name == "Budweiser" then 16
    else if name == "Corona" then 17
    else if name == "Stella" then 18
    else if name == "Therezópolis" then 19
    else if name == "Heineken" then 20
    else -1
  }

  /** Entries 0 to 6 (waters, colas, H2O, mate, tonic) lead back to their positions. */
  lemma WaterAndSodaPositions()
    ensures forall i :: 0 <= i < 7 ==> CatalogPosition(InitialProducts[i].name) == i
  {
    var c := InitialProducts;
    forall i | 0 <= i < 7
      ensures CatalogPosition(c[i].name) == i
    {
      assert i in {0, 1, 2, 3, 4, 5, 6};
    }
  }

  /** Entries 7 to 14 (guaranás, Fantas, Del Valle juices) lead back to their positions. */
  lemma GuaranaToJuicePositions()
    ensures forall i :: 7 <= i < 15 ==> CatalogPosition(InitialProducts[i].name) == i
  {
    var c := InitialProducts;
    forall i | 7 <= i < 15
      ensures CatalogPosition(c[i].name) == i
    {
      assert i in {7, 8, 9, 10, 11, 12, 13, 14};
    }
  }

  /** Entries 15 to 20 (the beers) lead back to their positions. */
  lemma BeerPositions()
    ensures forall i :: 15 <= i < 21 ==> CatalogPosition(InitialProducts[i].name) == i
  {
    var c := InitialProducts;
    forall i | 15 <= i < 21
      ensures CatalogPosition(c[i].name) == i
    {
      assert i in {15, 16, 17, 18, 19, 20};
    }
  }

  /** The catalog names are distinct (they serve as the rows' keys), so a name
      picks out one product. */
  lemma InitialProductsDistinct()
    ensures DistinctNames(InitialProducts)
  {
    WaterAndSodaPositions();
    GuaranaToJuicePositions();
    BeerPositions();
  }
}
