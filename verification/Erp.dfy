/** The stock and order calls of the ERP server. Every call is one atomic step on the
    tables: it either takes effect as a whole or raises and leaves them as they were.

    Row identifiers count from zero in order of creation. */
module Erp {
  import opened Wrappers
  import opened Rounding
  import opened ErpStock
  import opened ErpTables
  import opened ErpPurchasing

  // ---- Drawing materials -------------------------------------------------------------------

  function Remaining(m: Material): real {
    Round6(m.requiredQty - m.issuedQty)
  }

  /** What work order `w` still needs, line by line. */
  function Needs(materials: seq<Material>, w: nat): seq<(Item, real)> {
    if materials == [] then []
    else
      (if materials[0].workOrder == w && Remaining(materials[0]) > 0.0
       then [(materials[0].item, Remaining(materials[0]))] else [])
      + Needs(materials[1..], w)
  }

  /** Taking the needs out of stock one after the other. */
  function Draw(s: Stock, needs: seq<(Item, real)>, w: nat): Result<Stock>
    decreases |needs|
  {
    if needs == [] then Ok(s)
    else
      match ChangeInventory(s, needs[0].0, -needs[0].1, FromIssue(w))
      case Err(code) => Err(code)
      case Ok(t) => Draw(t, needs[1..], w)
  }

  /** Every line of the work order that needed anything now counts as issued. */
  function MarkIssued(materials: seq<Material>, w: nat): (r: seq<Material>)
    ensures |r| == |materials|
  {
    if materials == [] then []
    else
      var m := materials[0];
      [if m.workOrder == w && Remaining(m) > 0.0 then m.(issuedQty := m.requiredQty) else m] +
        MarkIssued(materials[1..], w)
  }

  /** One material line of the issuing loop. */
  lemma DrawSplits(s: Stock, rows: seq<Material>, i: nat, w: nat)
    requires i < |rows|
    ensures var m := rows[i];
            if m.workOrder == w && Remaining(m) > 0.0 then
              var changed := ChangeInventory(s, m.item, -Remaining(m), FromIssue(w));
              && (changed.Err? ==> Draw(s, Needs(rows[i..], w), w).Err?)
              && (changed.Ok? ==> Draw(s, Needs(rows[i..], w), w) == Draw(changed.value, Needs(rows[i + 1..], w), w))
              && MarkIssued(rows[i..], w) == [m.(issuedQty := m.requiredQty)] + MarkIssued(rows[i + 1..], w)
            else
              && Needs(rows[i..], w) == Needs(rows[i + 1..], w)
              && MarkIssued(rows[i..], w) == [m] + MarkIssued(rows[i + 1..], w)
  {
    hide ChangeInventory, Remaining;
    var m := rows[i];
    assert rows[i..][0] == m && rows[i..][1..] == rows[i + 1..];
    if m.workOrder == w && Remaining(m) > 0.0 {
      var needs := [(m.item, Remaining(m))] + Needs(rows[i + 1..], w);
      assert needs[1..] == Needs(rows[i + 1..], w);
    }
  }

  lemma DrawEnds(s: Stock, rows: seq<Material>, w: nat)
    ensures Draw(s, Needs(rows[|rows|..], w), w) == Ok(s) && MarkIssued(rows[|rows|..], w) == []
  {
  }

  /** No line asks for more than is available, each taken by itself. */
  predicate NoShortage(s: Stock, needs: seq<(Item, real)>) {
    forall i :: 0 <= i < |needs| ==> Available(s, needs[i].0) + TOLERANCE >= needs[i].1
  }

  predicate HasMaterials(materials: seq<Material>, w: nat) {
    exists i :: 0 <= i < |materials| && materials[i].workOrder == w
  }

  lemma {:induction false} MarkIssuedAt(materials: seq<Material>, w: nat, i: nat)
    requires i < |materials|
    ensures MarkIssued(materials, w)[i] ==
            if materials[i].workOrder == w && Remaining(materials[i]) > 0.0
            then materials[i].(issuedQty := materials[i].requiredQty) else materials[i]
    decreases |materials|
  {
    if i > 0 {
      MarkIssuedAt(materials[1..], w, i - 1);
    }
  }

  /** A sound line needs its whole required quantity or nothing. */
  lemma RemainingIs(m: Material)
    requires MaterialOk(m)
    ensures Remaining(m) == m.requiredQty - m.issuedQty
    ensures Remaining(m) > 0.0 <==> m.issuedQty == 0.0 && m.requiredQty > 0.0
    ensures Remaining(m) > 0.0 ==> Remaining(m) == m.requiredQty
    ensures m.issuedQty + TOLERANCE >= m.requiredQty <==> Supplied(m)
  {
    Round6Facts(m.requiredQty - m.issuedQty);
    Round6Facts(0.0);
    ToleranceIsFine(m.requiredQty, 0.0);
  }

  /** The needs of a work order are the required quantities of its lines not yet issued. */
  lemma {:induction false} NeedsExactly(materials: seq<Material>, w: nat, need: (Item, real))
    requires forall m :: m in materials ==> MaterialOk(m)
    ensures need in Needs(materials, w) <==>
            need.1 > 0.0
            && exists m :: m in materials && m.workOrder == w && m.issuedQty == 0.0 && (m.item, m.requiredQty) == need
    decreases |materials|
  {
    hide MaterialOk, Remaining, Supplied;
    if materials != [] {
      assert materials == [materials[0]] + materials[1..];
      assert materials[0] in materials && forall m :: m in materials[1..] ==> m in materials;
      RemainingIs(materials[0]);
      NeedsExactly(materials[1..], w, need);
    }
  }

  /** Issuing marks each line of the work order that requires anything, and no other. */
  lemma MarkedExactly(materials: seq<Material>, w: nat, i: nat)
    requires i < |materials| && MaterialOk(materials[i])
    ensures MarkIssued(materials, w)[i] ==
            if materials[i].workOrder == w && materials[i].requiredQty > 0.0
            then materials[i].(issuedQty := materials[i].requiredQty) else materials[i]
  {
    MarkIssuedAt(materials, w, i);
    RemainingIs(materials[i]);
  }

  /** Drawing books one issue row for each need, in order. */
  lemma {:induction false} DrawBooks(s: Stock, needs: seq<(Item, real)>, w: nat)
    requires Draw(s, needs, w).Ok?
    ensures var t := Draw(s, needs, w).value;
            && |t.txns| == |s.txns| + |needs| && s.txns <= t.txns
            && forall k :: 0 <= k < |needs| ==>
                 var row := t.txns[|s.txns| + k];
                 row.item == needs[k].0 && row.source == FromIssue(w) && row.qty == -needs[k].1
    decreases |needs|
  {
    hide Round6;
    if needs != [] {
      var one := ChangeInventory(s, needs[0].0, -needs[0].1, FromIssue(w)).value;
      DrawBooks(one, needs[1..], w);
      var t := Draw(s, needs, w).value;
      assert one.txns[|s.txns|] == t.txns[|s.txns|];
      forall k | 0 < k < |needs|
        ensures t.txns[|s.txns| + k].item == needs[k].0 && t.txns[|s.txns| + k].source == FromIssue(w)
        ensures t.txns[|s.txns| + k].qty == -needs[k].1
      {
        assert needs[k] == needs[1..][k - 1] && |s.txns| + k == |one.txns| + (k - 1);
      }
    }
  }

  function WorkOrderLines(lines: seq<BomLine>, orderQty: real, w: nat): seq<Material> {
    seq(|lines|, i requires 0 <= i < |lines| => Material(w, lines[i].item, RequiredQty(lines[i], orderQty), 0.0))
  }

  // ---- The server -------------------------------------------------------------------------------

  function NewOrders(names: seq<string>): seq<PurchaseOrder> {
    seq(|names|, i requires 0 <= i < |names| => PurchaseOrder(names[i], AwaitingReceipt))
  }

  /** `purchase_suggestions` */
  method Suggest(s: Stock, lines: seq<BomLine>, orderQty: real) returns (suggestions: seq<Suggestion>)
    ensures suggestions == Suggestions(s, lines, orderQty)
  {
    hide Shortage;
    suggestions := [];
    for i := 0 to |lines|
      invariant suggestions == Suggestions(s, lines[..i], orderQty)
    {
      assert lines[..i + 1][..i] == lines[..i];
      var shortage := Shortage(s, lines[i], orderQty);
      if shortage > 0.0 {
        suggestions := suggestions + [Suggestion(lines[i].item, shortage)];
      }
    }
    assert lines[..|lines|] == lines;
  }

  lemma NoRowsFor(suggestions: seq<Suggestion>, supplier: Item -> string, name: string)
    requires name !in Suppliers(suggestions, supplier)
    ensures RowsFor(suggestions, supplier, name) == []
  {
    SuppliersDistinct(suggestions, supplier);
    if RowsFor(suggestions, supplier, name) != [] {
      RowsForExactly(suggestions, supplier, name, RowsFor(suggestions, supplier, name)[0]);
    }
  }

  /** The dictionary of suppliers, filled suggestion by suggestion. */
  method GroupBySupplier(suggestions: seq<Suggestion>, supplier: Item -> string)
    returns (names: seq<string>, grouped: seq<seq<Suggestion>>)
    ensures names == Suppliers(suggestions, supplier) && |grouped| == |names|
    ensures forall k :: 0 <= k < |names| ==> grouped[k] == RowsFor(suggestions, supplier, names[k])
  {
    names, grouped := [], [];
    for i := 0 to |suggestions|
      invariant names == Suppliers(suggestions[..i], supplier) && |grouped| == |names|
      invariant forall k :: 0 <= k < |names| ==> grouped[k] == RowsFor(suggestions[..i], supplier, names[k])
    {
      assert suggestions[..i + 1][..i] == suggestions[..i];
      var name := supplier(suggestions[i].item);
      SuppliersDistinct(suggestions[..i], supplier);
      if name in names {
        var k :| 0 <= k < |names| && names[k] == name;
        grouped := grouped[k := grouped[k] + [suggestions[i]]];
      } else {
        NoRowsFor(suggestions[..i], supplier, name);
        names, grouped := names + [name], grouped + [[suggestions[i]]];
      }
    }
    assert suggestions[..|suggestions|] == suggestions;
  }

  /** A count lands within one grid step of the counted quantity. */
  lemma CountFacts(before: real, counted: real)
    ensures var after := Round6(before + Round6(counted - before));
            && counted - 0.000001 <= after <= counted + 0.000001
            && (OnGrid(before) ==> counted - 0.0000005 <= after <= counted + 0.0000005)
            && (counted >= 0.0 ==> after >= 0.0)
  {
    hide Round6, OnGrid;
    var delta := Round6(counted - before);
    Round6Facts(counted - before);
    Round6Facts(before + delta);
    NotNegative(before + delta);
    if OnGrid(before) {
      GridSums(before, delta);
      GridSums(before, counted - before);
    }
  }

  /** The balance after a count equals the count exactly when the count is on the grid and,
      if the old balance lies halfway between two grid values, an even grid value. */
  lemma CountExactly(before: real, counted: real)
    ensures Round6(before + Round6(counted - before)) == counted <==>
            OnGrid(counted) && (!Midway(before) || Steps(counted) % 2 == 0)
  {
    var b, c := before * 1000000.0, Steps(counted);
    var delta := Round6(counted - before);
    Round6Facts(before + delta);
    assert (before + delta) * 1000000.0 == b + HalfEven((counted - before) * 1000000.0) as real;
    if OnGrid(counted) {
      assert (counted - before) * 1000000.0 == c as real - b;
      HalfEvenArrives(b, c);
      assert Round6(before + delta) == counted <==> HalfEven(b + HalfEven(c as real - b) as real) == c;
    }
  }

  lemma RequiredOnGrid(line: BomLine, orderQty: real)
    ensures OnGrid(RequiredQty(line, orderQty))
  {
    Round6Facts(line.qtyPer * orderQty * (1.0 + line.lossRate));
  }

  lemma LinesOnGrid(lines: seq<BomLine>, orderQty: real, w: nat)
    ensures forall m :: m in WorkOrderLines(lines, orderQty, w) ==>
        m.workOrder == w && m.issuedQty == 0.0 && OnGrid(m.requiredQty)
  {
    hide RequiredQty, OnGrid;
    forall m | m in WorkOrderLines(lines, orderQty, w)
      ensures OnGrid(m.requiredQty)
    {
      var i :| 0 <= i < |lines| && m == WorkOrderLines(lines, orderQty, w)[i];
      RequiredOnGrid(lines[i], orderQty);
    }
  }

  lemma SuppliedExactly(materials: seq<Material>)
    ensures forall m :: m in materials && MaterialOk(m) ==> (m.issuedQty + TOLERANCE >= m.requiredQty <==> Supplied(m))
  {
    forall m | m in materials && MaterialOk(m)
      ensures m.issuedQty + TOLERANCE >= m.requiredQty <==> Supplied(m)
    {
      RemainingIs(m);
    }
  }

  lemma AllSupplied(materials: seq<Material>, w: nat, orders: seq<WorkOrder>, txns: seq<Txn>)
    requires MaterialsOk(orders, MarkIssued(materials, w), txns)
    ensures forall m :: m in MarkIssued(materials, w) && m.workOrder == w ==> Supplied(m)
  {
    forall m | m in MarkIssued(materials, w) && m.workOrder == w
      ensures Supplied(m)
    {
      var i :| 0 <= i < |materials| && MarkIssued(materials, w)[i] == m;
      MarkIssuedAt(materials, w, i);
      RemainingIs(m);
    }
  }

  lemma ReceivedExactly(lines: seq<PurchaseLine>, po: nat)
    ensures AllReceived(lines, po) <==> forall l :: l in lines && l.po == po ==> l.status == FullyReceived
  {
    if AllReceived(lines, po) {
      forall l | l in lines && l.po == po
        ensures l.status.FullyReceived?
      {
        var i :| 0 <= i < |lines| && lines[i] == l;
      }
    }
  }

  function KindOf(docType: string): DocumentKind {
    if docType == "应收" then Receivable else Payable
  }

  /** The material lines of a new work order: one for each BOM line, in order, each asking for
      the rounded demand and nothing issued yet. */
  ghost predicate AsksFor(materials: seq<Material>, lines: seq<BomLine>, orderQty: real, w: nat) {
    && |materials| == |lines|
    && forall i :: 0 <= i < |lines| ==>
         && materials[i].workOrder == w && materials[i].item == lines[i].item && materials[i].issuedQty == 0.0
         && Rounded(materials[i].requiredQty, Demand(lines[i], orderQty))
  }

  lemma WorkOrderAsksFor(lines: seq<BomLine>, orderQty: real, w: nat)
    ensures AsksFor(WorkOrderLines(lines, orderQty, w), lines, orderQty, w)
  {
    hide Rounded, Round6, RequiredQty, Demand;
    forall i | 0 <= i < |lines|
      ensures Rounded(RequiredQty(lines[i], orderQty), Demand(lines[i], orderQty))
    {
      RequiredExactly(lines[i], orderQty, RequiredQty(lines[i], orderQty));
    }
  }

  // ---- Codes -------------------------------------------------------------------------------------

  /** The first `n` codes are new and differ from each other. */
  ghost predicate FreshCodes(used: set<string>, codes: nat -> string, n: nat) {
    && (forall k: nat :: k < n ==> codes(k) !in used)
    && (forall j: nat, k: nat :: j < k < n ==> codes(j) != codes(k))
  }

  ghost function FirstCodes(codes: nat -> string, n: nat): set<string> {
    set k: nat | k < n :: codes(k)
  }

  lemma NoCodes(used: set<string>, codes: nat -> string)
    ensures FreshCodes(used, codes, 0) && FirstCodes(codes, 0) == {}
  {
  }

  lemma CodesStep(used: set<string>, codes: nat -> string, k: nat, n: nat)
    requires k < n && FreshCodes(used, codes, k)
    ensures FirstCodes(codes, k + 1) == FirstCodes(codes, k) + {codes(k)}
    ensures codes(k) !in used + FirstCodes(codes, k) <==> FreshCodes(used, codes, k + 1)
    ensures codes(k) in used + FirstCodes(codes, k) ==> !FreshCodes(used, codes, n)
  {
  }

  class Server {
    const products: set<string>
    const boms: map<nat, Bom>
    ghost const opening: map<Item, real>
    var items: set<Item>
    var stock: Stock
    var purchaseOrders: seq<PurchaseOrder>
    var purchaseLines: seq<PurchaseLine>
    var workOrders: seq<WorkOrder>
    var materials: seq<Material>
    var reports: seq<Entry>
    var salesOrders: seq<SalesOrder>
    var shipments: seq<Entry>
    var documents: seq<Document>
    var payments: seq<Entry>
    /** The codes in use: each table refuses one it already has. */
    var orderCodes: set<string>
    var adjustmentCodes: set<string>
    var saleCodes: set<string>
    var documentCodes: set<string>
    var paymentCodes: set<string>

    ghost predicate Inv()
      reads this
    {
      && StockOk(opening, stock)
      && PurchasesOk(purchaseLines, stock.txns)
      && HeadersOk(purchaseOrders, purchaseLines)
      && ProductionOk(workOrders, reports, stock.txns)
      && MaterialsOk(workOrders, materials, stock.txns)
      && SalesOk(salesOrders, shipments, stock.txns)
      && FinanceOk(documents, payments)
    }

    constructor (items: set<Item>, products: set<string>, opening: map<Item, real>, boms: map<nat, Bom>)
      requires forall item :: item in opening ==> opening[item] >= 0.0
      ensures Inv() && this.products == products && this.boms == boms && this.opening == opening
    {
      this.products, this.boms, this.opening, this.items := products, boms, opening, items;
      stock := Stock(map item | item in opening :: Balance(opening[item], 0.0), []);
      purchaseOrders, purchaseLines, workOrders, materials, reports := [], [], [], [], [];
      salesOrders, shipments, documents, payments := [], [], [], [];
      orderCodes, adjustmentCodes, saleCodes, documentCodes, paymentCodes := {}, {}, {}, {}, {};
    }

    // ---- Stock -----------------------------------------------------------------------------

    /** Sets the balance to a counted quantity; `code` is the one given or generated. */
    method CreateInventoryAdjustment(item: Item, counted: real, code: string) returns (r: Result<real>)
      requires Inv()
      modifies this`stock, this`adjustmentCodes
      ensures Inv()
      ensures r.Ok? <==> item in items && counted >= 0.0 && code !in old(adjustmentCodes)
      ensures r.Err? ==> stock == old(stock) && adjustmentCodes == old(adjustmentCodes)
      ensures r.Ok? ==> adjustmentCodes == old(adjustmentCodes) + {code}
      ensures r.Ok? ==>
                && Rounded(r.value, counted - OnHand(old(stock), item))
                && stock == Put(old(stock), item, r.value, FromCount, OnHand(stock, item))
      ensures r.Ok? ==> counted - 0.000001 <= OnHand(stock, item) <= counted + 0.000001
      ensures r.Ok? ==>
                (OnHand(stock, item) == counted <==>
                 OnGrid(counted) && (!Midway(OnHand(old(stock), item)) || Steps(counted) % 2 == 0))
    {
      hide StockOk, PurchasesOk, HeadersOk, ProductionOk, MaterialsOk, SalesOk, FinanceOk, Round6, OnGrid, Midway,
           Steps, Rounded;
      if item !in items {
        return Err("内部物料不存在");
      }
      if counted < 0.0 {
        return Err("实盘数量不能小于 0");
      }
      if code in adjustmentCodes {
        return Err("UNIQUE inventory_adjustments.adjustment_code");
      }
      var before := OnHand(stock, item);
      var delta := Round6(counted - before);
      ChangeKeeps(opening, stock, item, delta, FromCount);
      CountFacts(before, counted);
      CountExactly(before, counted);
      RoundedExactly(delta, counted - before);
      ElsewhereOfCount(Txn(item, FromCount, delta, before, Round6(before + delta)));
      var changed := ChangeInventory(stock, item, delta, FromCount);
      stock := changed.value;
      adjustmentCodes := adjustmentCodes + {code};
      r := Ok(delta);
    }

    lemma ElsewhereOfCount(t: Txn)
      requires Inv() && t.source.FromCount?
      ensures PurchasesOk(purchaseLines, stock.txns + [t])
      ensures ProductionOk(workOrders, reports, stock.txns + [t])
      ensures MaterialsOk(workOrders, materials, stock.txns + [t])
      ensures SalesOk(salesOrders, shipments, stock.txns + [t])
    {
      hide StockOk, PurchasesOk, HeadersOk, ProductionOk, MaterialsOk, SalesOk, FinanceOk;
      PurchasesElsewhere(purchaseLines, stock.txns, t);
      ProductionElsewhere(workOrders, reports, stock.txns, t);
      MaterialsElsewhere(workOrders, materials, stock.txns, t);
      SalesElsewhere(salesOrders, shipments, stock.txns, t);
    }

    // ---- Purchasing --------------------------------------------------------------------------

    /** A one-line order typed in by hand, nothing received yet. */
    method CreatePurchaseOrder(supplier: string, item: Item, orderQty: real, code: string) returns (r: Result<nat>)
      requires Inv()
      modifies this`purchaseOrders, this`purchaseLines, this`orderCodes
      ensures Inv() && (r.Ok? <==> code !in old(orderCodes))
      ensures r.Err? ==>
                purchaseOrders == old(purchaseOrders) && purchaseLines == old(purchaseLines)
                  && orderCodes == old(orderCodes)
      ensures r.Ok? ==>
                && r.value == |old(purchaseOrders)| && orderCodes == old(orderCodes) + {code}
                && purchaseOrders == old(purchaseOrders) + [PurchaseOrder(supplier, AwaitingReceipt)]
                && purchaseLines == old(purchaseLines) + [PurchaseLine(r.value, item, orderQty, 0.0, AwaitingReceipt)]
    {
      hide StockOk, PurchasesOk, HeadersOk, ProductionOk, MaterialsOk, SalesOk, FinanceOk;
      if code in orderCodes {
        return Err("UNIQUE purchase_orders.po_code");
      }
      var po := |purchaseOrders|;
      var line := PurchaseLine(po, item, orderQty, 0.0, AwaitingReceipt);
      assert line in [line];
      PurchaseOrdered(purchaseLines, stock.txns, [line]);
      HeadersOrdered(purchaseOrders, purchaseLines, [PurchaseOrder(supplier, AwaitingReceipt)], [line]);
      purchaseOrders := purchaseOrders + [PurchaseOrder(supplier, AwaitingReceipt)];
      purchaseLines := purchaseLines + [line];
      orderCodes := orderCodes + {code};
      r := Ok(po);
    }

    /** Orders what a BOM is short of, one order for each supplier; `supplier` is the
        preferred supplier of an item and `codes` gives the code of each order in turn. Either
        all orders are created or, where a code is taken, none. */
    method CreatePurchaseOrdersFromShortage(bom: nat, orderQty: real, supplier: Item -> string, codes: nat -> string)
      returns (r: Result<nat>)
      requires Inv()
      modifies this`purchaseOrders, this`purchaseLines, this`orderCodes
      ensures Inv()
      ensures var lines := if bom in boms then boms[bom].lines else [];
              var names := Suppliers(Suggestions(stock, lines, orderQty), supplier);
              && (r.Ok? <==> FreshCodes(old(orderCodes), codes, |names|))
              && (r.Ok? ==> r.value == |names| && orderCodes == old(orderCodes) + FirstCodes(codes, |names|))
      ensures r.Err? ==>
                purchaseOrders == old(purchaseOrders) && purchaseLines == old(purchaseLines)
                  && orderCodes == old(orderCodes)
      ensures r.Ok? ==>
                var lines := if bom in boms then boms[bom].lines else [];
                && purchaseLines == old(purchaseLines) +
                  ShortageLines(stock, lines, orderQty, supplier, |old(purchaseOrders)|)
                && OrdersLacking(purchaseLines[|old(purchaseLines)|..], stock, lines, orderQty)
                && purchaseOrders == old(purchaseOrders) +
                     NewOrders(Suppliers(Suggestions(stock, lines, orderQty), supplier))
    {
      hide StockOk, PurchasesOk, HeadersOk, ProductionOk, MaterialsOk, SalesOk, FinanceOk, Suggestions, Suppliers,
           RowsFor, OrderLines, LinesOf, FreshCodes, FirstCodes;
      var lines := if bom in boms then boms[bom].lines else [];
      var suggestions := Suggest(stock, lines, orderQty);
      var names, grouped := GroupBySupplier(suggestions, supplier);
      var ordersBefore, linesBefore, codesBefore := purchaseOrders, purchaseLines, orderCodes;
      NoOrderLines(suggestions, supplier, |ordersBefore|);
      NoCodes(orderCodes, codes);
      for k := 0 to |names|
        invariant purchaseOrders == ordersBefore + NewOrders(names[..k])
        invariant purchaseLines == linesBefore + OrderLines(suggestions, supplier, names[..k], |ordersBefore|)
        invariant orderCodes == codesBefore + FirstCodes(codes, k) && FreshCodes(codesBefore, codes, k)
      {
        CodesStep(codesBefore, codes, k, |names|);
        if codes(k) in orderCodes {
          purchaseOrders, purchaseLines, orderCodes := ordersBefore, linesBefore, codesBefore;
          return Err("UNIQUE purchase_orders.po_code");
        }
        OrderLinesStep(suggestions, supplier, names, k, |ordersBefore|);
        assert NewOrders(names[..k + 1]) == NewOrders(names[..k]) + [PurchaseOrder(names[k], AwaitingReceipt)];
        var po := |purchaseOrders|;
        purchaseOrders := purchaseOrders + [PurchaseOrder(names[k], AwaitingReceipt)];
        orderCodes := orderCodes + {codes(k)};
        InsertLines(po, grouped[k]);
      }
      assert names[..|names|] == names;
      ShortageBooked(ordersBefore, linesBefore, stock, lines, orderQty, supplier);
      OrdersWhatIsLacking(stock, lines, orderQty, supplier, |ordersBefore|);
      assert purchaseLines[|linesBefore|..] == ShortageLines(stock, lines, orderQty, supplier, |ordersBefore|);
      r := Ok(|names|);
    }

    method InsertLines(po: nat, rows: seq<Suggestion>)
      modifies this`purchaseLines
      ensures purchaseLines == old(purchaseLines) + LinesOf(po, rows)
    {
      for i := 0 to |rows|
        invariant purchaseLines == old(purchaseLines) + LinesOf(po, rows[..i])
      {
        purchaseLines := purchaseLines + [PurchaseLine(po, rows[i].item, rows[i].qty, 0.0, AwaitingReceipt)];
      }
      assert rows[..|rows|] == rows;
    }

    lemma ShortageBooked(orders: seq<PurchaseOrder>, before: seq<PurchaseLine>, s: Stock, lines: seq<BomLine>,
                         orderQty: real, supplier: Item -> string)
      requires PurchasesOk(before, s.txns) && HeadersOk(orders, before)
      ensures var more := ShortageLines(s, lines, orderQty, supplier, |orders|);
              && PurchasesOk(before + more, s.txns)
              && HeadersOk(orders + NewOrders(Suppliers(Suggestions(s, lines, orderQty), supplier)), before + more)
    {
      hide PurchasesOk, HeadersOk, Suggestions, Suppliers, OrderLines;
      var suggestions := Suggestions(s, lines, orderQty);
      var names := Suppliers(suggestions, supplier);
      var more := ShortageLines(s, lines, orderQty, supplier, |orders|);
      ShortageLinesFresh(s, lines, orderQty, supplier, |orders|);
      SuppliersDistinct(suggestions, supplier);
      PurchaseOrdered(before, s.txns, more);
      forall p | |orders| <= p < |orders| + |names|
        ensures HasLine(more, p)
      {
        assert names[p - |orders|] in names;
        OrdersNotEmpty(suggestions, supplier, names, |orders|, p - |orders|);
      }
      HeadersOrdered(orders, before, NewOrders(names), more);
    }

    /** Books a receipt without rounding. */
    method ReceivePurchaseLine(line: nat, qty: real) returns (r: Result<real>)
      requires Inv()
      modifies this`stock, this`purchaseLines, this`purchaseOrders
      ensures Inv()
      ensures r.Ok? <==> line < |old(purchaseLines)| && 0.0 < qty
                         && var l := old(purchaseLines)[line];
                            qty <= l.orderQty - l.receivedQty + 0.000000001
      ensures r.Err? ==>
                stock == old(stock) && purchaseLines == old(purchaseLines) && purchaseOrders == old(purchaseOrders)
      ensures r.Ok? ==>
                && |purchaseLines| == |old(purchaseLines)|
                && (forall k :: 0 <= k < |purchaseLines| && k != line ==> purchaseLines[k] == old(purchaseLines)[k])
                && purchaseLines[line].po == old(purchaseLines)[line].po
                  && purchaseLines[line].item == old(purchaseLines)[line].item
                && purchaseLines[line].orderQty == old(purchaseLines)[line].orderQty
                && purchaseLines[line].receivedQty == r.value == old(purchaseLines)[line].receivedQty + qty
                && stock == Receive(old(stock), purchaseLines[line].item, qty, line)
      ensures r.Ok? ==> |purchaseOrders| == |old(purchaseOrders)| && forall p :: 0 <= p < |purchaseOrders| ==>
                purchaseOrders[p].supplier == old(purchaseOrders)[p].supplier &&
                (p != purchaseLines[line].po ==> purchaseOrders[p] == old(purchaseOrders)[p])
      ensures r.Ok? ==>
                var po := purchaseLines[line].po;
                purchaseOrders[po].status ==
                  if forall l :: l in purchaseLines && l.po == po ==> l.status == FullyReceived
                  then FullyReceived else PartlyReceived
    {
      hide StockOk, PurchasesOk, AllReceived, ProductionOk, MaterialsOk, SalesOk, FinanceOk;
      if line >= |purchaseLines| {
        return Err("采购明细不存在");
      }
      if qty <= 0.0 {
        return Err("收货数量必须大于 0");
      }
      var l := purchaseLines[line];
      if qty > l.orderQty - l.receivedQty + TOLERANCE {
        return Err("收货数量不能超过未收数量");
      }
      var t := Txn(l.item, FromPurchase(line), qty, OnHand(stock, l.item), OnHand(stock, l.item) + qty);
      var received := l.receivedQty + qty;
      var status := if received >= l.orderQty - TOLERANCE then FullyReceived else PartlyReceived;
      ReceiveKeeps(opening, stock, l.item, qty, line);
      PurchaseReceives(purchaseLines, stock.txns, line, qty, t, status);
      ProductionElsewhere(workOrders, reports, stock.txns, t);
      MaterialsElsewhere(workOrders, materials, stock.txns, t);
      SalesElsewhere(salesOrders, shipments, stock.txns, t);
      stock := Receive(stock, l.item, qty, line);
      assert l in purchaseLines;
      var lines := purchaseLines[line := l.(receivedQty := received, status := status)];
      ReceivedExactly(lines, l.po);
      var header := if AllReceived(lines, l.po) then FullyReceived else PartlyReceived;
      HeaderReceives(purchaseOrders, purchaseLines, line, l.(receivedQty := received, status := status), header);
      purchaseLines := lines;
      purchaseOrders := purchaseOrders[l.po := purchaseOrders[l.po].(status := header)];
      r := Ok(received);
    }

    // ---- Production ----------------------------------------------------------------------------

    method CreateWorkOrderFromBom(bom: nat, orderQty: real) returns (r: Result<nat>)
      requires Inv()
      modifies this`workOrders, this`materials, this`items
      ensures Inv()
      ensures r.Ok? <==> bom in boms && orderQty > 0.0 && boms[bom].lines != []
      ensures r.Err? ==> workOrders == old(workOrders) && materials == old(materials) && items == old(items)
      ensures r.Ok? ==>
                && r.value == |old(workOrders)|
                && workOrders == old(workOrders) + [WorkOrder(bom, boms[bom].product, orderQty, 0.0, AwaitingMaterials)]
                && materials == old(materials) + WorkOrderLines(boms[bom].lines, orderQty, r.value)
                && AsksFor(materials[|old(materials)|..], boms[bom].lines, orderQty, r.value)
                && items == old(items) + {"FG-" + boms[bom].product}
    {
      hide StockOk, PurchasesOk, HeadersOk, ProductionOk, MaterialsOk, SalesOk, FinanceOk, RequiredQty, OnGrid, AsksFor;
      if bom !in boms {
        return Err("BOM 不存在");
      }
      if orderQty <= 0.0 {
        return Err("工单数量必须大于 0");
      }
      var lines := boms[bom].lines;
      if lines == [] {
        return Err("BOM 没有明细，不能生成工单");
      }
      var w := |workOrders|;
      var o := WorkOrder(bom, boms[bom].product, orderQty, 0.0, AwaitingMaterials);
      var added: seq<Material> := [];
      for i := 0 to |lines|
        invariant added == WorkOrderLines(lines[..i], orderQty, w)
      {
        added := added + [Material(w, lines[i].item, RequiredQty(lines[i], orderQty), 0.0)];
      }
      assert lines[..|lines|] == lines;
      LinesOnGrid(lines, orderQty, w);
      WorkOrderAsksFor(lines, orderQty, w);
      assert (materials + added)[|materials|..] == added;
      ProductionOpened(workOrders, reports, stock.txns, o);
      MaterialsOpened(workOrders, materials, stock.txns, o, added);
      items := items + {FinishedItem(boms[bom].product)};
      workOrders := workOrders + [o];
      materials := materials + added;
      r := Ok(w);
    }

    /** Issues everything the work order still needs, or nothing. */
    method IssueWorkOrderMaterials(w: nat) returns (r: Result<WorkStatus>)
      requires Inv()
      modifies this`stock, this`materials, this`workOrders
      ensures Inv()
      ensures var needs := Needs(old(materials), w);
              && (r.Ok? <==> w < |old(workOrders)| && HasMaterials(old(materials), w)
                             && NoShortage(old(stock), needs) && Draw(old(stock), needs, w).Ok?)
              && (HasMaterials(old(materials), w) <==> exists m :: m in old(materials) && m.workOrder == w)
              && (NoShortage(old(stock), needs) <==>
                    forall i :: 0 <= i < |needs| ==>
                      needs[i].1 <= OnHand(old(stock), needs[i].0) - Reserved(old(stock), needs[i].0) + 0.000000001)
              && (r.Ok? ==> stock == Draw(old(stock), needs, w).value)
      ensures r.Err? ==> stock == old(stock) && materials == old(materials) && workOrders == old(workOrders)
      ensures r.Ok? ==> materials == MarkIssued(old(materials), w)
      ensures r.Ok? ==> forall m :: m in materials && m.workOrder == w ==> Supplied(m)
      ensures r.Ok? ==> workOrders == old(workOrders)[w := old(workOrders)[w].(status := r.value)]
      ensures r.Ok? ==> r.value == if old(workOrders)[w].completedQty > 0.0 then PartlyDone else InProduction
    {
      hide StockOk, PurchasesOk, HeadersOk, ProductionOk, MaterialsOk, SalesOk, FinanceOk, Remaining, Round6;
      if w >= |workOrders| {
        return Err("生产工单不存在");
      }
      if !HasMaterials(materials, w) {
        return Err("工单没有用料明细");
      }
      if !NoShortage(stock, Needs(materials, w)) {
        return Err("存在缺料");
      }
      var savedStock, savedMaterials := stock, materials;
      var ok := DrawMaterials(w);
      if !ok {
        stock, materials := savedStock, savedMaterials;
        return Err("库存不足");
      }
      var status := if workOrders[w].completedQty > 0.0 then PartlyDone else InProduction;
      AllSupplied(old(materials), w, workOrders, stock.txns);
      ProductionRestated(workOrders, reports, stock.txns, w, status);
      MaterialsFollow(workOrders, materials, stock.txns, w, workOrders[w].(status := status));
      workOrders := workOrders[w := workOrders[w].(status := status)];
      r := Ok(status);
    }

    /** The issuing loop; it may stop halfway. */
    method DrawMaterials(w: nat) returns (ok: bool)
      requires Inv()
      modifies this`stock, this`materials
      ensures Inv()
      ensures ok <==> Draw(old(stock), Needs(old(materials), w), w).Ok?
      ensures ok ==> stock == Draw(old(stock), Needs(old(materials), w), w).value
      ensures ok ==> materials == MarkIssued(old(materials), w)
    {
      hide StockOk, PurchasesOk, HeadersOk, ProductionOk, MaterialsOk, SalesOk, FinanceOk, Remaining, Round6,
           ChangeInventory, OnHand, Draw, Needs, MarkIssued;
      var rows := materials;
      assert rows[0..] == rows;
      for i := 0 to |rows|
        invariant Inv() && |materials| == |rows| && materials[i..] == rows[i..]
        invariant Draw(old(stock), Needs(rows, w), w) == Draw(stock, Needs(rows[i..], w), w)
        invariant materials[..i] + MarkIssued(rows[i..], w) == MarkIssued(rows, w)
      {
        var m := rows[i];
        assert materials[i] == materials[i..][0] == rows[i..][0] == m;
        DrawSplits(stock, rows, i, w);
        if m.workOrder == w && Remaining(m) > 0.0 {
          var changed := ChangeInventory(stock, m.item, -Remaining(m), FromIssue(w));
          if changed.Err? {
            return false;
          }
          LineIssued(i, w, changed.value);
          stock := changed.value;
          materials := materials[i := m.(issuedQty := m.requiredQty)];
        }
        assert materials[i + 1..] == rows[i + 1..];
        assert materials[..i + 1] == materials[..i] + [materials[i]];
      }
      DrawEnds(stock, rows, w);
      ok := true;
    }

    lemma LineIssued(i: nat, w: nat, changed: Stock)
      requires Inv() && i < |materials| && materials[i].workOrder == w && Remaining(materials[i]) > 0.0
      requires ChangeInventory(stock, materials[i].item, -Remaining(materials[i]), FromIssue(w)) == Ok(changed)
      ensures StockOk(opening, changed)
      ensures PurchasesOk(purchaseLines, changed.txns)
      ensures ProductionOk(workOrders, reports, changed.txns)
      ensures MaterialsOk(workOrders, materials[i := materials[i].(issuedQty := materials[i].requiredQty)],
          changed.txns)
      ensures SalesOk(salesOrders, shipments, changed.txns)
    {
      hide StockOk, PurchasesOk, HeadersOk, ProductionOk, SalesOk, FinanceOk, Round6;
      var m := materials[i];
      assert m in materials;
      RemainingIs(m);
      var t := changed.txns[|stock.txns|];
      ChangeKeeps(opening, stock, m.item, -Remaining(m), FromIssue(w));
      PurchasesElsewhere(purchaseLines, stock.txns, t);
      ProductionElsewhere(workOrders, reports, stock.txns, t);
      MaterialIssued(workOrders, materials, stock.txns, i, t);
      SalesElsewhere(salesOrders, shipments, stock.txns, t);
    }

    /** Reports finished goods of a fully supplied work order. */
    method CompleteWorkOrder(w: nat, good: real, scrap: real) returns (r: Result<real>)
      requires Inv()
      modifies this`stock, this`workOrders, this`reports, this`items
      ensures Inv()
      ensures r.Ok? <==>
                && w < |old(workOrders)| && good > 0.0 && scrap >= 0.0
                && good <= old(workOrders)[w].orderQty - old(workOrders)[w].completedQty + 0.000000001
                && (forall m :: m in materials && m.workOrder == w ==> Supplied(m))
      ensures r.Err? ==>
                stock == old(stock) && workOrders == old(workOrders) && reports == old(reports) && items == old(items)
      ensures r.Ok? ==>
                var o, item := old(workOrders)[w], "FG-" + old(workOrders)[w].product;
                && reports == old(reports) + [Entry(w, good)]
                && stock == Put(old(stock), item, good, FromCompletion(w), OnHand(stock, item))
                && OnHand(stock, item) == Round6(OnHand(old(stock), item) + good)
                && r.value == Round6(o.completedQty + good)
                && workOrders == old(workOrders)[w := o.(completedQty := r.value,
                     status := if r.value >= o.orderQty - 0.000000001 then Done else PartlyDone)]
                && items == old(items) + {item}
    {
      hide StockOk, PurchasesOk, HeadersOk, ProductionOk, SalesOk, FinanceOk, Round6;
      if w >= |workOrders| {
        return Err("生产工单不存在");
      }
      if good <= 0.0 {
        return Err("完工数量必须大于 0");
      }
      if scrap < 0.0 {
        return Err("报废数量不能小于 0");
      }
      var o := workOrders[w];
      if good > o.orderQty - o.completedQty + TOLERANCE {
        return Err("完工数量不能超过工单未完工数量");
      }
      SuppliedExactly(materials);
      if exists i :: 0 <= i < |materials| && materials[i].workOrder == w
          && materials[i].issuedQty + TOLERANCE < materials[i].requiredQty {
        return Err("请先完成工单领料");
      }
      forall m | m in materials && m.workOrder == w
        ensures Supplied(m)
      {
        var i :| 0 <= i < |materials| && materials[i] == m;
      }
      var item := FinishedItem(o.product);
      var completed := Round6(o.completedQty + good);
      var status := if completed >= o.orderQty - TOLERANCE then Done else PartlyDone;
      var t := Txn(item, FromCompletion(w), good, OnHand(stock, item), Round6(OnHand(stock, item) + good));
      Completed(w, good, item, t, status);
      var changed := ChangeInventory(stock, item, good, FromCompletion(w));
      items := items + {item};
      stock := changed.value;
      reports := reports + [Entry(w, good)];
      workOrders := workOrders[w := o.(completedQty := completed, status := status)];
      r := Ok(completed);
    }

    lemma Completed(w: nat, good: real, item: Item, t: Txn, status: WorkStatus)
      requires Inv() && w < |workOrders|
          && 0.0 < good <= workOrders[w].orderQty - workOrders[w].completedQty + TOLERANCE
      requires forall m :: m in materials && m.workOrder == w ==> Supplied(m)
      requires t == Txn(item, FromCompletion(w), good, OnHand(stock, item), Round6(OnHand(stock, item) + good))
      requires status.Done? ==> Round6(workOrders[w].completedQty + good) >= workOrders[w].orderQty - TOLERANCE
      ensures var r := ChangeInventory(stock, item, good, FromCompletion(w));
              && r == Ok(Put(stock, item, good, FromCompletion(w), t.after))
              && StockOk(opening, r.value) && r.value.txns == stock.txns + [t]
      ensures var after := workOrders[w :=
          workOrders[w].(completedQty := Round6(workOrders[w].completedQty + good), status := status)];
              && ProductionOk(after, reports + [Entry(w, good)], stock.txns + [t])
              && MaterialsOk(after, materials, stock.txns + [t])
      ensures PurchasesOk(purchaseLines, stock.txns + [t]) && SalesOk(salesOrders, shipments, stock.txns + [t])
    {
      hide StockOk, PurchasesOk, HeadersOk, ProductionOk, MaterialsOk, SalesOk, FinanceOk, Round6, Supplied;
      BalanceNotNegative(opening, stock, item);
      NotNegative(OnHand(stock, item) + good);
      ChangeKeeps(opening, stock, item, good, FromCompletion(w));
      PurchasesElsewhere(purchaseLines, stock.txns, t);
      ProductionReported(workOrders, reports, stock.txns, w, good, t, status);
      MaterialsElsewhere(workOrders, materials, stock.txns, t);
      MaterialsFollow(workOrders, materials, stock.txns + [t], w,
                      workOrders[w].(completedQty := Round6(workOrders[w].completedQty + good), status := status));
      SalesElsewhere(salesOrders, shipments, stock.txns, t);
    }

    // ---- Sales -----------------------------------------------------------------------------------

    /** An order for a known product and a named customer; a linked BOM or work order must be
        of the same product. */
    method CreateSalesOrder(product: string, customer: string, orderQty: real, linkedBom: Option<nat>,
                            linkedOrder: Option<nat>, status: string, code: string)
      returns (r: Result<nat>)
      requires Inv()
      modifies this`salesOrders, this`saleCodes
      ensures Inv()
      ensures r.Ok? <==>
                && product != "" && product in products && customer != "" && orderQty > 0.0
                && (linkedBom.Some? ==> linkedBom.value in boms && boms[linkedBom.value].product == product)
                && (linkedOrder.Some? ==>
                  linkedOrder.value < |workOrders| && workOrders[linkedOrder.value].product == product)
                && code !in old(saleCodes)
      ensures r.Err? ==> salesOrders == old(salesOrders) && saleCodes == old(saleCodes)
      ensures r.Ok? ==> r.value == |old(salesOrders)| && saleCodes == old(saleCodes) + {code}
      ensures r.Ok? ==> salesOrders == old(salesOrders) +
                          [SalesOrder(product, orderQty, 0.0, Stated(if status == "" then "待生产" else status))]
    {
      hide StockOk, PurchasesOk, HeadersOk, ProductionOk, MaterialsOk, SalesOk, FinanceOk;
      if product == "" {
        return Err("产品不能为空");
      }
      if product !in products {
        return Err("产品不存在，请先建立产品工程卡");
      }
      if customer == "" {
        return Err("客户不能为空");
      }
      if orderQty <= 0.0 {
        return Err("订单数量必须大于 0");
      }
      if linkedBom.Some? && (linkedBom.value !in boms || boms[linkedBom.value].product != product) {
        return Err("选择的 BOM 不属于该产品");
      }
      if linkedOrder.Some? && (linkedOrder.value >= |workOrders| || workOrders[linkedOrder.value].product != product) {
        return Err("选择的生产工单不属于该产品");
      }
      if code in saleCodes {
        return Err("UNIQUE sales_orders.sales_order_code");
      }
      var o := SalesOrder(product, orderQty, 0.0, Stated(if status == "" then "待生产" else status));
      SaleOpened(salesOrders, shipments, stock.txns, o);
      r := Ok(|salesOrders|);
      salesOrders := salesOrders + [o];
      saleCodes := saleCodes + {code};
    }

    /** Ships finished goods that are on hand. */
    method ShipSalesOrder(i: nat, qty: real) returns (r: Result<real>)
      requires Inv()
      modifies this`stock, this`salesOrders, this`shipments, this`items
      ensures Inv()
      ensures r.Ok? <==>
                && i < |old(salesOrders)| && qty > 0.0
                && qty <= old(salesOrders)[i].orderQty - old(salesOrders)[i].shippedQty + 0.000000001
                && Round6(OnHand(old(stock), "FG-" + old(salesOrders)[i].product) - qty) >= 0.0
      ensures r.Err? ==>
                && stock == old(stock) && items == old(items)
                && salesOrders == old(salesOrders) && shipments == old(shipments)
      ensures r.Ok? ==>
                var o, item := old(salesOrders)[i], "FG-" + old(salesOrders)[i].product;
                && shipments == old(shipments) + [Entry(i, qty)]
                && stock == Put(old(stock), item, -qty, FromShipment(i), OnHand(stock, item))
                && OnHand(stock, item) == Round6(OnHand(old(stock), item) - qty)
                && r.value == Round6(o.shippedQty + qty)
                && salesOrders == old(salesOrders)[i := o.(shippedQty := r.value,
                     status := if r.value >= o.orderQty - 0.000000001 then FullyShipped else PartlyShipped)]
                && items == old(items) + {item}
    {
      hide StockOk, PurchasesOk, HeadersOk, ProductionOk, MaterialsOk, SalesOk, FinanceOk, Round6;
      if i >= |salesOrders| {
        return Err("销售订单不存在");
      }
      if qty <= 0.0 {
        return Err("出货数量必须大于 0");
      }
      var o := salesOrders[i];
      if qty > o.orderQty - o.shippedQty + TOLERANCE {
        return Err("出货数量不能超过未出货数量");
      }
      var item := FinishedItem(o.product);
      ChangeKeeps(opening, stock, item, -qty, FromShipment(i));
      var changed := ChangeInventory(stock, item, -qty, FromShipment(i));
      if changed.Err? {
        return Err("库存不足");
      }
      var shipped := Round6(o.shippedQty + qty);
      var status := if shipped >= o.orderQty - TOLERANCE then FullyShipped else PartlyShipped;
      var t := Txn(item, FromShipment(i), -qty, OnHand(stock, item), Round6(OnHand(stock, item) - qty));
      PurchasesElsewhere(purchaseLines, stock.txns, t);
      ProductionElsewhere(workOrders, reports, stock.txns, t);
      MaterialsElsewhere(workOrders, materials, stock.txns, t);
      SaleShipped(salesOrders, shipments, stock.txns, i, qty, t, status);
      items := items + {item};
      stock := changed.value;
      shipments := shipments + [Entry(i, qty)];
      salesOrders := salesOrders[i := o.(shippedQty := shipped, status := status)];
      r := Ok(shipped);
    }

    // ---- Finance ---------------------------------------------------------------------------------

    /** A receivable or payable of a positive amount, one for each document it comes from. */
    method CreateFinancialDocument(docType: string, total: real, sourceType: string, sourceId: int, code: string)
      returns (r: Result<nat>)
      requires Inv()
      modifies this`documents, this`documentCodes
      ensures Inv()
      ensures var kind := if docType == "应收" then Receivable else Payable;
              var source := SourceDocument(sourceType, sourceId);
              && (r.Ok? <==>
                    && docType in {"应收", "应付"} && total > 0.0 && sourceType != "" && sourceId != 0
                    && (forall d :: d in old(documents) ==> d.kind != kind || d.source != source)
                    && code !in old(documentCodes))
              && (r.Ok? ==> documents == old(documents) + [Document(kind, source, total, 0.0, Unsettled)])
      ensures r.Err? ==> documents == old(documents) && documentCodes == old(documentCodes)
      ensures r.Ok? ==> r.value == |old(documents)| && documentCodes == old(documentCodes) + {code}
    {
      hide StockOk, PurchasesOk, HeadersOk, ProductionOk, MaterialsOk, SalesOk, FinanceOk;
      if docType !in {"应收", "应付"} {
        return Err("财务单据类型必须是应收或应付");
      }
      if total <= 0.0 {
        return Err("金额必须大于 0");
      }
      if sourceType == "" || sourceId == 0 {
        return Err("缺少来源单据");
      }
      var d := Document(KindOf(docType), SourceDocument(sourceType, sourceId), total, 0.0, Unsettled);
      if HasDocument(documents, d.kind, d.source) || code in documentCodes {
        return Err("UNIQUE financial_documents");
      }
      DocumentOpened(documents, payments, d);
      r := Ok(|documents|);
      documents := documents + [d];
      documentCodes := documentCodes + {code};
    }

    lemma PaidInCents(doc: nat)
      requires FinanceOk(documents, payments) && doc < |documents|
      ensures OnCents(documents[doc].paid)
    {
    }

    /** Registers a payment of the document's own kind. */
    method CreateFinancialPayment(doc: nat, kind: DocumentKind, amount: real, code: string) returns (r: Result<real>)
      requires Inv()
      modifies this`documents, this`payments, this`paymentCodes
      ensures Inv()
      ensures r.Ok? <==>
                && doc < |old(documents)| && kind == old(documents)[doc].kind && amount > 0.0
                && amount <= old(documents)[doc].total - old(documents)[doc].paid + 0.000000001
                && code !in old(paymentCodes)
      ensures r.Err? ==> documents == old(documents) && payments == old(payments) && paymentCodes == old(paymentCodes)
      ensures r.Ok? ==> paymentCodes == old(paymentCodes) + {code}
      ensures r.Ok? ==>
                var d := old(documents)[doc];
                && payments == old(payments) + [Entry(doc, amount)]
                && r.value == Round2(d.paid + amount)
                && documents == old(documents)[doc := d.(paid := r.value,
                     status := if r.value <= 0.0 then Unsettled
                               else if r.value >= d.total - 0.000000001 then Settled else PartlySettled)]
                && (r.value == d.paid + amount <==> OnCents(amount))
                && (r.value == d.paid <==> amount < 0.005 || (amount == 0.005 && Cents(d.paid) % 2 == 0))
    {
      hide StockOk, PurchasesOk, HeadersOk, ProductionOk, MaterialsOk, SalesOk, Round2, OnCents, PaidProgress, Cents;
      if doc >= |documents| {
        return Err("财务单据不存在");
      }
      var d := documents[doc];
      if kind != d.kind {
        return Err("单据类型与收付款类型不符");
      }
      if amount <= 0.0 {
        return Err("收付款金额必须大于 0");
      }
      if amount > d.total - d.paid + TOLERANCE {
        return Err("收付款金额不能超过未结余额");
      }
      if code in paymentCodes {
        return Err("UNIQUE financial_payments.payment_code");
      }
      PaidAdvances(d.paid, d.total, payments, doc, amount);
      PaidInCents(doc);
      VanishesExactly(d.paid, amount);
      DocumentPaid(documents, payments, doc, amount);
      var paid := Round2(d.paid + amount);
      payments := payments + [Entry(doc, amount)];
      paymentCodes := paymentCodes + {code};
      documents := documents[doc := d.(paid := paid, status := DocStatus(d.total, paid))];
      r := Ok(paid);
    }
  }

  // ---- Lemmas about single calls ---------------------------------------------------------------

  /** An old balance of half a grid step and a count of one step: two ties to the even side. */
  lemma CountCanMiss()
    ensures Round6(0.0000005 + Round6(0.000001 - 0.0000005)) != 0.000001 && OnGrid(0.000001)
    ensures Midway(0.0000005) && Steps(0.000001) % 2 == 1
  {
  }
}
