/** The order, report and payment tables and what every reachable database satisfies:
    progress figures against their rows, and rows against the stock ledger. */
module ErpTables {
  import opened Rounding
  import opened ErpStock

  datatype LineStatus = AwaitingReceipt | PartlyReceived | FullyReceived

  datatype PurchaseOrder = PurchaseOrder(supplier: string, status: LineStatus)

  datatype PurchaseLine = PurchaseLine(po: nat, item: Item, orderQty: real, receivedQty: real, status: LineStatus)

  /** 待领料, 生产中, 部分完工, 已完工 */
  datatype WorkStatus = AwaitingMaterials | InProduction | PartlyDone | Done

  datatype WorkOrder = WorkOrder(bom: nat, product: string, orderQty: real, completedQty: real, status: WorkStatus)

  datatype Material = Material(workOrder: nat, item: Item, requiredQty: real, issuedQty: real)

  /** A sales order starts with whatever status its form says. */
  datatype SalesStatus = Stated(text: string) | PartlyShipped | FullyShipped

  datatype SalesOrder = SalesOrder(product: string, orderQty: real, shippedQty: real, status: SalesStatus)

  datatype DocumentKind = Receivable | Payable

  datatype DocumentStatus = Unsettled | PartlySettled | Settled

  /** The document that a receivable or payable settles. */
  datatype SourceDocument = SourceDocument(sourceType: string, id: int)

  datatype Document = Document(kind: DocumentKind, source: SourceDocument, total: real, paid: real,
    status: DocumentStatus)

  /** A production report, a shipment or a payment: its order or document, and how much. */
  datatype Entry = Entry(owner: nat, qty: real)

  datatype BomLine = BomLine(item: Item, qtyPer: real, lossRate: real)

  datatype Bom = Bom(product: string, lines: seq<BomLine>)

  function FinishedItem(product: string): Item {
    "FG-" + product
  }

  function RequiredQty(line: BomLine, orderQty: real): real {
    Round6(line.qtyPer * orderQty * (1.0 + line.lossRate))
  }

  function DocStatus(total: real, paid: real): DocumentStatus {
    if paid <= 0.0 then Unsettled
    else if paid >= total - TOLERANCE then Settled
    else PartlySettled
  }

  // ---- Sums --------------------------------------------------------------------------------

  ghost function Total(entries: seq<Entry>, owner: nat): real {
    if entries == [] then 0.0
    else Total(entries[..|entries| - 1], owner) +
         (if entries[|entries| - 1].owner == owner then entries[|entries| - 1].qty else 0.0)
  }

  ghost function Count(entries: seq<Entry>, owner: nat): nat {
    if entries == [] then 0
    else Count(entries[..|entries| - 1], owner) + (if entries[|entries| - 1].owner == owner then 1 else 0)
  }

  ghost function IssuedTotal(materials: seq<Material>, w: nat, item: Item): real {
    if materials == [] then 0.0
    else
      var m := materials[|materials| - 1];
      IssuedTotal(materials[..|materials| - 1], w, item) +
        (if m.workOrder == w && m.item == item then m.issuedQty else 0.0)
  }

  lemma TotalGrows(entries: seq<Entry>, e: Entry)
    ensures forall owner ::
        Total(entries + [e], owner) == Total(entries, owner) + (if e.owner == owner then e.qty else 0.0)
    ensures forall owner :: Count(entries + [e], owner) == Count(entries, owner) + (if e.owner == owner then 1 else 0)
  {
    assert (entries + [e])[..|entries|] == entries;
  }

  lemma {:induction false} IssuedAppend(materials: seq<Material>, more: seq<Material>, w: nat, item: Item)
    requires forall m :: m in more ==> m.issuedQty == 0.0
    ensures IssuedTotal(materials + more, w, item) == IssuedTotal(materials, w, item)
    decreases |more|
  {
    if more == [] {
      assert materials + more == materials;
    } else {
      var n := |more| - 1;
      assert (materials + more)[..|materials + more| - 1] == materials + more[..n];
      IssuedAppend(materials, more[..n], w, item);
      assert more[n] in more;
    }
  }

  /** Issuing one line changes one sum by that line's quantity. */
  lemma {:induction false} IssuedUpdate(materials: seq<Material>, i: nat, qty: real, w: nat, item: Item)
    requires i < |materials| && materials[i].issuedQty == 0.0
    ensures IssuedTotal(materials[i := materials[i].(issuedQty := qty)], w, item) ==
            IssuedTotal(materials, w, item) +
              (if materials[i].workOrder == w && materials[i].item == item then qty else 0.0)
    decreases |materials|
  {
    var n := |materials| - 1;
    var after := materials[i := materials[i].(issuedQty := qty)];
    if i < n {
      assert after[..n] == materials[..n][i := materials[i].(issuedQty := qty)];
      IssuedUpdate(materials[..n], i, qty, w, item);
    } else {
      assert after[..n] == materials[..n];
    }
  }

  // ---- Progress against its rows --------------------------------------------------------------

  /** A quantity booked step by step with `round(…, 6)` against an ordered quantity. */
  ghost predicate Progress(done: real, order: real, entries: seq<Entry>, owner: nat) {
    && OnGrid(done)
    && 0.0 <= done <= Round6(order + TOLERANCE)
    && done - Total(entries, owner) <= 0.0000005 * Count(entries, owner) as real
    && Total(entries, owner) - done <= 0.0000005 * Count(entries, owner) as real
    && ((forall e :: e in entries && e.owner == owner ==> OnGrid(e.qty)) ==> done == Total(entries, owner))
    && (forall e :: e in entries && e.owner == owner ==> e.qty > 0.0)
  }

  /** The same for money at two decimals. */
  ghost predicate PaidProgress(paid: real, total: real, payments: seq<Entry>, doc: nat) {
    && OnCents(paid)
    && 0.0 <= paid <= Round2(total + TOLERANCE)
    && paid - Total(payments, doc) <= 0.005 * Count(payments, doc) as real
    && Total(payments, doc) - paid <= 0.005 * Count(payments, doc) as real
    && ((forall e :: e in payments && e.owner == doc ==> OnCents(e.qty)) ==> paid == Total(payments, doc))
    && (forall e :: e in payments && e.owner == doc ==> e.qty > 0.0)
  }

  lemma NoRows(entries: seq<Entry>, owner: nat)
    requires forall e :: e in entries ==> e.owner != owner
    ensures Total(entries, owner) == 0.0 && Count(entries, owner) == 0
  {
    if entries != [] {
      assert entries[|entries| - 1] in entries;
      NoRows(entries[..|entries| - 1], owner);
    }
  }

  lemma ProgressStarts(order: real, entries: seq<Entry>, owner: nat)
    requires order > 0.0 && forall e :: e in entries ==> e.owner != owner
    ensures Progress(0.0, order, entries, owner)
  {
    NoRows(entries, owner);
    Round6Monotone(0.0, order + TOLERANCE);
    Round6Facts(0.0);
  }

  lemma ProgressElsewhere(done: real, order: real, entries: seq<Entry>, owner: nat, e: Entry)
    requires Progress(done, order, entries, owner) && e.owner != owner
    ensures Progress(done, order, entries + [e], owner)
  {
    hide OnGrid, Round6;
    TotalGrows(entries, e);
    assert forall x :: x in entries ==> x in entries + [e];
  }

  /** Booking a row that fits the remaining quantity. */
  lemma ProgressAdvances(done: real, order: real, entries: seq<Entry>, owner: nat, qty: real)
    requires Progress(done, order, entries, owner) && 0.0 < qty <= order - done + TOLERANCE
    ensures Progress(Round6(done + qty), order, entries + [Entry(owner, qty)], owner)
    ensures OnGrid(qty) ==> Round6(done + qty) == done + qty
  {
    hide OnGrid, Round6;
    var e := Entry(owner, qty);
    TotalGrows(entries, e);
    Round6Facts(done + qty);
    Round6Facts(done);
    Round6Monotone(done, done + qty);
    Round6Monotone(done + qty, order + TOLERANCE);
    GridSums(done, qty);
    assert e in entries + [e] && forall x :: x in entries ==> x in entries + [e];
  }

  lemma PaidStarts(total: real, payments: seq<Entry>, doc: nat)
    requires total > 0.0 && forall e :: e in payments ==> e.owner != doc
    ensures PaidProgress(0.0, total, payments, doc)
  {
    NoRows(payments, doc);
    Round2Monotone(0.0, total + TOLERANCE);
    Round2Facts(0.0);
  }

  lemma PaidElsewhere(paid: real, total: real, payments: seq<Entry>, doc: nat, e: Entry)
    requires PaidProgress(paid, total, payments, doc) && e.owner != doc
    ensures PaidProgress(paid, total, payments + [e], doc)
  {
    hide OnCents, Round2;
    TotalGrows(payments, e);
    assert forall x :: x in payments ==> x in payments + [e];
  }

  lemma PaidAdvances(paid: real, total: real, payments: seq<Entry>, doc: nat, qty: real)
    requires PaidProgress(paid, total, payments, doc) && 0.0 < qty <= total - paid + TOLERANCE
    ensures PaidProgress(Round2(paid + qty), total, payments + [Entry(doc, qty)], doc)
    ensures Round2(paid + qty) == paid + qty <==> OnCents(qty)
  {
    hide OnCents, Round2;
    var e := Entry(doc, qty);
    TotalGrows(payments, e);
    Round2Facts(paid + qty);
    Round2Facts(paid);
    Round2Monotone(paid, paid + qty);
    Round2Monotone(paid + qty, total + TOLERANCE);
    CentSums(paid, qty);
    assert e in payments + [e] && forall x :: x in payments ==> x in payments + [e];
  }

  /** Rounding absorbs the tolerance above a grid value. */
  lemma JustAbove(x: real)
    requires OnGrid(x)
    ensures Round6(x + TOLERANCE) == x
  {
    HalfEvenNearest((x + TOLERANCE) * 1000000.0, (x * 1000000.0).Floor);
  }

  /** With the ordered quantity on the grid the order is never exceeded. */
  lemma ProgressBounded(done: real, order: real, entries: seq<Entry>, owner: nat)
    requires Progress(done, order, entries, owner)
    ensures done <= order + TOLERANCE + 0.0000005
    ensures OnGrid(order) ==> done <= order
    ensures OnGrid(order) && done >= order - TOLERANCE ==> done == order
  {
    hide OnGrid, Round6;
    Round6Facts(order + TOLERANCE);
    if OnGrid(order) {
      ToleranceIsFine(order, done);
      JustAbove(order);
    }
  }

  lemma JustAboveCents(x: real)
    requires OnCents(x)
    ensures Round2(x + TOLERANCE) == x
  {
    HalfEvenNearest((x + TOLERANCE) * 100.0, (x * 100.0).Floor);
  }

  /** With a total in whole cents the document is never overpaid; then it counts as settled
      exactly when it is paid in full. */
  lemma PaidBounded(paid: real, total: real, payments: seq<Entry>, doc: nat)
    requires PaidProgress(paid, total, payments, doc) && OnCents(total) && total > 0.0
    ensures paid <= total
    ensures DocStatus(total, paid).Settled? <==> paid == total
    ensures DocStatus(total, paid).Unsettled? <==> paid == 0.0
  {
    hide OnCents, Round2;
    JustAboveCents(total);
    ToleranceIsFineCents(total, paid);
  }

  /** A payment leaves the paid amount where it was exactly when it is below half a cent, or
      half a cent onto an even one. */
  lemma VanishesExactly(paid: real, amount: real)
    requires OnCents(paid) && amount > 0.0
    ensures Round2(paid + amount) == paid <==> amount < 0.005 || (amount == 0.005 && Cents(paid) % 2 == 0)
  {
    HalfEvenNearest((paid + amount) * 100.0, Cents(paid));
    assert paid * 100.0 == Cents(paid) as real;
  }

  /** The balance check of a payment. */
  ghost predicate WithinBalance(paid: real, total: real, amount: real) {
    0.0 < amount <= total - paid + TOLERANCE
  }

  /** The payment is recorded and reduces nothing. */
  ghost predicate Vanishes(paid: real, amount: real) {
    amount > 0.0 && Round2(paid + amount) == paid
  }

  ghost function MaxOf(x: real, y: real): real {
    if x > y then x else y
  }

  lemma CentsApart(x: real, y: real)
    requires OnCents(x) && OnCents(y)
    ensures x < y <==> x + 0.01 <= y
  {
    if x < y {
      assert Cents(x) < Cents(y);
    }
  }

  /** Every such payment passes the balance check exactly while at least half a cent, up to the
      tolerance, is still to pay; with a total in whole cents, while anything is. */
  lemma VanishingAccepted(paid: real, total: real)
    requires OnCents(paid)
    ensures (forall amount :: Vanishes(paid, amount) ==> WithinBalance(paid, total, amount)) <==>
            total - paid + TOLERANCE >= 0.005
    ensures OnCents(total) ==> (total - paid + TOLERANCE >= 0.005 <==> paid < total)
  {
    hide Round2, Cents;
    forall amount
      ensures Vanishes(paid, amount) <==> 0.0 < amount < 0.005 || (amount == 0.005 && Cents(paid) % 2 == 0)
    {
      if amount > 0.0 {
        VanishesExactly(paid, amount);
      }
    }
    var room := total - paid + TOLERANCE;
    if room < 0.005 {
      var amount := (MaxOf(room, 0.0) + 0.005) / 2.0;
      assert Vanishes(paid, amount) && !WithinBalance(paid, total, amount);
    }
    if OnCents(total) {
      CentsApart(paid, total);
    }
  }

  /** Some payment within the balance takes the paid amount past the total exactly when the
      total, rounded to cents, lies above it: for every total and amount paid before. */
  lemma OverpaidExactly(paid: real, total: real)
    requires OnCents(paid) && paid <= total
    ensures (exists amount :: WithinBalance(paid, total, amount) && Round2(paid + amount) > total) <==>
            Round2(total + TOLERANCE) > total
  {
    hide Round2, OnCents;
    var all := total - paid + TOLERANCE;
    assert paid + all == total + TOLERANCE;
    assert WithinBalance(paid, total, all);
    if amount :| WithinBalance(paid, total, amount) && Round2(paid + amount) > total {
      Round2Monotone(paid + amount, total + TOLERANCE);
    }
  }

  /** Some payment within the balance settles the document exactly when the total, rounded to
      cents, reaches it up to the tolerance and is not zero. */
  lemma SettlesExactly(paid: real, total: real)
    requires OnCents(paid) && paid <= total
    ensures (exists amount ::
               WithinBalance(paid, total, amount) && DocStatus(total, Round2(paid + amount)).Settled?) <==>
            Round2(total + TOLERANCE) >= total - TOLERANCE && Round2(total + TOLERANCE) > 0.0
  {
    hide Round2, OnCents;
    var all := total - paid + TOLERANCE;
    assert paid + all == total + TOLERANCE;
    assert WithinBalance(paid, total, all);
    if amount :| WithinBalance(paid, total, amount) && DocStatus(total, Round2(paid + amount)).Settled? {
      Round2Monotone(paid + amount, total + TOLERANCE);
    }
  }

  /** Inputs off whole cents: 1.006 is paid with 1.01, and 1.004 is never settled. */
  lemma OffCents()
    ensures Round2(1.006 + TOLERANCE) == 1.01 && Round2(1.004 + TOLERANCE) == 1.0
  {
    HalfEvenNearest((1.006 + TOLERANCE) * 100.0, 101);
    HalfEvenNearest((1.004 + TOLERANCE) * 100.0, 100);
  }

  /** A first payment of 0.004 on a total of 1.00 is accepted and pays nothing. */
  lemma TinyPaymentVanishes()
    ensures 0.004 <= 1.0 - 0.0 + TOLERANCE && Round2(0.0 + 0.004) == 0.0
  {
  }

  // ---- Tables against the ledger ----------------------------------------------------------------

  ghost predicate LineOk(l: PurchaseLine, i: nat, txns: seq<Txn>) {
    && l.receivedQty == Flow(txns, FromPurchase(i))
    && l.receivedQty >= 0.0
    && (l.receivedQty > 0.0 ==> l.receivedQty <= l.orderQty + TOLERANCE)
    && (l.status.FullyReceived? ==> l.receivedQty >= l.orderQty - TOLERANCE)
    && (l.status.PartlyReceived? ==> l.receivedQty < l.orderQty - TOLERANCE)
    && (l.status.AwaitingReceipt? ==> l.receivedQty == 0.0)
  }

  /** Each purchase line has received exactly what the ledger booked from it. */
  ghost predicate PurchasesOk(lines: seq<PurchaseLine>, txns: seq<Txn>) {
    && (forall i :: 0 <= i < |lines| ==> LineOk(lines[i], i, txns))
    && (forall i: nat :: |lines| <= i ==> Flow(txns, FromPurchase(i)) == 0.0)
  }

  /** Nothing on this order is still to come. */
  predicate AllReceived(lines: seq<PurchaseLine>, po: nat) {
    forall i :: 0 <= i < |lines| && lines[i].po == po ==> lines[i].status.FullyReceived?
  }

  /** An order counts as received exactly when all of its lines do. */
  ghost predicate HeadersOk(orders: seq<PurchaseOrder>, lines: seq<PurchaseLine>) {
    && (forall l :: l in lines ==> l.po < |orders|)
    && (forall p :: 0 <= p < |orders| ==> (orders[p].status.FullyReceived? <==> AllReceived(lines, p)))
  }

  ghost predicate OrderOk(o: WorkOrder, w: nat, reports: seq<Entry>, txns: seq<Txn>) {
    && o.orderQty > 0.0
    && Progress(o.completedQty, o.orderQty, reports, w)
    && Total(reports, w) == Flow(txns, FromCompletion(w))
    && (o.status.Done? ==> o.completedQty >= o.orderQty - TOLERANCE)
  }

  /** Each work order's completed quantity follows its reports, and these the ledger. */
  ghost predicate ProductionOk(orders: seq<WorkOrder>, reports: seq<Entry>, txns: seq<Txn>) {
    && (forall w :: 0 <= w < |orders| ==> OrderOk(orders[w], w, reports, txns))
    && (forall e :: e in reports ==> e.owner < |orders|)
    && (forall w: nat :: |orders| <= w ==> Flow(txns, FromCompletion(w)) == 0.0)
  }

  /** A material line is issued in full or not at all. */
  predicate MaterialOk(m: Material) {
    OnGrid(m.requiredQty) && (m.issuedQty == 0.0 || (m.issuedQty == m.requiredQty && m.requiredQty > 0.0))
  }

  /** Nothing is left to issue on this line. */
  predicate Supplied(m: Material) {
    m.issuedQty == m.requiredQty || m.requiredQty <= 0.0
  }

  /** What work orders were issued is what left the stock for them; production starts only
      after everything was issued. */
  ghost predicate MaterialsOk(orders: seq<WorkOrder>, materials: seq<Material>, txns: seq<Txn>) {
    && (forall m :: m in materials ==> m.workOrder < |orders| && MaterialOk(m))
    && (forall w: nat, item :: IssuedTotal(materials, w, item) == -FlowOf(txns, FromIssue(w), item))
    && (forall m :: m in materials && m.workOrder < |orders| && orders[m.workOrder].completedQty > 0.0 ==> Supplied(m))
  }

  ghost predicate SaleOk(o: SalesOrder, i: nat, shipments: seq<Entry>, txns: seq<Txn>) {
    && o.orderQty > 0.0
    && Progress(o.shippedQty, o.orderQty, shipments, i)
    && Total(shipments, i) == -Flow(txns, FromShipment(i))
  }

  /** Each sales order's shipped quantity follows its shipments, and these the ledger. */
  ghost predicate SalesOk(orders: seq<SalesOrder>, shipments: seq<Entry>, txns: seq<Txn>) {
    && (forall i :: 0 <= i < |orders| ==> SaleOk(orders[i], i, shipments, txns))
    && (forall e :: e in shipments ==> e.owner < |orders|)
    && (forall i: nat :: |orders| <= i ==> Flow(txns, FromShipment(i)) == 0.0)
  }

  /** A document of this kind for this source exists. */
  predicate HasDocument(documents: seq<Document>, kind: DocumentKind, source: SourceDocument) {
    exists i :: 0 <= i < |documents| && documents[i].kind == kind && documents[i].source == source
  }

  ghost predicate FinanceOk(documents: seq<Document>, payments: seq<Entry>) {
    && (forall i, j :: 0 <= i < j < |documents| ==>
          documents[i].kind != documents[j].kind || documents[i].source != documents[j].source)
    && (forall i :: 0 <= i < |documents| ==>
          && documents[i].total > 0.0
          && PaidProgress(documents[i].paid, documents[i].total, payments, i)
          && documents[i].status == DocStatus(documents[i].total, documents[i].paid))
    && (forall e :: e in payments ==> e.owner < |documents|)
  }

  // ---- What the tables guarantee -------------------------------------------------------------------

  lemma ProgressExact(done: real, order: real, entries: seq<Entry>, owner: nat)
    requires Progress(done, order, entries, owner)
    ensures (forall e :: e in entries && e.owner == owner ==> OnGrid(e.qty)) ==> done == Total(entries, owner)
  {
    hide OnGrid, Round6;
  }

  /** A work order is never over-completed; on the grid its completed quantity is the sum of
      its reports and of what they brought into stock, it is done only when complete, and
      nothing is completed before every line was issued, each in full and once. */
  lemma WorkOrderTotals(orders: seq<WorkOrder>, reports: seq<Entry>, materials: seq<Material>, txns: seq<Txn>, w: nat)
    requires ProductionOk(orders, reports, txns) && MaterialsOk(orders, materials, txns) && w < |orders|
    ensures var o := orders[w];
            && o.completedQty <= o.orderQty + TOLERANCE + 0.0000005
            && (OnGrid(o.orderQty) ==> o.completedQty <= o.orderQty)
            && (OnGrid(o.orderQty) && o.status.Done? ==> o.completedQty == o.orderQty)
            && ((forall e :: e in reports && e.owner == w ==> OnGrid(e.qty)) ==>
                  o.completedQty == Total(reports, w) == Flow(txns, FromCompletion(w)))
            && (o.completedQty > 0.0 ==> forall m :: m in materials && m.workOrder == w ==> Supplied(m))
            && (forall m :: m in materials && m.workOrder == w && m.requiredQty > 0.0 ==>
              m.issuedQty in {0.0, m.requiredQty})
            && (forall item :: IssuedTotal(materials, w, item) == -FlowOf(txns, FromIssue(w), item))
  {
    hide OnGrid, Progress;
    assert OrderOk(orders[w], w, reports, txns);
    ProgressBounded(orders[w].completedQty, orders[w].orderQty, reports, w);
    ProgressExact(orders[w].completedQty, orders[w].orderQty, reports, w);
  }

  /** A sales order is never over-shipped; on the grid its shipped quantity is the sum of its
      shipments and of what left the stock for it. */
  lemma SalesOrderTotals(orders: seq<SalesOrder>, shipments: seq<Entry>, txns: seq<Txn>, i: nat)
    requires SalesOk(orders, shipments, txns) && i < |orders|
    ensures var o := orders[i];
            && o.shippedQty <= o.orderQty + TOLERANCE + 0.0000005
            && (OnGrid(o.orderQty) ==> o.shippedQty <= o.orderQty)
            && ((forall e :: e in shipments && e.owner == i ==> OnGrid(e.qty)) ==>
                  o.shippedQty == Total(shipments, i) == -Flow(txns, FromShipment(i)))
  {
    hide OnGrid, Progress;
    assert SaleOk(orders[i], i, shipments, txns);
    ProgressBounded(orders[i].shippedQty, orders[i].orderQty, shipments, i);
    ProgressExact(orders[i].shippedQty, orders[i].orderQty, shipments, i);
  }

  /** No document is paid beyond its total rounded to cents, so one in whole cents is never
      overpaid and is settled exactly when paid in full; with all payments in whole cents the
      paid amount is their sum. No two documents of a kind have one source. */
  lemma DocumentTotals(documents: seq<Document>, payments: seq<Entry>, i: nat)
    requires FinanceOk(documents, payments) && i < |documents|
    ensures var d := documents[i];
            && d.paid <= Round2(d.total + TOLERANCE)
            && (forall k :: 0 <= k < |documents| && documents[k].kind == d.kind && documents[k].source == d.source ==>
              k == i)
            && (OnCents(d.total) ==>
                  d.paid <= d.total && (d.status.Settled? <==> d.paid == d.total)
                    && (d.status.Unsettled? <==> d.paid == 0.0))
            && ((forall e :: e in payments && e.owner == i ==> OnCents(e.qty)) ==> d.paid == Total(payments, i))
  {
    hide OnCents, Round2;
    if OnCents(documents[i].total) {
      PaidBounded(documents[i].paid, documents[i].total, payments, i);
    }
  }

  // ---- Ledger rows that do not concern a table -----------------------------------------------------

  lemma PurchasesElsewhere(lines: seq<PurchaseLine>, txns: seq<Txn>, t: Txn)
    requires PurchasesOk(lines, txns) && !t.source.FromPurchase?
    ensures PurchasesOk(lines, txns + [t])
  {
    FlowGrows(txns, t);
    forall i | 0 <= i < |lines|
      ensures LineOk(lines[i], i, txns + [t])
    {
      assert LineOk(lines[i], i, txns);
    }
  }

  lemma ProductionElsewhere(orders: seq<WorkOrder>, reports: seq<Entry>, txns: seq<Txn>, t: Txn)
    requires ProductionOk(orders, reports, txns) && !t.source.FromCompletion?
    ensures ProductionOk(orders, reports, txns + [t])
  {
    hide Progress;
    FlowGrows(txns, t);
    forall w | 0 <= w < |orders|
      ensures OrderOk(orders[w], w, reports, txns + [t])
    {
      assert OrderOk(orders[w], w, reports, txns);
    }
  }

  lemma MaterialsElsewhere(orders: seq<WorkOrder>, materials: seq<Material>, txns: seq<Txn>, t: Txn)
    requires MaterialsOk(orders, materials, txns) && !t.source.FromIssue?
    ensures MaterialsOk(orders, materials, txns + [t])
  {
    hide MaterialOk;
    FlowGrows(txns, t);
  }

  lemma SalesElsewhere(orders: seq<SalesOrder>, shipments: seq<Entry>, txns: seq<Txn>, t: Txn)
    requires SalesOk(orders, shipments, txns) && !t.source.FromShipment?
    ensures SalesOk(orders, shipments, txns + [t])
  {
    hide Progress;
    FlowGrows(txns, t);
    forall i | 0 <= i < |orders|
      ensures SaleOk(orders[i], i, shipments, txns + [t])
    {
      assert SaleOk(orders[i], i, shipments, txns);
    }
  }

  // ---- The steps that do ----------------------------------------------------------------------------

  /** One receipt against line `i`. */
  lemma PurchaseReceives(lines: seq<PurchaseLine>, txns: seq<Txn>, i: nat, qty: real, t: Txn, status: LineStatus)
    requires PurchasesOk(lines, txns) && i < |lines| && t.source == FromPurchase(i) && t.qty == qty
    requires 0.0 < qty <= lines[i].orderQty - lines[i].receivedQty + TOLERANCE
    requires status ==
             if lines[i].receivedQty + qty >= lines[i].orderQty - TOLERANCE then FullyReceived else PartlyReceived
    ensures PurchasesOk(lines[i := lines[i].(receivedQty := lines[i].receivedQty + qty, status := status)], txns + [t])
  {
    FlowGrows(txns, t);
    var after := lines[i := lines[i].(receivedQty := lines[i].receivedQty + qty, status := status)];
    forall k | 0 <= k < |after|
      ensures LineOk(after[k], k, txns + [t])
    {
      assert LineOk(lines[k], k, txns);
    }
  }

  lemma OtherOrder(lines: seq<PurchaseLine>, i: nat, l: PurchaseLine, p: nat)
    requires i < |lines| && l.po == lines[i].po != p
    ensures AllReceived(lines[i := l], p) <==> AllReceived(lines, p)
  {
    var after := lines[i := l];
    if AllReceived(lines, p) {
      forall k | 0 <= k < |after| && after[k].po == p
        ensures after[k].status.FullyReceived?
      {
        assert after[k] == lines[k];
      }
    }
    if AllReceived(after, p) {
      forall k | 0 <= k < |lines| && lines[k].po == p
        ensures lines[k].status.FullyReceived?
      {
        assert after[k] == lines[k];
      }
    }
  }

  ghost predicate HasLine(lines: seq<PurchaseLine>, po: nat) {
    exists l :: l in lines && l.po == po
  }

  lemma HeaderReceives(orders: seq<PurchaseOrder>, lines: seq<PurchaseLine>, i: nat, l: PurchaseLine,
                       status: LineStatus)
    requires HeadersOk(orders, lines) && i < |lines| && l.po == lines[i].po < |orders|
    requires status.FullyReceived? <==> AllReceived(lines[i := l], l.po)
    ensures HeadersOk(orders[l.po := orders[l.po].(status := status)], lines[i := l])
  {
    var after := lines[i := l];
    forall p | 0 <= p < |orders| && p != l.po
      ensures AllReceived(after, p) <==> AllReceived(lines, p)
    {
      OtherOrder(lines, i, l, p);
    }
  }

  lemma HeadersOrdered(orders: seq<PurchaseOrder>, lines: seq<PurchaseLine>, newOrders: seq<PurchaseOrder>,
                       more: seq<PurchaseLine>)
    requires HeadersOk(orders, lines)
    requires forall o :: o in newOrders ==> o.status.AwaitingReceipt?
    requires forall l :: l in more ==> |orders| <= l.po < |orders| + |newOrders| && l.status.AwaitingReceipt?
    requires forall p :: |orders| <= p < |orders| + |newOrders| ==> HasLine(more, p)
    ensures HeadersOk(orders + newOrders, lines + more)
  {
    forall p | 0 <= p < |orders + newOrders|
      ensures (orders + newOrders)[p].status.FullyReceived? <==> AllReceived(lines + more, p)
    {
      if p < |orders| {
        forall i | |lines| <= i < |lines + more|
          ensures (lines + more)[i].po != p
        {
          assert (lines + more)[i] in more;
        }
        forall i | 0 <= i < |lines|
          ensures (lines + more)[i] == lines[i]
        {
        }
      } else {
        assert (orders + newOrders)[p] in newOrders;
        assert HasLine(more, p);
        var l :| l in more && l.po == p;
        var i :| 0 <= i < |more| && more[i] == l;
        assert (lines + more)[|lines| + i] == l;
      }
    }
  }

  lemma PurchaseOrdered(lines: seq<PurchaseLine>, txns: seq<Txn>, more: seq<PurchaseLine>)
    requires PurchasesOk(lines, txns)
    requires forall l :: l in more ==> l.receivedQty == 0.0 && l.status.AwaitingReceipt?
    ensures PurchasesOk(lines + more, txns)
  {
    forall k | 0 <= k < |lines + more|
      ensures LineOk((lines + more)[k], k, txns)
    {
      if k < |lines| {
        assert LineOk(lines[k], k, txns);
      } else {
        assert (lines + more)[k] in more;
      }
    }
  }

  lemma ProductionOpened(orders: seq<WorkOrder>, reports: seq<Entry>, txns: seq<Txn>, o: WorkOrder)
    requires ProductionOk(orders, reports, txns)
    requires o.orderQty > 0.0 && o.completedQty == 0.0 && !o.status.Done?
    ensures ProductionOk(orders + [o], reports, txns)
  {
    hide Progress;
    ProgressStarts(o.orderQty, reports, |orders|);
    NoRows(reports, |orders|);
    forall w | 0 <= w <= |orders|
      ensures OrderOk((orders + [o])[w], w, reports, txns)
    {
      assert w < |orders| ==> OrderOk(orders[w], w, reports, txns);
    }
  }

  lemma ProductionReported(orders: seq<WorkOrder>, reports: seq<Entry>, txns: seq<Txn>, w: nat, qty: real, t: Txn,
                           status: WorkStatus)
    requires ProductionOk(orders, reports, txns) && w < |orders| && t.source == FromCompletion(w) && t.qty == qty
    requires 0.0 < qty <= orders[w].orderQty - orders[w].completedQty + TOLERANCE
    requires status.Done? ==> Round6(orders[w].completedQty + qty) >= orders[w].orderQty - TOLERANCE
    ensures ProductionOk(orders[w :=
        orders[w].(completedQty := Round6(orders[w].completedQty + qty), status := status)],
                         reports + [Entry(w, qty)], txns + [t])
  {
    hide Progress, Round6;
    FlowGrows(txns, t);
    TotalGrows(reports, Entry(w, qty));
    assert OrderOk(orders[w], w, reports, txns);
    ProgressAdvances(orders[w].completedQty, orders[w].orderQty, reports, w, qty);
    forall k | 0 <= k < |orders| && k != w
      ensures OrderOk(orders[k], k, reports + [Entry(w, qty)], txns + [t])
    {
      assert OrderOk(orders[k], k, reports, txns);
      ProgressElsewhere(orders[k].completedQty, orders[k].orderQty, reports, k, Entry(w, qty));
    }
  }

  lemma ProductionRestated(orders: seq<WorkOrder>, reports: seq<Entry>, txns: seq<Txn>, w: nat, status: WorkStatus)
    requires ProductionOk(orders, reports, txns) && w < |orders| && !status.Done?
    ensures ProductionOk(orders[w := orders[w].(status := status)], reports, txns)
  {
    hide Progress;
    var after := orders[w := orders[w].(status := status)];
    forall k | 0 <= k < |after|
      ensures OrderOk(after[k], k, reports, txns)
    {
      assert OrderOk(orders[k], k, reports, txns);
    }
  }

  /** Fresh material lines for a new work order. */
  lemma MaterialsOpened(orders: seq<WorkOrder>, materials: seq<Material>, txns: seq<Txn>, o: WorkOrder,
                        more: seq<Material>)
    requires MaterialsOk(orders, materials, txns) && o.completedQty == 0.0
    requires forall m :: m in more ==> m.workOrder == |orders| && m.issuedQty == 0.0 && OnGrid(m.requiredQty)
    ensures MaterialsOk(orders + [o], materials + more, txns)
  {
    hide OnGrid;
    forall w: nat, item
      ensures IssuedTotal(materials + more, w, item) == -FlowOf(txns, FromIssue(w), item)
    {
      IssuedAppend(materials, more, w, item);
    }
  }

  lemma MaterialIssued(orders: seq<WorkOrder>, materials: seq<Material>, txns: seq<Txn>, i: nat, t: Txn)
    requires MaterialsOk(orders, materials, txns) && i < |materials|
    requires materials[i].issuedQty == 0.0 && materials[i].requiredQty > 0.0
    requires t.source == FromIssue(materials[i].workOrder) && t.item == materials[i].item
        && t.qty == -materials[i].requiredQty
    ensures MaterialsOk(orders, materials[i := materials[i].(issuedQty := materials[i].requiredQty)], txns + [t])
  {
    hide OnGrid;
    FlowGrows(txns, t);
    var after := materials[i := materials[i].(issuedQty := materials[i].requiredQty)];
    forall w: nat, item
      ensures IssuedTotal(after, w, item) == -FlowOf(txns + [t], FromIssue(w), item)
    {
      IssuedUpdate(materials, i, materials[i].requiredQty, w, item);
    }
    assert materials[i] in materials;
    forall m | m in after
      ensures m in materials || m == after[i]
    {
    }
  }

  /** Completion changes a work order whose lines are all supplied. */
  lemma MaterialsFollow(orders: seq<WorkOrder>, materials: seq<Material>, txns: seq<Txn>, w: nat, o: WorkOrder)
    requires MaterialsOk(orders, materials, txns) && w < |orders|
    requires o.completedQty == orders[w].completedQty || forall m :: m in materials && m.workOrder == w ==> Supplied(m)
    ensures MaterialsOk(orders[w := o], materials, txns)
  {
    hide MaterialOk, Supplied;
  }

  lemma SaleOpened(orders: seq<SalesOrder>, shipments: seq<Entry>, txns: seq<Txn>, o: SalesOrder)
    requires SalesOk(orders, shipments, txns) && o.orderQty > 0.0 && o.shippedQty == 0.0
    ensures SalesOk(orders + [o], shipments, txns)
  {
    hide Progress;
    ProgressStarts(o.orderQty, shipments, |orders|);
    NoRows(shipments, |orders|);
    forall i | 0 <= i <= |orders|
      ensures SaleOk((orders + [o])[i], i, shipments, txns)
    {
      assert i < |orders| ==> SaleOk(orders[i], i, shipments, txns);
    }
  }

  lemma SaleShipped(orders: seq<SalesOrder>, shipments: seq<Entry>, txns: seq<Txn>, i: nat, qty: real, t: Txn,
                    status: SalesStatus)
    requires SalesOk(orders, shipments, txns) && i < |orders| && t.source == FromShipment(i) && t.qty == -qty
    requires 0.0 < qty <= orders[i].orderQty - orders[i].shippedQty + TOLERANCE
    ensures SalesOk(orders[i := orders[i].(shippedQty := Round6(orders[i].shippedQty + qty), status := status)],
                    shipments + [Entry(i, qty)], txns + [t])
  {
    hide Progress, Round6;
    FlowGrows(txns, t);
    TotalGrows(shipments, Entry(i, qty));
    assert SaleOk(orders[i], i, shipments, txns);
    ProgressAdvances(orders[i].shippedQty, orders[i].orderQty, shipments, i, qty);
    forall k | 0 <= k < |orders| && k != i
      ensures SaleOk(orders[k], k, shipments + [Entry(i, qty)], txns + [t])
    {
      assert SaleOk(orders[k], k, shipments, txns);
      ProgressElsewhere(orders[k].shippedQty, orders[k].orderQty, shipments, k, Entry(i, qty));
    }
  }

  lemma DocumentOpened(documents: seq<Document>, payments: seq<Entry>, d: Document)
    requires FinanceOk(documents, payments) && d.total > 0.0 && d.paid == 0.0 && d.status.Unsettled?
    requires !HasDocument(documents, d.kind, d.source)
    ensures FinanceOk(documents + [d], payments)
  {
    hide PaidProgress;
    PaidStarts(d.total, payments, |documents|);
  }

  lemma DocumentPaid(documents: seq<Document>, payments: seq<Entry>, i: nat, qty: real)
    requires FinanceOk(documents, payments) && i < |documents|
    requires 0.0 < qty <= documents[i].total - documents[i].paid + TOLERANCE
    ensures var paid := Round2(documents[i].paid + qty);
            FinanceOk(documents[i := documents[i].(paid := paid, status := DocStatus(documents[i].total, paid))],
                      payments + [Entry(i, qty)])
  {
    hide PaidProgress, Round2;
    PaidAdvances(documents[i].paid, documents[i].total, payments, i, qty);
    forall k | 0 <= k < |documents| && k != i
      ensures PaidProgress(documents[k].paid, documents[k].total, payments + [Entry(i, qty)], k)
    {
      PaidElsewhere(documents[k].paid, documents[k].total, payments, k, Entry(i, qty));
    }
  }
}
