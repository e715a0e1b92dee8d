/** From shortage to production: ordering what a bill of materials lacks, receiving it in
    any pieces and order, and building from it. */
module ErpPlanning {
  import opened Wrappers
  import opened Rounding
  import opened ErpStock
  import opened ErpTables
  import opened ErpPurchasing
  import opened Erp

  // ---- Receiving what was ordered --------------------------------------------------------

  /** What has been received of an item on these lines. */
  function ReceivedOf(lines: seq<PurchaseLine>, item: Item): real {
    if lines == [] then 0.0
    else ReceivedOf(lines[..|lines| - 1], item) +
         (if lines[|lines| - 1].item == item then lines[|lines| - 1].receivedQty else 0.0)
  }

  lemma {:induction false} ReceivedUpdate(lines: seq<PurchaseLine>, i: nat, l: PurchaseLine, item: Item)
    requires i < |lines| && l.item == lines[i].item
    ensures ReceivedOf(lines[i := l], item) ==
            ReceivedOf(lines, item) + (if l.item == item then l.receivedQty - lines[i].receivedQty else 0.0)
    decreases |lines|
  {
    var n, after := |lines| - 1, lines[i := l];
    if i < n {
      assert after[..n] == lines[..n][i := l];
      ReceivedUpdate(lines[..n], i, l, item);
    } else {
      assert after[..n] == lines[..n];
    }
  }

  lemma {:induction false} ReceivedNothing(lines: seq<PurchaseLine>, item: Item)
    requires forall l :: l in lines ==> l.receivedQty == 0.0
    ensures ReceivedOf(lines, item) == 0.0
    decreases |lines|
  {
    if lines != [] {
      assert lines[|lines| - 1] in lines;
      ReceivedNothing(lines[..|lines| - 1], item);
    }
  }

  lemma {:induction false} ReceivedNonNegative(lines: seq<PurchaseLine>, item: Item)
    requires forall l :: l in lines ==> l.receivedQty >= 0.0
    ensures ReceivedOf(lines, item) >= 0.0
    decreases |lines|
  {
    if lines != [] {
      assert lines[|lines| - 1] in lines;
      ReceivedNonNegative(lines[..|lines| - 1], item);
    }
  }

  lemma {:induction false} ReceivedAtLeast(lines: seq<PurchaseLine>, i: nat)
    requires i < |lines| && forall l :: l in lines ==> l.receivedQty >= 0.0
    ensures ReceivedOf(lines, lines[i].item) >= lines[i].receivedQty
    decreases |lines|
  {
    var n := |lines| - 1;
    assert lines[n] in lines;
    if i < n {
      ReceivedAtLeast(lines[..n], i);
    } else {
      ReceivedNonNegative(lines[..n], lines[i].item);
    }
  }

  /** The new lines still are the ordered ones, apart from what they received. */
  ghost predicate SameOrders(ordered: seq<PurchaseLine>, lines: seq<PurchaseLine>) {
    && |lines| == |ordered|
    && (forall i :: 0 <= i < |lines| ==>
          lines[i].item == ordered[i].item && lines[i].orderQty == ordered[i].orderQty && lines[i].receivedQty >= 0.0)
  }

  /** Since `start` the stock has changed by the receipts on these lines and nothing else. */
  ghost predicate OnlyReceipts(start: Stock, now: Stock, lines: seq<PurchaseLine>) {
    forall item :: OnHand(now, item) == OnHand(start, item) + ReceivedOf(lines, item)
        && Reserved(now, item) == Reserved(start, item)
  }

  /** A shortage covered by at least its rounded amount is gone, on the grid or off it. */
  lemma ShortageCovered(required: real, before: real, now: real)
    requires now >= before
    requires var short := Round6(MaxZero(required - before)); short > 0.0 ==> now >= before + short
    ensures Round6(MaxZero(required - now)) <= 0.0
  {
    Round6Facts(MaxZero(required - before));
    var rest := MaxZero(required - now);
    Round6Monotone(rest, MaxZero(required - before));
    HalfEvenNearest(rest * 1000000.0, 0);
  }

  /** Once every ordered shortage has been received in full, every line is ready. */
  lemma ReceivedMeansReady(start: Stock, now: Stock, bom: seq<BomLine>, orderQty: real,
                           supplier: Item -> string, po: nat, lines: seq<PurchaseLine>)
    requires SameOrders(ShortageLines(start, bom, orderQty, supplier, po), lines) && OnlyReceipts(start, now, lines)
    requires forall l :: l in lines ==> l.receivedQty >= l.orderQty
    ensures AllReady(now, bom, orderQty)
  {
    hide RequiredQty, Round6;
    forall i | 0 <= i < |bom|
      ensures Shortage(now, bom[i], orderQty) <= 0.0
    {
      ReceivedNonNegative(lines, bom[i].item);
      assert OnHand(now, bom[i].item) == OnHand(start, bom[i].item) + ReceivedOf(lines, bom[i].item);
      if Shortage(start, bom[i], orderQty) > 0.0 {
        var k := ShortLineOrdered(start, bom, orderQty, supplier, po, i);
        ReceivedAtLeast(lines, k);
        assert lines[k] in lines;
      }
      ShortageCovered(RequiredQty(bom[i], orderQty), Available(start, bom[i].item), Available(now, bom[i].item));
    }
  }

  lemma ReceiptCounts(start: Stock, now: Stock, ordered: seq<PurchaseLine>, lines: seq<PurchaseLine>,
                      i: nat, l: PurchaseLine, qty: real, line: nat)
    requires OnlyReceipts(start, now, lines) && SameOrders(ordered, lines) && i < |lines| && qty > 0.0
    requires l.item == lines[i].item && l.orderQty == lines[i].orderQty && l.receivedQty == lines[i].receivedQty + qty
    ensures OnlyReceipts(start, Receive(now, l.item, qty, line), lines[i := l]) && SameOrders(ordered, lines[i := l])
  {
    var after := Receive(now, l.item, qty, line);
    forall item
      ensures OnHand(after, item) == OnHand(start, item) + ReceivedOf(lines[i := l], item)
          && Reserved(after, item) == Reserved(start, item)
    {
      ReceivedUpdate(lines, i, l, item);
      assert OnHand(now, item) == OnHand(start, item) + ReceivedOf(lines, item);
    }
  }

  ghost predicate GridReceipts(receipts: seq<(nat, real)>) {
    forall r :: r in receipts ==> OnGrid(r.1)
  }

  lemma FreshOrders(s: Stock, lines: seq<BomLine>, orderQty: real, supplier: Item -> string, po: nat)
    ensures var ordered := ShortageLines(s, lines, orderQty, supplier, po);
            && SameOrders(ordered, ordered) && OnlyReceipts(s, s, ordered)
            && (forall l :: l in ordered ==> OnGrid(l.receivedQty))
  {
    hide ShortageLines;
    var ordered := ShortageLines(s, lines, orderQty, supplier, po);
    ShortageLinesFresh(s, lines, orderQty, supplier, po);
    forall item
      ensures ReceivedOf(ordered, item) == 0.0
    {
      ReceivedNothing(ordered, item);
    }
    forall i | 0 <= i < |ordered|
      ensures ordered[i].receivedQty >= 0.0
    {
      assert ordered[i] in ordered;
    }
  }

  /** On the grid a line marked as received has received all of its quantity. */
  lemma FullyReceivedOnGrid(all: seq<PurchaseLine>, txns: seq<Txn>, first: nat,
                            start: Stock, bom: seq<BomLine>, orderQty: real, supplier: Item -> string, po: nat)
    requires PurchasesOk(all, txns) && first <= |all|
    requires SameOrders(ShortageLines(start, bom, orderQty, supplier, po), all[first..])
    requires forall l :: l in all[first..] ==> l.status.FullyReceived? && OnGrid(l.receivedQty)
    ensures forall l :: l in all[first..] ==> l.receivedQty >= l.orderQty
  {
    hide OnGrid, ShortageLines;
    ShortagesOnGrid(start, bom, orderQty, supplier, po);
    forall l | l in all[first..]
      ensures l.receivedQty >= l.orderQty
    {
      var i :| 0 <= i < |all[first..]| && all[first..][i] == l;
      assert LineOk(all[first + i], first + i, txns);
      assert ShortageLines(start, bom, orderQty, supplier, po)[i] in ShortageLines(start, bom, orderQty, supplier, po);
      ToleranceIsFine(l.orderQty, l.receivedQty);
    }
  }

  /** Every order the shortage asks for gets a code of its own. */
  ghost predicate CodesFree(used: set<string>, codes: nat -> string, s: Stock, lines: seq<BomLine>, orderQty: real,
                            supplier: Item -> string) {
    FreshCodes(used, codes, |Suppliers(Suggestions(s, lines, orderQty), supplier)|)
  }

  /** Orders the shortage of a BOM, if the codes are free, and receives against the new lines,
      in the given pieces and order; pieces the server refuses change nothing. Once the new
      lines are received in full, the BOM is ready. */
  method OrderAndReceive(server: Server, bom: nat, orderQty: real, supplier: Item -> string, codes: nat -> string,
                         receipts: seq<(nat, real)>)
    returns (ordered: bool, first: nat)
    requires server.Inv() && bom in server.boms
    modifies server
    ensures server.Inv() && first == |old(server.purchaseLines)| <= |server.purchaseLines|
    ensures ordered <==>
              CodesFree(old(server.orderCodes), codes, old(server.stock), server.boms[bom].lines, orderQty, supplier)
    ensures !ordered ==> server.stock == old(server.stock) && server.purchaseLines == old(server.purchaseLines)
    ensures ordered ==>
              SameOrders(ShortageLines(old(server.stock), server.boms[bom].lines, orderQty, supplier,
                |old(server.purchaseOrders)|),
                         server.purchaseLines[first..])
    ensures ordered ==> OnlyReceipts(old(server.stock), server.stock, server.purchaseLines[first..])
    ensures ordered && (forall l :: l in server.purchaseLines[first..] ==> l.receivedQty >= l.orderQty) ==>
              AllReady(server.stock, server.boms[bom].lines, orderQty)
    ensures && ordered && GridReceipts(receipts)
            && (forall l :: l in server.purchaseLines[first..] ==> l.status.FullyReceived?) ==>
              AllReady(server.stock, server.boms[bom].lines, orderQty)
    ensures GridReceipts(receipts) ==> forall l :: l in server.purchaseLines[first..] ==> OnGrid(l.receivedQty)
    ensures server.workOrders == old(server.workOrders) && server.materials == old(server.materials)
  {
    hide StockOk, PurchasesOk, HeadersOk, ProductionOk, MaterialsOk, SalesOk, FinanceOk, SameOrders, OnlyReceipts,
         AllReady, Receive, OnGrid, ShortageLines, Suggestions, Suppliers, FreshCodes;
    ghost var start, lines, po := server.stock, server.boms[bom].lines, |server.purchaseOrders|;
    first := |server.purchaseLines|;
    var created := server.CreatePurchaseOrdersFromShortage(bom, orderQty, supplier, codes);
    if created.Err? {
      return false, first;
    }
    ordered := true;
    ghost var asked := ShortageLines(start, lines, orderQty, supplier, po);
    assert server.purchaseLines[first..] == asked;
    FreshOrders(start, lines, orderQty, supplier, po);
    for n := 0 to |receipts|
      invariant server.Inv() && first <= |server.purchaseLines|
      invariant server.workOrders == old(server.workOrders) && server.materials == old(server.materials)
      invariant SameOrders(asked, server.purchaseLines[first..])
      invariant OnlyReceipts(start, server.stock, server.purchaseLines[first..])
      invariant GridReceipts(receipts) ==> forall l :: l in server.purchaseLines[first..] ==> OnGrid(l.receivedQty)
    {
      var (k, qty) := receipts[n];
      ghost var was, stock := server.purchaseLines, server.stock;
      var r := server.ReceivePurchaseLine(first + k, qty);
      if r.Ok? {
        ghost var l := server.purchaseLines[first + k];
        assert server.purchaseLines[first..] == was[first..][k := l];
        assert was[first..][k] == was[first + k];
        ReceiptCounts(start, stock, asked, was[first..], k, l, qty, first + k);
        if GridReceipts(receipts) {
          assert receipts[n] in receipts && was[first..][k] in was[first..];
          GridSums(was[first + k].receivedQty, qty);
        }
      } else {
        assert server.purchaseLines == was;
      }
    }
    ghost var now := server.purchaseLines[first..];
    if GridReceipts(receipts) && forall l :: l in now ==> l.status.FullyReceived? {
      FullyReceivedOnGrid(server.purchaseLines, server.stock.txns, first, start, lines, orderQty, supplier, po);
    }
    if forall l :: l in now ==> l.receivedQty >= l.orderQty {
      ReceivedMeansReady(start, server.stock, lines, orderQty, supplier, po, now);
    }
  }

  // ---- Issuing from a ready stock --------------------------------------------------------------

  function NeedOf(needs: seq<(Item, real)>, item: Item): real {
    if needs == [] then 0.0 else (if needs[0].0 == item then needs[0].1 else 0.0) + NeedOf(needs[1..], item)
  }

  ghost predicate GridNeeds(needs: seq<(Item, real)>) {
    forall i :: 0 <= i < |needs| ==> OnGrid(needs[i].1) && needs[i].1 > 0.0
  }

  ghost predicate Covered(s: Stock, needs: seq<(Item, real)>) {
    forall item :: NeedOf(needs, item) <= OnHand(s, item)
  }

  ghost predicate GridStock(s: Stock) {
    forall item :: OnGrid(OnHand(s, item)) && OnHand(s, item) >= 0.0 && Reserved(s, item) == 0.0
  }

  lemma {:induction false} NeedNonNegative(needs: seq<(Item, real)>, item: Item)
    requires GridNeeds(needs)
    ensures NeedOf(needs, item) >= 0.0
    decreases |needs|
  {
    if needs != [] {
      NeedNonNegative(needs[1..], item);
    }
  }

  lemma {:induction false} NeedAtLeast(needs: seq<(Item, real)>, i: nat)
    requires GridNeeds(needs) && i < |needs|
    ensures NeedOf(needs, needs[i].0) >= needs[i].1
    decreases |needs|
  {
    if i > 0 {
      NeedAtLeast(needs[1..], i - 1);
    } else {
      NeedNonNegative(needs[1..], needs[0].0);
    }
  }

  /** The first need of an item in line order. */
  function FirstNeed(needs: seq<(Item, real)>, item: Item): real {
    if needs == [] then 0.0 else if needs[0].0 == item then needs[0].1 else FirstNeed(needs[1..], item)
  }

  /** What the lines together need of the item is there after the first draw was rounded. */
  predicate Drawable(s: Stock, needs: seq<(Item, real)>, item: Item) {
    NeedOf(needs, item) > 0.0 ==>
      NeedOf(needs, item) <= Round6(OnHand(s, item) - FirstNeed(needs, item)) + FirstNeed(needs, item)
  }

  ghost predicate AllDrawable(s: Stock, needs: seq<(Item, real)>) {
    forall item :: Drawable(s, needs, item)
  }

  lemma {:induction false} FirstNeedFacts(needs: seq<(Item, real)>, item: Item)
    requires GridNeeds(needs)
    ensures NeedOf(needs, item) >= FirstNeed(needs, item) >= 0.0
    ensures NeedOf(needs, item) > 0.0 ==> OnGrid(FirstNeed(needs, item)) && FirstNeed(needs, item) > 0.0
    decreases |needs|
  {
    hide OnGrid;
    if needs != [] {
      NeedNonNegative(needs[1..], item);
      FirstNeedFacts(needs[1..], item);
    }
  }

  /** After one draw the rest is drawable exactly when all of it was before. */
  lemma DrawableStep(s: Stock, t: Stock, needs: seq<(Item, real)>, item: Item)
    requires GridNeeds(needs) && needs != []
    requires OnHand(t, item) == if item == needs[0].0 then Round6(OnHand(s, item) - needs[0].1) else OnHand(s, item)
    requires item == needs[0].0 ==> OnHand(t, item) >= 0.0
    ensures Drawable(t, needs[1..], item) <==> Drawable(s, needs, item)
  {
    hide OnGrid, Round6, OnHand;
    var rest := needs[1..];
    FirstNeedFacts(rest, item);
    if item == needs[0].0 {
      Round6Facts(OnHand(s, item) - needs[0].1);
      if NeedOf(rest, item) > 0.0 {
        GridSums(OnHand(t, item), FirstNeed(rest, item));
        Round6Facts(OnHand(t, item) - FirstNeed(rest, item));
      }
    }
  }

  lemma NothingToDraw(s: Stock)
    ensures AllDrawable(s, [])
  {
  }

  lemma DrawFails(s: Stock, needs: seq<(Item, real)>)
    requires GridNeeds(needs) && needs != [] && Round6(OnHand(s, needs[0].0) - needs[0].1) < 0.0
    ensures !Drawable(s, needs, needs[0].0)
  {
    hide Round6, OnGrid;
    NeedNonNegative(needs[1..], needs[0].0);
  }

  /** The drawing loop succeeds exactly when for every item the lines together need no more
      than is there once the first of them was drawn and rounded: for all balances. */
  lemma {:induction false} DrawExactly(s: Stock, needs: seq<(Item, real)>, w: nat)
    requires GridNeeds(needs)
    ensures Draw(s, needs, w).Ok? <==> AllDrawable(s, needs)
    decreases |needs|
  {
    hide OnGrid, Round6, Drawable, FirstNeed, NeedOf;
    if needs == [] {
      NothingToDraw(s);
    } else {
      var (item, qty) := needs[0];
      assert OnHand(s, item) + -qty == OnHand(s, item) - qty;
      NotNegative(OnHand(s, item) - qty);
      var r := ChangeInventory(s, item, -qty, FromIssue(w));
      if r.Err? {
        DrawFails(s, needs);
      } else {
        DrawExactly(r.value, needs[1..], w);
        forall x
          ensures Drawable(r.value, needs[1..], x) <==> Drawable(s, needs, x)
        {
          DrawableStep(s, r.value, needs, x);
        }
      }
    }
  }

  lemma GridDrawable(s: Stock, needs: seq<(Item, real)>, item: Item)
    requires GridStock(s) && GridNeeds(needs)
    ensures Drawable(s, needs, item) <==> NeedOf(needs, item) <= OnHand(s, item)
  {
    hide OnGrid, Round6, OnHand;
    assert OnGrid(OnHand(s, item)) && OnHand(s, item) >= 0.0;
    FirstNeedFacts(needs, item);
    if NeedOf(needs, item) > 0.0 {
      GridSums(OnHand(s, item), FirstNeed(needs, item));
      Round6Facts(OnHand(s, item) - FirstNeed(needs, item));
    }
  }

  lemma GridIssueExactly(s: Stock, needs: seq<(Item, real)>)
    requires GridStock(s) && GridNeeds(needs)
    ensures NoShortage(s, needs) && AllDrawable(s, needs) <==> Covered(s, needs)
  {
    hide OnGrid, Drawable;
    forall item
      ensures Drawable(s, needs, item) <==> NeedOf(needs, item) <= OnHand(s, item)
    {
      GridDrawable(s, needs, item);
    }
    if Covered(s, needs) {
      forall i | 0 <= i < |needs|
        ensures Available(s, needs[i].0) + TOLERANCE >= needs[i].1
      {
        NeedAtLeast(needs, i);
        assert Reserved(s, needs[i].0) == 0.0;
      }
    }
  }

  /** Issuing succeeds exactly when each line passes the first check and each item's lines
      together can be drawn; on the grid, exactly when for every item the lines together
      need no more than is on hand. */
  lemma IssueExactly(s: Stock, needs: seq<(Item, real)>, w: nat)
    requires GridNeeds(needs)
    ensures NoShortage(s, needs) && Draw(s, needs, w).Ok? <==> NoShortage(s, needs) && AllDrawable(s, needs)
    ensures GridStock(s) ==> (NoShortage(s, needs) && Draw(s, needs, w).Ok? <==> Covered(s, needs))
  {
    hide NoShortage, Draw, AllDrawable, Covered, GridStock, GridNeeds;
    DrawExactly(s, needs, w);
    if GridStock(s) {
      GridIssueExactly(s, needs);
    }
  }

  // ---- One line per item --------------------------------------------------------------------------

  ghost predicate DistinctNeeds(needs: seq<(Item, real)>) {
    forall i, j :: 0 <= i < j < |needs| ==> needs[i].0 != needs[j].0
  }

  ghost predicate NothingReserved(s: Stock) {
    forall item :: Reserved(s, item) == 0.0
  }

  /** The needs of a work order whose every item is on hand up to the tolerance. */
  predicate Within(s: Stock, needs: seq<(Item, real)>) {
    forall i :: 0 <= i < |needs| ==> needs[i].1 <= OnHand(s, needs[i].0) + TOLERANCE
  }

  lemma {:induction false} NoNeedOf(needs: seq<(Item, real)>, item: Item)
    requires forall i :: 0 <= i < |needs| ==> needs[i].0 != item
    ensures NeedOf(needs, item) == FirstNeed(needs, item) == 0.0
    decreases |needs|
  {
    if needs != [] {
      NoNeedOf(needs[1..], item);
    }
  }

  lemma {:induction false} OneNeedOf(needs: seq<(Item, real)>, item: Item)
    requires DistinctNeeds(needs) && GridNeeds(needs) && NeedOf(needs, item) > 0.0
    ensures exists i ::
              0 <= i < |needs| && needs[i].0 == item && needs[i].1 == NeedOf(needs, item) == FirstNeed(needs, item)
    decreases |needs|
  {
    if needs[0].0 == item {
      NoNeedOf(needs[1..], item);
      assert needs[0].1 == NeedOf(needs, item);
    } else {
      OneNeedOf(needs[1..], item);
      var i :| 0 <= i < |needs[1..]| && needs[1..][i].0 == item
          && needs[1..][i].1 == NeedOf(needs, item) == FirstNeed(needs, item);
      assert needs[i + 1].0 == item;
    }
  }

  lemma WithinDrawable(s: Stock, needs: seq<(Item, real)>, item: Item)
    requires GridNeeds(needs) && DistinctNeeds(needs) && Within(s, needs)
    ensures Drawable(s, needs, item)
  {
    hide OnGrid, Round6, OnHand;
    if NeedOf(needs, item) > 0.0 {
      OneNeedOf(needs, item);
      NotNegative(OnHand(s, item) - FirstNeed(needs, item));
    }
  }

  /** With one need per item and nothing reserved, issuing succeeds exactly when each need is
      on hand up to the tolerance: the drawing loop never stops where the first check passed. */
  lemma OneLineExactly(s: Stock, needs: seq<(Item, real)>, w: nat)
    requires GridNeeds(needs) && DistinctNeeds(needs) && NothingReserved(s)
    ensures NoShortage(s, needs) && Draw(s, needs, w).Ok? <==> Within(s, needs)
  {
    hide Draw, OnGrid, Drawable;
    DrawExactly(s, needs, w);
    forall i | 0 <= i < |needs|
      ensures Available(s, needs[i].0) == OnHand(s, needs[i].0)
    {
      assert Reserved(s, needs[i].0) == 0.0;
    }
    if Within(s, needs) {
      forall item
        ensures Drawable(s, needs, item)
      {
        WithinDrawable(s, needs, item);
      }
    }
  }

  // ---- What a fresh work order needs --------------------------------------------------------------

  lemma {:induction false} NeedsAppend(a: seq<Material>, b: seq<Material>, w: nat)
    ensures Needs(a + b, w) == Needs(a, w) + Needs(b, w)
    decreases |a|
  {
    hide Remaining;
    if a == [] {
      assert a + b == b;
    } else {
      assert (a + b)[1..] == a[1..] + b;
      NeedsAppend(a[1..], b, w);
    }
  }

  lemma {:induction false} NeedsNone(a: seq<Material>, w: nat)
    requires forall m :: m in a ==> m.workOrder != w
    ensures Needs(a, w) == []
    decreases |a|
  {
    if a != [] {
      assert a[0] in a;
      NeedsNone(a[1..], w);
    }
  }

  ghost predicate DistinctItems(lines: seq<BomLine>) {
    forall i, j :: 0 <= i < j < |lines| ==> lines[i].item != lines[j].item
  }

  lemma FreshNeed(line: BomLine, orderQty: real, w: nat)
    ensures var m := Material(w, line.item, RequiredQty(line, orderQty), 0.0);
            && OnGrid(Remaining(m)) && Remaining(m) == RequiredQty(line, orderQty)
  {
    RequiredOnGrid(line, orderQty);
    Round6Facts(RequiredQty(line, orderQty) - 0.0);
  }

  function FreshNeeds(lines: seq<BomLine>, orderQty: real, w: nat): seq<(Item, real)> {
    Needs(WorkOrderLines(lines, orderQty, w), w)
  }

  lemma FreshNeedsStep(lines: seq<BomLine>, orderQty: real, w: nat)
    requires lines != []
    ensures var required := RequiredQty(lines[0], orderQty);
            FreshNeeds(lines, orderQty, w) ==
            (if required > 0.0 then [(lines[0].item, required)] else []) + FreshNeeds(lines[1..], orderQty, w)
  {
    hide RequiredQty, Remaining;
    assert WorkOrderLines(lines, orderQty, w)[1..] == WorkOrderLines(lines[1..], orderQty, w);
    FreshNeed(lines[0], orderQty, w);
  }

  ghost predicate IsNeedOf(need: (Item, real), lines: seq<BomLine>, orderQty: real) {
    exists i :: 0 <= i < |lines| && need == (lines[i].item, RequiredQty(lines[i], orderQty)) && need.1 > 0.0
  }

  /** A fresh work order needs exactly what those BOM lines require that require anything. */
  lemma {:induction false} FreshNeedsExactly(lines: seq<BomLine>, orderQty: real, w: nat, need: (Item, real))
    ensures need in FreshNeeds(lines, orderQty, w) <==> IsNeedOf(need, lines, orderQty)
    decreases |lines|
  {
    hide RequiredQty;
    if lines != [] {
      hide FreshNeeds;
      FreshNeedsStep(lines, orderQty, w);
      FreshNeedsExactly(lines[1..], orderQty, w, need);
      if IsNeedOf(need, lines[1..], orderQty) {
        var i :| 0 <= i < |lines[1..]| && need == (lines[1..][i].item, RequiredQty(lines[1..][i], orderQty))
            && need.1 > 0.0;
        assert lines[i + 1] == lines[1..][i];
      }
      if IsNeedOf(need, lines, orderQty) {
        var i :| 0 <= i < |lines| && need == (lines[i].item, RequiredQty(lines[i], orderQty)) && need.1 > 0.0;
        assert i > 0 ==> lines[i] == lines[1..][i - 1];
      }
    }
  }

  lemma NoLines(orderQty: real, w: nat)
    ensures FreshNeeds([], orderQty, w) == []
  {
  }

  lemma {:induction false} FreshNeedsSound(lines: seq<BomLine>, orderQty: real, w: nat)
    ensures GridNeeds(FreshNeeds(lines, orderQty, w))
    ensures DistinctItems(lines) ==> DistinctNeeds(FreshNeeds(lines, orderQty, w))
    decreases |lines|
  {
    hide RequiredQty, OnGrid, FreshNeeds;
    var needs := FreshNeeds(lines, orderQty, w);
    if lines == [] {
      NoLines(orderQty, w);
    } else {
      var rest := FreshNeeds(lines[1..], orderQty, w);
      FreshNeedsStep(lines, orderQty, w);
      FreshNeedsSound(lines[1..], orderQty, w);
      RequiredOnGrid(lines[0], orderQty);
      if DistinctItems(lines) {
        forall k | 0 <= k < |rest|
          ensures rest[k].0 != lines[0].item
        {
          FreshNeedsExactly(lines[1..], orderQty, w, rest[k]);
        }
      }
    }
  }

  /** Everything a BOM line requires is there up to the tolerance of the shortage check. */
  predicate LineWithin(s: Stock, line: BomLine, orderQty: real) {
    RequiredQty(line, orderQty) > 0.0 ==> RequiredQty(line, orderQty) - Available(s, line.item) <= TOLERANCE
  }

  /** The gap between the two checks: readiness rounds the shortage, issuing does not. */
  predicate InGap(s: Stock, line: BomLine, orderQty: real) {
    RequiredQty(line, orderQty) > 0.0 && TOLERANCE < RequiredQty(line, orderQty) - Available(s, line.item) <= 0.0000005
  }

  /** A BOM line is ready exactly when at most half a grid step is lacking. */
  lemma LineReadyExactly(s: Stock, line: BomLine, orderQty: real)
    ensures Shortage(s, line, orderQty) <= 0.0 <==> RequiredQty(line, orderQty) - Available(s, line.item) <= 0.0000005
  {
    hide RequiredQty, Available;
    var x := MaxZero(RequiredQty(line, orderQty) - Available(s, line.item));
    HalfEvenNearest(x * 1000000.0, 0);
    HalfEvenNearest(x * 1000000.0, HalfEven(x * 1000000.0));
  }

  lemma WithinExactly(s: Stock, lines: seq<BomLine>, orderQty: real, w: nat)
    requires NothingReserved(s)
    ensures Within(s, FreshNeeds(lines, orderQty, w)) <==>
            forall i :: 0 <= i < |lines| ==> LineWithin(s, lines[i], orderQty)
  {
    hide RequiredQty, FreshNeeds;
    var needs := FreshNeeds(lines, orderQty, w);
    if Within(s, needs) {
      forall i | 0 <= i < |lines|
        ensures LineWithin(s, lines[i], orderQty)
      {
        var need := (lines[i].item, RequiredQty(lines[i], orderQty));
        FreshNeedsExactly(lines, orderQty, w, need);
        assert Reserved(s, need.0) == 0.0;
      }
    }
    if forall i :: 0 <= i < |lines| ==> LineWithin(s, lines[i], orderQty) {
      forall k | 0 <= k < |needs|
        ensures needs[k].1 <= OnHand(s, needs[k].0) + TOLERANCE
      {
        FreshNeedsExactly(lines, orderQty, w, needs[k]);
        assert Reserved(s, needs[k].0) == 0.0;
      }
    }
  }

  /** For any balances and one line per item: a fresh work order can be issued exactly when
      no line lacks more than the tolerance; so a ready BOM is refused exactly when some line
      lacks more than the tolerance and at most half a grid step. */
  lemma FreshOrderExactly(s: Stock, lines: seq<BomLine>, orderQty: real, w: nat)
    requires DistinctItems(lines) && NothingReserved(s)
    ensures var needs := FreshNeeds(lines, orderQty, w);
            && (NoShortage(s, needs) && Draw(s, needs, w).Ok? <==>
                forall i :: 0 <= i < |lines| ==> LineWithin(s, lines[i], orderQty))
            && (AllReady(s, lines, orderQty) ==>
                  (!(NoShortage(s, needs) && Draw(s, needs, w).Ok?) <==>
                   exists i :: 0 <= i < |lines| && InGap(s, lines[i], orderQty)))
  {
    hide RequiredQty, Draw, NoShortage, FreshNeeds, DistinctItems, DistinctNeeds, GridNeeds, Round6, Shortage;
    var needs := FreshNeeds(lines, orderQty, w);
    FreshNeedsSound(lines, orderQty, w);
    OneLineExactly(s, needs, w);
    WithinExactly(s, lines, orderQty, w);
    if AllReady(s, lines, orderQty) {
      forall i | 0 <= i < |lines|
        ensures LineWithin(s, lines[i], orderQty) <==> !InGap(s, lines[i], orderQty)
      {
        LineReadyExactly(s, lines[i], orderQty);
      }
    }
  }

  lemma HalfStep(x: real, y: real)
    requires OnGrid(x) && OnGrid(y)
    ensures x - y <= 0.0000005 <==> x <= y
  {
  }

  /** On the grid there is no gap. */
  lemma GridHasNoGap(s: Stock, line: BomLine, orderQty: real)
    requires OnGrid(OnHand(s, line.item)) && Reserved(s, line.item) == 0.0
    ensures !InGap(s, line, orderQty)
  {
    hide OnGrid, Round6, RequiredQty;
    RequiredOnGrid(line, orderQty);
    ToleranceIsFine(RequiredQty(line, orderQty), OnHand(s, line.item));
    HalfStep(RequiredQty(line, orderQty), OnHand(s, line.item));
  }

  /** The material line of a BOM line that was issued in full. */
  function FullyIssued(line: BomLine, orderQty: real, w: nat): Material {
    var required := RequiredQty(line, orderQty);
    Material(w, line.item, required, if required > 0.0 then required else 0.0)
  }

  lemma NoneReserved(opening: map<Item, real>, s: Stock)
    requires StockOk(opening, s)
    ensures NothingReserved(s)
  {
  }

  lemma FreshOrderLines(lines: seq<BomLine>, orderQty: real, w: nat)
    ensures |WorkOrderLines(lines, orderQty, w)| == |lines|
  {
  }

  /** Whatever other orders need, a fresh order's needs are its own. */
  lemma FreshOrderNeeds(before: seq<Material>, lines: seq<BomLine>, orderQty: real, w: nat)
    requires lines != [] && forall m :: m in before ==> m.workOrder != w
    ensures var all := before + WorkOrderLines(lines, orderQty, w);
            HasMaterials(all, w) && Needs(all, w) == FreshNeeds(lines, orderQty, w)
  {
    hide Needs, RequiredQty;
    var added := WorkOrderLines(lines, orderQty, w);
    NeedsAppend(before, added, w);
    NeedsNone(before, w);
    assert [] + Needs(added, w) == Needs(added, w);
    assert (before + added)[|before|].workOrder == w;
  }

  lemma FreshOrderIssued(before: seq<Material>, lines: seq<BomLine>, orderQty: real, w: nat)
    ensures var all := MarkIssued(before + WorkOrderLines(lines, orderQty, w), w);
            && |all| == |before| + |lines|
            && forall i :: 0 <= i < |lines| ==> all[|before| + i] == FullyIssued(lines[i], orderQty, w)
  {
    hide RequiredQty, MarkIssued, Remaining;
    var added := WorkOrderLines(lines, orderQty, w);
    forall i | 0 <= i < |lines|
      ensures MarkIssued(before + added, w)[|before| + i] == FullyIssued(lines[i], orderQty, w)
    {
      MarkIssuedAt(before + added, w, |before| + i);
      FreshNeed(lines[i], orderQty, w);
    }
  }

  /** Creates a work order and issues it, from any stock, with one line per item. The issuing
      succeeds exactly when no line lacks more than the tolerance; a BOM that was ready is
      refused exactly when a line falls into the gap between the two checks. */
  method BuildFromStock(server: Server, bom: nat, orderQty: real) returns (w: nat, issued: bool)
    requires server.Inv() && bom in server.boms && orderQty > 0.0 && server.boms[bom].lines != []
    requires DistinctItems(server.boms[bom].lines)
    modifies server
    ensures server.Inv() && w == |old(server.workOrders)| < |server.workOrders|
    ensures server.workOrders[w] ==
            WorkOrder(bom, server.boms[bom].product, orderQty, 0.0, if issued then InProduction else AwaitingMaterials)
    ensures server.purchaseLines == old(server.purchaseLines)
    ensures var lines := server.boms[bom].lines;
            issued <==> forall i :: 0 <= i < |lines| ==> LineWithin(old(server.stock), lines[i], orderQty)
    ensures var lines := server.boms[bom].lines;
            AllReady(old(server.stock), lines, orderQty) ==>
              (!issued <==> exists i :: 0 <= i < |lines| && InGap(old(server.stock), lines[i], orderQty))
    ensures !issued ==> server.stock == old(server.stock)
    ensures |server.materials| == |old(server.materials)| + |server.boms[bom].lines|
    ensures forall i :: 0 <= i < |server.boms[bom].lines| ==>
              server.materials[|old(server.materials)| + i] ==
              (if issued then FullyIssued(server.boms[bom].lines[i], orderQty, w)
               else WorkOrderLines(server.boms[bom].lines, orderQty, w)[i])
  {
    hide StockOk, PurchasesOk, HeadersOk, ProductionOk, SalesOk, FinanceOk, AllReady, DistinctItems, Draw, NoShortage,
         Needs, FreshNeeds, MaterialOk, WorkOrderLines, HasMaterials, MarkIssued, FullyIssued, LineWithin, InGap,
         NothingReserved;
    ghost var lines := server.boms[bom].lines;
    ghost var before := server.materials;
    var created := server.CreateWorkOrderFromBom(bom, orderQty);
    w := created.value;
    NoneReserved(server.opening, server.stock);
    FreshOrderNeeds(before, lines, orderQty, w);
    FreshOrderExactly(server.stock, lines, orderQty, w);
    var r := server.IssueWorkOrderMaterials(w);
    issued := r.Ok?;
    FreshOrderIssued(before, lines, orderQty, w);
    FreshOrderLines(lines, orderQty, w);
  }

  lemma {:induction false} ReceivedOnGrid(lines: seq<PurchaseLine>, item: Item)
    requires forall l :: l in lines ==> OnGrid(l.receivedQty)
    ensures OnGrid(ReceivedOf(lines, item))
    decreases |lines|
  {
    hide OnGrid;
    if lines == [] {
      Round6Facts(0.0);
    } else {
      var last := lines[|lines| - 1];
      assert last in lines;
      ReceivedOnGrid(lines[..|lines| - 1], item);
      GridSums(ReceivedOf(lines[..|lines| - 1], item), last.receivedQty);
    }
  }

  lemma StaysOnGrid(start: Stock, now: Stock, ordered: seq<PurchaseLine>, lines: seq<PurchaseLine>)
    requires GridStock(start) && OnlyReceipts(start, now, lines) && SameOrders(ordered, lines)
    requires forall l :: l in lines ==> OnGrid(l.receivedQty)
    ensures GridStock(now)
  {
    hide OnGrid;
    forall item
      ensures OnGrid(OnHand(now, item)) && OnHand(now, item) >= 0.0 && Reserved(now, item) == 0.0
    {
      ReceivedOnGrid(lines, item);
      ReceivedNonNegative(lines, item);
      assert OnGrid(OnHand(start, item)) && OnHand(start, item) >= 0.0 && Reserved(start, item) == 0.0;
      assert OnHand(now, item) == OnHand(start, item) + ReceivedOf(lines, item);
      GridSums(OnHand(start, item), ReceivedOf(lines, item));
    }
  }

  lemma NoGapOnGrid(s: Stock, lines: seq<BomLine>, orderQty: real)
    requires GridStock(s)
    ensures forall i :: 0 <= i < |lines| ==> !InGap(s, lines[i], orderQty)
  {
    hide OnGrid, RequiredQty, InGap;
    forall i | 0 <= i < |lines|
      ensures !InGap(s, lines[i], orderQty)
    {
      assert OnGrid(OnHand(s, lines[i].item)) && Reserved(s, lines[i].item) == 0.0;
      GridHasNoGap(s, lines[i], orderQty);
    }
  }

  /** End to end, on the grid and with one line per item: order what is short, receive it in
      any pieces and order until every new line is marked as received, and the work order is
      created and issued in full. */
  method OrderReceiveBuild(server: Server, bom: nat, orderQty: real, supplier: Item -> string, codes: nat -> string,
                           receipts: seq<(nat, real)>)
    returns (built: bool, w: nat)
    requires server.Inv() && bom in server.boms && orderQty > 0.0 && server.boms[bom].lines != []
    requires GridStock(server.stock) && GridReceipts(receipts) && DistinctItems(server.boms[bom].lines)
    modifies server
    ensures server.Inv() && |old(server.purchaseLines)| <= |server.purchaseLines|
    ensures built <==>
              && CodesFree(old(server.orderCodes), codes, old(server.stock), server.boms[bom].lines, orderQty, supplier)
              && forall l :: l in server.purchaseLines[|old(server.purchaseLines)|..] ==> l.status.FullyReceived?
    ensures built ==>
              && w < |server.workOrders|
              && server.workOrders[w] == WorkOrder(bom, server.boms[bom].product, orderQty, 0.0, InProduction)
              && |server.materials| == |old(server.materials)| + |server.boms[bom].lines|
              && (forall i :: 0 <= i < |server.boms[bom].lines| ==>
                    server.materials[|old(server.materials)| + i] ==
                      FullyIssued(server.boms[bom].lines[i], orderQty, w))
  {
    hide StockOk, PurchasesOk, HeadersOk, ProductionOk, MaterialsOk, SalesOk, FinanceOk, GridStock, AllReady,
         DistinctItems, RequiredQty, OnGrid, OnlyReceipts, GridReceipts, SameOrders, ShortageLines, InGap, LineWithin,
         CodesFree;
    w := 0;
    var ordered, first := OrderAndReceive(server, bom, orderQty, supplier, codes, receipts);
    var lines := server.purchaseLines[first..];
    built := ordered && forall i :: 0 <= i < |lines| ==> lines[i].status.FullyReceived?;
    if built {
      StaysOnGrid(old(server.stock), server.stock,
                  ShortageLines(old(server.stock), server.boms[bom].lines, orderQty, supplier,
                    |old(server.purchaseOrders)|), lines);
      NoGapOnGrid(server.stock, server.boms[bom].lines, orderQty);
      w, built := BuildFromStock(server, bom, orderQty);
    }
  }

  // ---- The status of a work order ---------------------------------------------------------------------

  datatype WorkCall = Issue | Complete(good: real, scrap: real)

  /** The order has completed what it was opened for. */
  predicate Reached(o: WorkOrder) {
    o.completedQty >= o.orderQty - TOLERANCE
  }

  /** The tables such a call reads and writes. */
  datatype Shop = Shop(stock: Stock, orders: seq<WorkOrder>, materials: seq<Material>)

  function ShopOf(server: Server): Shop
    reads server
  {
    Shop(server.stock, server.workOrders, server.materials)
  }

  /** Whether the server accepts a call in a state of these tables. */
  ghost predicate Accepts(s: Shop, w: nat, call: WorkCall)
    requires w < |s.orders|
  {
    match call
    case Issue =>
      HasMaterials(s.materials, w) && NoShortage(s.stock, Needs(s.materials, w))
        && Draw(s.stock, Needs(s.materials, w), w).Ok?
    case Complete(good, scrap) =>
      && good > 0.0 && scrap >= 0.0 && good <= s.orders[w].orderQty - s.orders[w].completedQty + TOLERANCE
      && forall m :: m in s.materials && m.workOrder == w ==> Supplied(m)
  }

  /** One call: what an accepted one does to the order, and that a refused one does nothing. */
  ghost predicate Called(s: Shop, t: Shop, w: nat, call: WorkCall, accepted: bool)
    requires w < |s.orders|
  {
    && (accepted <==> Accepts(s, w, call))
    && |t.orders| == |s.orders|
    && (forall v :: 0 <= v < |s.orders| && v != w ==> t.orders[v] == s.orders[v])
    && (!accepted ==> t == s)
    && (accepted && call.Issue? ==> t.orders[w].completedQty == s.orders[w].completedQty && !t.orders[w].status.Done?)
    && (accepted && call.Complete? ==>
          && t.orders[w].completedQty == Round6(s.orders[w].completedQty + call.good)
          && (t.orders[w].status.Done? <==> Reached(t.orders[w])))
    && t.orders[w] == s.orders[w].(completedQty := t.orders[w].completedQty, status := t.orders[w].status)
  }

  /** An accepted call leaves the order done exactly when it was a completion that reached the
      ordered quantity; a refused call changes nothing. */
  method CallWorkOrder(server: Server, w: nat, call: WorkCall) returns (accepted: bool)
    requires server.Inv() && w < |server.workOrders|
    modifies server
    ensures server.Inv() && |server.workOrders| == |old(server.workOrders)|
    ensures Called(old(ShopOf(server)), ShopOf(server), w, call, accepted)
    ensures accepted ==> (server.workOrders[w].status.Done? <==> call.Complete? && Reached(server.workOrders[w]))
  {
    hide StockOk, PurchasesOk, HeadersOk, ProductionOk, MaterialsOk, SalesOk, FinanceOk, Round6, Draw, NoShortage,
         Needs, MarkIssued, HasMaterials;
    match call
    case Issue =>
      var r := server.IssueWorkOrderMaterials(w);
      accepted := r.Ok?;
    case Complete(good, scrap) =>
      var r := server.CompleteWorkOrder(w, good, scrap);
      accepted := r.Ok?;
  }

  /** The last accepted call, if any, is the `k`-th. */
  predicate LastAccepted(accepted: seq<bool>, k: nat) {
    k < |accepted| && accepted[k] && forall i :: k < i < |accepted| ==> !accepted[i]
  }

  lemma LastGrows(accepted: seq<bool>, ok: bool)
    ensures forall k: nat :: LastAccepted(accepted + [ok], k) <==>
        if ok then k == |accepted| else LastAccepted(accepted, k)
  {
    var longer := accepted + [ok];
    forall k: nat
      ensures LastAccepted(longer, k) <==> if ok then k == |accepted| else LastAccepted(accepted, k)
    {
      assert longer[|accepted|] == ok;
      assert forall i :: 0 <= i < |accepted| ==> longer[i] == accepted[i];
    }
  }

  /** Any calls on an order, with every state between them: a call is accepted exactly when
      its own condition holds in the state it meets, and in the end the order's status says
      done exactly when the last accepted call was a completion that reached the ordered
      quantity, or, if none was accepted, when it said so before. */
  method CallRepeatedly(server: Server, w: nat, calls: seq<WorkCall>)
    returns (accepted: seq<bool>, ghost states: seq<Shop>)
    requires server.Inv() && w < |server.workOrders|
    modifies server
    ensures server.Inv() && |accepted| == |calls| && |states| == |calls| + 1
    ensures states[0] == old(ShopOf(server)) && states[|calls|] == ShopOf(server)
    ensures forall i :: 0 <= i < |states| ==> w < |states[i].orders|
    ensures forall i :: 0 <= i < |calls| ==> Called(states[i], states[i + 1], w, calls[i], accepted[i])
    ensures w < |server.workOrders|
    ensures forall k: nat :: LastAccepted(accepted, k) ==>
              (server.workOrders[w].status.Done? <==> calls[k].Complete? && Reached(server.workOrders[w]))
    ensures true !in accepted ==> ShopOf(server) == old(ShopOf(server))
  {
    hide StockOk, PurchasesOk, HeadersOk, ProductionOk, MaterialsOk, SalesOk, FinanceOk, Accepts, Round6;
    accepted := [];
    states := [ShopOf(server)];
    for n := 0 to |calls|
      invariant server.Inv() && |accepted| == n && |states| == n + 1
      invariant states[0] == old(ShopOf(server)) && states[n] == ShopOf(server)
      invariant forall i :: 0 <= i < |states| ==> w < |states[i].orders|
      invariant forall i :: 0 <= i < n ==> Called(states[i], states[i + 1], w, calls[i], accepted[i])
      invariant forall k: nat :: LastAccepted(accepted, k) ==>
                  (server.workOrders[w].status.Done? <==> calls[k].Complete? && Reached(server.workOrders[w]))
      invariant true !in accepted ==> ShopOf(server) == old(ShopOf(server))
    {
      ghost var before := accepted;
      var ok := CallWorkOrder(server, w, calls[n]);
      accepted, states := accepted + [ok], states + [ShopOf(server)];
      LastGrows(before, ok);
    }
  }

  lemma NothingRemains(m: Material)
    requires MaterialOk(m) && Supplied(m)
    ensures Remaining(m) <= 0.0
  {
    RemainingIs(m);
  }

  lemma {:induction false} NothingLeft(materials: seq<Material>, w: nat)
    requires forall m :: m in materials && m.workOrder == w ==> MaterialOk(m) && Supplied(m)
    ensures Needs(materials, w) == []
    decreases |materials|
  {
    hide Remaining, MaterialOk, Supplied;
    if materials != [] {
      assert materials[0] in materials;
      if materials[0].workOrder == w {
        NothingRemains(materials[0]);
      }
      NothingLeft(materials[1..], w);
    }
  }

  /** An order completed in full and then issued again: the issue is accepted, moves nothing,
      and the order no longer counts as done. */
  method IssueAfterDone(server: Server, w: nat, good: real, scrap: real) returns (done: bool)
    requires server.Inv() && w < |server.workOrders| && HasMaterials(server.materials, w)
    modifies server
    ensures server.Inv() && |server.workOrders| == |old(server.workOrders)|
    ensures var o := old(server.workOrders[w]);
            done <==>
            && good > 0.0 && scrap >= 0.0 && good <= o.orderQty - o.completedQty + TOLERANCE
            && (forall m :: m in old(server.materials) && m.workOrder == w ==> Supplied(m))
            && Round6(o.completedQty + good) >= o.orderQty - TOLERANCE
    ensures done ==> Reached(server.workOrders[w]) && !server.workOrders[w].status.Done?
    ensures done ==> (server.workOrders[w].status.PartlyDone? <==> server.workOrders[w].completedQty > 0.0)
    ensures done ==>
              var item := FinishedItem(old(server.workOrders[w]).product);
              server.stock == Put(old(server.stock), item, good, FromCompletion(w),
                Round6(OnHand(old(server.stock), item) + good))
  {
    hide StockOk, PurchasesOk, HeadersOk, ProductionOk, SalesOk, FinanceOk, Round6, MarkIssued, HasMaterials;
    var r := server.CompleteWorkOrder(w, good, scrap);
    done := r.Ok? && server.workOrders[w].status.Done?;
    if done {
      NothingLeft(server.materials, w);
      var again := server.IssueWorkOrderMaterials(w);
      assert again.Ok?;
    }
  }

  // ---- Why one line per item and the grid are needed ----------------------------------------------------------------

  /** Two lines of one item: each is ready by itself, together they cannot be issued. */
  lemma RepeatedItemFails(item: Item, w: nat)
    ensures var s := Stock(map[item := Balance(1.0, 0.0)], []);
            var lines := [BomLine(item, 1.0, 0.0), BomLine(item, 1.0, 0.0)];
            && AllReady(s, lines, 1.0)
            && NoShortage(s, Needs(WorkOrderLines(lines, 1.0, w), w))
            && Draw(s, Needs(WorkOrderLines(lines, 1.0, w), w), w).Err?
  {
    var s := Stock(map[item := Balance(1.0, 0.0)], []);
    var line := BomLine(item, 1.0, 0.0);
    var m := Material(w, item, RequiredQty(line, 1.0), 0.0);
    assert WorkOrderLines([line, line], 1.0, w) == [m, m];
    assert RequiredQty(line, 1.0) == 1.0;
    assert Remaining(m) == 1.0;
    assert [m][1..] == [] && [m] + [m] == [m, m];
    NeedsAppend([m], [m], w);
    assert Needs([m], w) == [(item, 1.0)] && Needs([m, m], w) == [(item, 1.0), (item, 1.0)];
    assert [(item, 1.0), (item, 1.0)][1..] == [(item, 1.0)];
    var t := ChangeInventory(s, item, -1.0, FromIssue(w));
    assert t.Ok? && OnHand(t.value, item) == 0.0;
    assert ChangeInventory(t.value, item, -1.0, FromIssue(w)).Err?;
  }

  /** A balance of 0.9999996 for a need of 1: ready, as the shortage rounds to nothing, yet
      refused when issuing. */
  lemma OffGridFails(item: Item, w: nat)
    ensures var s := Stock(map[item := Balance(0.9999996, 0.0)], []);
            var line := BomLine(item, 1.0, 0.0);
            && AllReady(s, [line], 1.0) && InGap(s, line, 1.0)
            && !(NoShortage(s, FreshNeeds([line], 1.0, w)) && Draw(s, FreshNeeds([line], 1.0, w), w).Ok?)
  {
    hide Draw, NoShortage, FreshNeeds;
    var s := Stock(map[item := Balance(0.9999996, 0.0)], []);
    var line := BomLine(item, 1.0, 0.0);
    assert InGap(s, [line][0], 1.0);
    FreshOrderExactly(s, [line], 1.0, w);
  }
}
