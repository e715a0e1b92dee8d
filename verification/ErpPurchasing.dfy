/** What a bill of materials lacks, and the purchase orders made of it: one order for each
    supplier, in the order the suppliers first come up. */
module ErpPurchasing {
  import opened Rounding
  import opened ErpStock
  import opened ErpTables

  datatype Suggestion = Suggestion(item: Item, qty: real)

  function MaxZero(x: real): real {
    if x > 0.0 then x else 0.0
  }

  function Shortage(s: Stock, line: BomLine, orderQty: real): real {
    Round6(MaxZero(RequiredQty(line, orderQty) - Available(s, line.item)))
  }

  /** `bom_readiness`: every line is covered. */
  predicate AllReady(s: Stock, lines: seq<BomLine>, orderQty: real) {
    forall i :: 0 <= i < |lines| ==> Shortage(s, lines[i], orderQty) <= 0.0
  }

  /** One suggestion for each BOM line that is short. */
  function Suggestions(s: Stock, lines: seq<BomLine>, orderQty: real): seq<Suggestion> {
    if lines == [] then []
    else
      var n := |lines| - 1;
      var shortage := Shortage(s, lines[n], orderQty);
      Suggestions(s, lines[..n], orderQty) + (if shortage > 0.0 then [Suggestion(lines[n].item, shortage)] else [])
  }

  /** The suppliers in order of first appearance. */
  function Suppliers(suggestions: seq<Suggestion>, supplier: Item -> string): seq<string> {
    if suggestions == [] then []
    else
      var n := |suggestions| - 1;
      var known := Suppliers(suggestions[..n], supplier);
      var name := supplier(suggestions[n].item);
      if name in known then known else known + [name]
  }

  /** One supplier's suggestions, in their order. */
  function RowsFor(suggestions: seq<Suggestion>, supplier: Item -> string, name: string): seq<Suggestion> {
    if suggestions == [] then []
    else
      var n := |suggestions| - 1;
      RowsFor(suggestions[..n], supplier, name) +
        (if supplier(suggestions[n].item) == name then [suggestions[n]] else [])
  }

  function LinesOf(po: nat, rows: seq<Suggestion>): seq<PurchaseLine> {
    seq(|rows|, i requires 0 <= i < |rows| => PurchaseLine(po, rows[i].item, rows[i].qty, 0.0, AwaitingReceipt))
  }

  /** The lines of the orders numbered from `po` on, one order for each name. */
  function OrderLines(suggestions: seq<Suggestion>, supplier: Item -> string, names: seq<string>,
                      po: nat): seq<PurchaseLine> {
    if names == [] then []
    else
      var n := |names| - 1;
      OrderLines(suggestions, supplier, names[..n], po) + LinesOf(po + n, RowsFor(suggestions, supplier, names[n]))
  }

  function ShortageLines(s: Stock, lines: seq<BomLine>, orderQty: real, supplier: Item -> string,
                         po: nat): seq<PurchaseLine> {
    var suggestions := Suggestions(s, lines, orderQty);
    OrderLines(suggestions, supplier, Suppliers(suggestions, supplier), po)
  }

  // ---- Nothing suggested is lost, doubled or changed ---------------------------------------

  lemma {:induction false} RowsForExactly(suggestions: seq<Suggestion>, supplier: Item -> string, name: string,
                                          x: Suggestion)
    ensures x in RowsFor(suggestions, supplier, name) <==> x in suggestions && supplier(x.item) == name
    decreases |suggestions|
  {
    if suggestions != [] {
      var n := |suggestions| - 1;
      assert suggestions == suggestions[..n] + [suggestions[n]];
      RowsForExactly(suggestions[..n], supplier, name, x);
    }
  }

  ghost predicate Served(suggestions: seq<Suggestion>, supplier: Item -> string, name: string) {
    exists x :: x in suggestions && supplier(x.item) == name
  }

  lemma {:induction false} SuppliersDistinct(suggestions: seq<Suggestion>, supplier: Item -> string)
    ensures var names := Suppliers(suggestions, supplier);
            && (forall i, j :: 0 <= i < j < |names| ==> names[i] != names[j])
            && (forall x :: x in suggestions ==> supplier(x.item) in names)
            && (forall name :: name in names ==> Served(suggestions, supplier, name))
    decreases |suggestions|
  {
    if suggestions != [] {
      var n := |suggestions| - 1;
      assert suggestions == suggestions[..n] + [suggestions[n]];
      SuppliersDistinct(suggestions[..n], supplier);
    }
  }

  /** Every line carries a suggestion of its order's supplier and is untouched. */
  lemma {:induction false} OrderLinesSound(suggestions: seq<Suggestion>, supplier: Item -> string, names: seq<string>,
                                           po: nat)
    ensures forall l :: l in OrderLines(suggestions, supplier, names, po) ==>
              && po <= l.po < po + |names| && supplier(l.item) == names[l.po - po]
              && Suggestion(l.item, l.orderQty) in suggestions
              && l.receivedQty == 0.0 && l.status.AwaitingReceipt?
    decreases |names|
  {
    if names != [] {
      var n := |names| - 1;
      OrderLinesSound(suggestions, supplier, names[..n], po);
      var rows := RowsFor(suggestions, supplier, names[n]);
      forall l | l in LinesOf(po + n, rows)
        ensures supplier(l.item) == names[n] && Suggestion(l.item, l.orderQty) in suggestions
      {
        var i :| 0 <= i < |rows| && LinesOf(po + n, rows)[i] == l;
        RowsForExactly(suggestions, supplier, names[n], rows[i]);
      }
    }
  }

  lemma {:induction false} OrderLinesComplete(suggestions: seq<Suggestion>, supplier: Item -> string,
                                              names: seq<string>, po: nat, x: Suggestion)
    returns (k: nat)
    requires x in suggestions && supplier(x.item) in names
    ensures k < |OrderLines(suggestions, supplier, names, po)|
    ensures OrderLines(suggestions, supplier, names, po)[k].item == x.item
    ensures OrderLines(suggestions, supplier, names, po)[k].orderQty == x.qty
    decreases |names|
  {
    var n := |names| - 1;
    if supplier(x.item) == names[n] {
      RowsForExactly(suggestions, supplier, names[n], x);
      var i :| 0 <= i < |RowsFor(suggestions, supplier, names[n])| && RowsFor(suggestions, supplier, names[n])[i] == x;
      k := |OrderLines(suggestions, supplier, names[..n], po)| + i;
    } else {
      k := OrderLinesComplete(suggestions, supplier, names[..n], po, x);
    }
  }

  function SuggestedOf(suggestions: seq<Suggestion>, item: Item): real {
    if suggestions == [] then 0.0
    else SuggestedOf(suggestions[..|suggestions| - 1], item) +
         (if suggestions[|suggestions| - 1].item == item then suggestions[|suggestions| - 1].qty else 0.0)
  }

  function OrderedOf(lines: seq<PurchaseLine>, item: Item): real {
    if lines == [] then 0.0
    else OrderedOf(lines[..|lines| - 1], item) +
         (if lines[|lines| - 1].item == item then lines[|lines| - 1].orderQty else 0.0)
  }

  lemma {:induction false} OrderedAppend(a: seq<PurchaseLine>, po: nat, rows: seq<Suggestion>, item: Item)
    ensures OrderedOf(a + LinesOf(po, rows), item) == OrderedOf(a, item) + SuggestedOf(rows, item)
    decreases |rows|
  {
    if rows == [] {
      assert a + LinesOf(po, rows) == a;
    } else {
      var n := |rows| - 1;
      var whole := a + LinesOf(po, rows);
      assert whole[..|whole| - 1] == a + LinesOf(po, rows[..n]);
      OrderedAppend(a, po, rows[..n], item);
    }
  }

  lemma {:induction false} SuggestedSplit(suggestions: seq<Suggestion>, supplier: Item -> string, name: string,
                                          item: Item)
    ensures SuggestedOf(RowsFor(suggestions, supplier, name), item) ==
            if supplier(item) == name then SuggestedOf(suggestions, item) else 0.0
    decreases |suggestions|
  {
    if suggestions != [] {
      var n := |suggestions| - 1;
      SuggestedSplit(suggestions[..n], supplier, name, item);
      var rows := RowsFor(suggestions[..n], supplier, name);
      assert (rows + [suggestions[n]])[..|rows|] == rows;
      assert rows + [] == rows;
    }
  }

  lemma {:induction false} OrderedByNames(suggestions: seq<Suggestion>, supplier: Item -> string, names: seq<string>,
                                          po: nat, item: Item)
    requires forall i, j :: 0 <= i < j < |names| ==> names[i] != names[j]
    ensures OrderedOf(OrderLines(suggestions, supplier, names, po), item) ==
            if supplier(item) in names then SuggestedOf(suggestions, item) else 0.0
    decreases |names|
  {
    if names != [] {
      var n := |names| - 1;
      OrderedByNames(suggestions, supplier, names[..n], po, item);
      SuggestedSplit(suggestions, supplier, names[n], item);
      OrderedAppend(OrderLines(suggestions, supplier, names[..n], po), po + n, RowsFor(suggestions, supplier, names[n]),
        item);
      assert names == names[..n] + [names[n]];
    }
  }

  lemma {:induction false} SuggestedNone(suggestions: seq<Suggestion>, item: Item)
    requires forall x :: x in suggestions ==> x.item != item
    ensures SuggestedOf(suggestions, item) == 0.0
    decreases |suggestions|
  {
    if suggestions != [] {
      assert suggestions[|suggestions| - 1] in suggestions;
      SuggestedNone(suggestions[..|suggestions| - 1], item);
    }
  }

  /** The orders together ask for exactly the shortage of every item. */
  lemma OrderedIsSuggested(s: Stock, lines: seq<BomLine>, orderQty: real, supplier: Item -> string, po: nat, item: Item)
    ensures OrderedOf(ShortageLines(s, lines, orderQty, supplier, po), item) ==
        SuggestedOf(Suggestions(s, lines, orderQty), item)
  {
    hide Shortage;
    var suggestions := Suggestions(s, lines, orderQty);
    SuppliersDistinct(suggestions, supplier);
    OrderedByNames(suggestions, supplier, Suppliers(suggestions, supplier), po, item);
    if supplier(item) !in Suppliers(suggestions, supplier) {
      SuggestedNone(suggestions, item);
    }
  }

  lemma {:induction false} SuggestionsExactly(s: Stock, lines: seq<BomLine>, orderQty: real, x: Suggestion)
    ensures x in Suggestions(s, lines, orderQty) <==>
            exists i :: 0 <= i < |lines| && lines[i].item == x.item && x.qty == Shortage(s, lines[i], orderQty) > 0.0
    decreases |lines|
  {
    hide Shortage;
    if lines != [] {
      var n := |lines| - 1;
      SuggestionsExactly(s, lines[..n], orderQty, x);
      if i :| 0 <= i < n && lines[..n][i].item == x.item && x.qty == Shortage(s, lines[..n][i], orderQty) > 0.0 {
        assert lines[i] == lines[..n][i];
      }
      if i :| 0 <= i < |lines| && lines[i].item == x.item && x.qty == Shortage(s, lines[i], orderQty) > 0.0 {
        assert i < n ==> lines[..n][i] == lines[i];
      }
    }
  }

  /** A short BOM line is ordered for its whole shortage. */
  lemma ShortLineOrdered(s: Stock, lines: seq<BomLine>, orderQty: real, supplier: Item -> string, po: nat, i: nat)
    returns (k: nat)
    requires i < |lines| && Shortage(s, lines[i], orderQty) > 0.0
    ensures k < |ShortageLines(s, lines, orderQty, supplier, po)|
    ensures ShortageLines(s, lines, orderQty, supplier, po)[k].item == lines[i].item
    ensures ShortageLines(s, lines, orderQty, supplier, po)[k].orderQty == Shortage(s, lines[i], orderQty)
  {
    hide Shortage, Suggestions;
    var x := Suggestion(lines[i].item, Shortage(s, lines[i], orderQty));
    var suggestions := Suggestions(s, lines, orderQty);
    SuggestionsExactly(s, lines, orderQty, x);
    SuppliersDistinct(suggestions, supplier);
    k := OrderLinesComplete(suggestions, supplier, Suppliers(suggestions, supplier), po, x);
  }

  /** What a BOM line asks for an order of this size, losses included. */
  function Demand(line: BomLine, orderQty: real): real {
    line.qtyPer * orderQty * (1.0 + line.lossRate)
  }

  /** What a BOM line requires is that demand, rounded. */
  lemma RequiredExactly(line: BomLine, orderQty: real, qty: real)
    ensures qty == RequiredQty(line, orderQty) <==> Rounded(qty, Demand(line, orderQty))
  {
    hide Rounded, Round6;
    RoundedExactly(qty, Demand(line, orderQty));
  }

  /** The rounded demand less what is on hand and not reserved, rounded again. */
  ghost predicate Lacks(s: Stock, line: BomLine, orderQty: real, qty: real) {
    exists required :: Rounded(required, Demand(line, orderQty))
                       && Rounded(qty, required - (OnHand(s, line.item) - Reserved(s, line.item)))
  }

  lemma RoundsToZero()
    ensures Round6(0.0) == 0.0
  {
  }

  /** A line is short of an amount exactly when it lacks it; what it is short of is unique. */
  lemma ShortageExactly(s: Stock, line: BomLine, orderQty: real, qty: real)
    requires qty > 0.0
    ensures Shortage(s, line, orderQty) == qty <==> Lacks(s, line, orderQty, qty)
  {
    hide Round6, Rounded, RequiredQty, Demand;
    var required := RequiredQty(line, orderQty);
    var x := required - Available(s, line.item);
    RequiredExactly(line, orderQty, required);
    RoundedExactly(qty, x);
    if x <= 0.0 {
      Round6Monotone(x, 0.0);
      Round6Facts(0.0);
      RoundsToZero();
    }
    if r :| Rounded(r, Demand(line, orderQty)) && Rounded(qty, r - (OnHand(s, line.item) - Reserved(s, line.item))) {
      RequiredExactly(line, orderQty, r);
    }
  }

  /** The new order lines are what the BOM lines lack: each is lacked by a BOM line of its item
      and everything lacked is on some line. */
  ghost predicate OrdersLacking(ordered: seq<PurchaseLine>, s: Stock, lines: seq<BomLine>, orderQty: real) {
    && (forall l :: l in ordered ==>
          && l.orderQty > 0.0 && l.receivedQty == 0.0 && l.status.AwaitingReceipt?
          && exists b :: b in lines && b.item == l.item && Lacks(s, b, orderQty, l.orderQty))
    && (forall b, qty :: b in lines && qty > 0.0 && Lacks(s, b, orderQty, qty) ==>
          exists l :: l in ordered && l.item == b.item && l.orderQty == qty)
  }

  lemma OrdersWhatIsLacking(s: Stock, lines: seq<BomLine>, orderQty: real, supplier: Item -> string, po: nat)
    ensures OrdersLacking(ShortageLines(s, lines, orderQty, supplier, po), s, lines, orderQty)
  {
    hide Shortage, Suggestions, Lacks;
    var ordered := ShortageLines(s, lines, orderQty, supplier, po);
    var suggestions := Suggestions(s, lines, orderQty);
    OrderLinesSound(suggestions, supplier, Suppliers(suggestions, supplier), po);
    forall l | l in ordered
      ensures l.orderQty > 0.0 && exists b :: b in lines && b.item == l.item && Lacks(s, b, orderQty, l.orderQty)
    {
      SuggestionsExactly(s, lines, orderQty, Suggestion(l.item, l.orderQty));
      var i :| 0 <= i < |lines| && lines[i].item == l.item && l.orderQty == Shortage(s, lines[i], orderQty) > 0.0;
      ShortageExactly(s, lines[i], orderQty, l.orderQty);
      assert lines[i] in lines;
    }
    forall b, qty | b in lines && qty > 0.0 && Lacks(s, b, orderQty, qty)
      ensures exists l :: l in ordered && l.item == b.item && l.orderQty == qty
    {
      var i :| 0 <= i < |lines| && lines[i] == b;
      ShortageExactly(s, b, orderQty, qty);
      var k := ShortLineOrdered(s, lines, orderQty, supplier, po, i);
      assert ordered[k] in ordered;
    }
  }

  /** Ordered quantities are positive multiples of the grid step. */
  lemma ShortagesOnGrid(s: Stock, lines: seq<BomLine>, orderQty: real, supplier: Item -> string, po: nat)
    ensures forall l :: l in ShortageLines(s, lines, orderQty, supplier, po) ==> OnGrid(l.orderQty) && l.orderQty > 0.0
  {
    hide OnGrid, Round6, Suggestions, RequiredQty;
    var suggestions := Suggestions(s, lines, orderQty);
    OrderLinesSound(suggestions, supplier, Suppliers(suggestions, supplier), po);
    forall l | l in ShortageLines(s, lines, orderQty, supplier, po)
      ensures OnGrid(l.orderQty) && l.orderQty > 0.0
    {
      SuggestionsExactly(s, lines, orderQty, Suggestion(l.item, l.orderQty));
      var i :| 0 <= i < |lines| && lines[i].item == l.item && l.orderQty == Shortage(s, lines[i], orderQty) > 0.0;
      Round6Facts(MaxZero(RequiredQty(lines[i], orderQty) - Available(s, lines[i].item)));
    }
  }

  lemma ShortageLinesFresh(s: Stock, lines: seq<BomLine>, orderQty: real, supplier: Item -> string, po: nat)
    ensures var names := Suppliers(Suggestions(s, lines, orderQty), supplier);
            forall l :: l in ShortageLines(s, lines, orderQty, supplier, po) ==>
              l.receivedQty == 0.0 && l.status.AwaitingReceipt? && po <= l.po < po + |names|
  {
    hide Suggestions;
    var suggestions := Suggestions(s, lines, orderQty);
    OrderLinesSound(suggestions, supplier, Suppliers(suggestions, supplier), po);
  }

  lemma NoOrderLines(suggestions: seq<Suggestion>, supplier: Item -> string, po: nat)
    ensures OrderLines(suggestions, supplier, [], po) == []
  {
  }

  lemma OrderLinesStep(suggestions: seq<Suggestion>, supplier: Item -> string, names: seq<string>, k: nat, po: nat)
    requires k < |names|
    ensures OrderLines(suggestions, supplier, names[..k + 1], po) ==
            OrderLines(suggestions, supplier, names[..k], po) +
              LinesOf(po + k, RowsFor(suggestions, supplier, names[k]))
  {
    assert names[..k + 1][..k] == names[..k];
  }

  /** Every new order has at least one line. */
  lemma {:induction false} OrdersNotEmpty(suggestions: seq<Suggestion>, supplier: Item -> string, names: seq<string>,
                                          po: nat, k: nat)
    requires k < |names| && Served(suggestions, supplier, names[k])
    ensures HasLine(OrderLines(suggestions, supplier, names, po), po + k)
    decreases |names|
  {
    var n := |names| - 1;
    if k == n {
      var x :| x in suggestions && supplier(x.item) == names[k];
      var rows := RowsFor(suggestions, supplier, names[n]);
      RowsForExactly(suggestions, supplier, names[n], x);
      var i :| 0 <= i < |rows| && rows[i] == x;
      assert LinesOf(po + n, rows)[i] in OrderLines(suggestions, supplier, names, po);
    } else {
      OrdersNotEmpty(suggestions, supplier, names[..n], po, k);
      var l :| l in OrderLines(suggestions, supplier, names[..n], po) && l.po == po + k;
      assert l in OrderLines(suggestions, supplier, names, po);
    }
  }
}
