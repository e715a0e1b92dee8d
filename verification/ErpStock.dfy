/** Stock balances and the transaction ledger behind them: chaining, non-negativity and
    how far rounding may let the balance drift from the ledger's sum. */
module ErpStock {
  import opened Wrappers
  import opened Rounding

  type Item = string

  /** Which document moved the stock. */
  datatype Source =
    | FromPurchase(line: nat)
    | FromCount
    | FromIssue(workOrder: nat)
    | FromCompletion(workOrder: nat)
    | FromShipment(order: nat)

  datatype Txn = Txn(item: Item, source: Source, qty: real, before: real, after: real)

  datatype Balance = Balance(onHand: real, reserved: real)

  datatype Stock = Stock(balances: map<Item, Balance>, txns: seq<Txn>)

  function OnHand(s: Stock, item: Item): real {
    if item in s.balances then s.balances[item].onHand else 0.0
  }

  function Reserved(s: Stock, item: Item): real {
    if item in s.balances then s.balances[item].reserved else 0.0
  }

  function Available(s: Stock, item: Item): real {
    OnHand(s, item) - Reserved(s, item)
  }

  /** Writes the balance row and its transaction row. */
  function Put(s: Stock, item: Item, qty: real, source: Source, after: real): Stock {
    Stock(s.balances[item := Balance(after, Reserved(s, item))],
          s.txns + [Txn(item, source, qty, OnHand(s, item), after)])
  }

  /** `change_inventory`: rounds the new balance and refuses a negative one. */
  function ChangeInventory(s: Stock, item: Item, delta: real, source: Source): Result<Stock> {
    var after := Round6(OnHand(s, item) + delta);
    if after < -TOLERANCE then Err("库存不足") else Ok(Put(s, item, delta, source, after))
  }

  /** A purchase receipt adds without rounding. */
  function Receive(s: Stock, item: Item, qty: real, line: nat): Stock {
    Put(s, item, qty, FromPurchase(line), OnHand(s, item) + qty)
  }

  // ---- The ledger -----------------------------------------------------------------------

  ghost function Opening(opening: map<Item, real>, item: Item): real {
    if item in opening then opening[item] else 0.0
  }

  /** The balance the ledger shows for an item. */
  ghost function Shown(opening: map<Item, real>, txns: seq<Txn>, item: Item): real {
    if txns == [] then Opening(opening, item)
    else if txns[|txns| - 1].item == item then txns[|txns| - 1].after
    else Shown(opening, txns[..|txns| - 1], item)
  }

  /** A row's own arithmetic. */
  predicate RowOk(t: Txn) {
    && t.after >= 0.0
    && if t.source.FromPurchase? then t.after == t.before + t.qty && t.qty > 0.0
       else t.after == Round6(t.before + t.qty)
  }

  ghost predicate LedgerOk(opening: map<Item, real>, txns: seq<Txn>) {
    txns == [] ||
    var n := |txns| - 1;
    && LedgerOk(opening, txns[..n])
    && txns[n].before == Shown(opening, txns[..n], txns[n].item)
    && RowOk(txns[n])
  }

  ghost predicate StockOk(opening: map<Item, real>, s: Stock) {
    && (forall item :: Opening(opening, item) >= 0.0)
    && LedgerOk(opening, s.txns)
    && (forall item :: OnHand(s, item) == Shown(opening, s.txns, item))
    && (forall item :: Reserved(s, item) == 0.0)
  }

  lemma PutKeeps(opening: map<Item, real>, s: Stock, item: Item, qty: real, source: Source, after: real)
    requires StockOk(opening, s) && RowOk(Txn(item, source, qty, OnHand(s, item), after))
    ensures StockOk(opening, Put(s, item, qty, source, after))
  {
    hide Round6;
    var e := Put(s, item, qty, source, after);
    assert e.txns[..|s.txns|] == s.txns;
    forall x
      ensures OnHand(e, x) == Shown(opening, e.txns, x) && Reserved(e, x) == 0.0
    {
      assert OnHand(s, x) == Shown(opening, s.txns, x) && Reserved(s, x) == 0.0;
    }
  }

  /** A balance that passes the check is not negative: the tolerance is finer than rounding. */
  lemma NotNegative(x: real)
    ensures Round6(x) < -TOLERANCE <==> Round6(x) < 0.0
    ensures Round6(x) < 0.0 <==> x < -0.0000005
  {
    Round6Facts(x);
    ToleranceIsFine(0.0, Round6(x));
    HalfEvenNearest(x * 1000000.0, HalfEven(x * 1000000.0));
  }

  lemma ChangeKeeps(opening: map<Item, real>, s: Stock, item: Item, delta: real, source: Source)
    requires StockOk(opening, s) && !source.FromPurchase?
    ensures var r := ChangeInventory(s, item, delta, source);
            && (r.Ok? ==> StockOk(opening, r.value))
            && (r.Err? <==> Round6(OnHand(s, item) + delta) < 0.0)
  {
    hide Round6;
    var after := Round6(OnHand(s, item) + delta);
    NotNegative(OnHand(s, item) + delta);
    if after >= 0.0 {
      PutKeeps(opening, s, item, delta, source, after);
    }
  }

  lemma {:induction false} ShownNotNegative(opening: map<Item, real>, txns: seq<Txn>, item: Item)
    requires LedgerOk(opening, txns) && Opening(opening, item) >= 0.0
    ensures Shown(opening, txns, item) >= 0.0
    decreases |txns|
  {
    if txns != [] && txns[|txns| - 1].item != item {
      ShownNotNegative(opening, txns[..|txns| - 1], item);
    }
  }

  /** On-hand never goes below zero, despite the tolerance. */
  lemma BalanceNotNegative(opening: map<Item, real>, s: Stock, item: Item)
    requires StockOk(opening, s)
    ensures OnHand(s, item) >= 0.0
  {
    ShownNotNegative(opening, s.txns, item);
  }

  lemma ReceiveKeeps(opening: map<Item, real>, s: Stock, item: Item, qty: real, line: nat)
    requires StockOk(opening, s) && qty > 0.0
    ensures StockOk(opening, Receive(s, item, qty, line))
  {
    BalanceNotNegative(opening, s, item);
    PutKeeps(opening, s, item, qty, FromPurchase(line), OnHand(s, item) + qty);
  }

  // ---- Chaining ---------------------------------------------------------------------------

  lemma {:induction false} LedgerPrefix(opening: map<Item, real>, txns: seq<Txn>, n: nat)
    requires LedgerOk(opening, txns) && n <= |txns|
    ensures LedgerOk(opening, txns[..n])
    decreases |txns|
  {
    if n < |txns| {
      LedgerPrefix(opening, txns[..|txns| - 1], n);
      assert txns[..|txns| - 1][..n] == txns[..n];
    } else {
      assert txns[..n] == txns;
    }
  }

  lemma {:induction false} ShownSince(opening: map<Item, real>, txns: seq<Txn>, i: nat, item: Item)
    requires i <= |txns| && forall k :: i <= k < |txns| ==> txns[k].item != item
    ensures Shown(opening, txns, item) == Shown(opening, txns[..i], item)
    decreases |txns|
  {
    if i == |txns| {
      assert txns[..i] == txns;
    } else {
      ShownSince(opening, txns[..|txns| - 1], i, item);
      assert txns[..|txns| - 1][..i] == txns[..i];
    }
  }

  /** A row starts at what the rows before it show. */
  lemma RowStarts(opening: map<Item, real>, txns: seq<Txn>, i: nat)
    requires LedgerOk(opening, txns) && i < |txns|
    ensures txns[i].before == Shown(opening, txns[..i], txns[i].item)
  {
    hide RowOk;
    LedgerPrefix(opening, txns, i + 1);
    assert txns[..i + 1][..i] == txns[..i];
  }

  /** A row's end is shown until the item's next row. */
  lemma RowShown(opening: map<Item, real>, txns: seq<Txn>, i: nat, j: nat)
    requires i < j <= |txns| && forall k :: i < k < j ==> txns[k].item != txns[i].item
    ensures Shown(opening, txns[..j], txns[i].item) == txns[i].after
  {
    ShownSince(opening, txns[..j], i + 1, txns[i].item);
    assert txns[..j][..i + 1] == txns[..i + 1];
    assert txns[..i + 1][..i] == txns[..i];
  }

  /** The rows of an item chain: a row starts where the item's previous row ended. */
  lemma NextRow(opening: map<Item, real>, txns: seq<Txn>, i: nat, j: nat)
    requires LedgerOk(opening, txns) && i < j < |txns| && txns[j].item == txns[i].item
    requires forall k :: i < k < j ==> txns[k].item != txns[i].item
    ensures txns[j].before == txns[i].after
  {
    hide LedgerOk, Shown;
    RowStarts(opening, txns, j);
    RowShown(opening, txns, i, j);
  }

  /** An item's first row starts at the opening balance. */
  lemma FirstRow(opening: map<Item, real>, txns: seq<Txn>, i: nat)
    requires LedgerOk(opening, txns) && i < |txns|
    requires forall k :: 0 <= k < i ==> txns[k].item != txns[i].item
    ensures txns[i].before == Opening(opening, txns[i].item)
  {
    hide LedgerOk;
    RowStarts(opening, txns, i);
    ShownSince(opening, txns[..i], 0, txns[i].item);
    assert txns[..i][..0] == [];
  }

  /** An item's last row ends at what is on hand. */
  lemma LastRow(opening: map<Item, real>, s: Stock, i: nat)
    requires StockOk(opening, s) && i < |s.txns|
    requires forall k :: i < k < |s.txns| ==> s.txns[k].item != s.txns[i].item
    ensures OnHand(s, s.txns[i].item) == s.txns[i].after
  {
    hide LedgerOk, Shown;
    RowShown(opening, s.txns, i, |s.txns|);
    assert s.txns[..|s.txns|] == s.txns;
  }

  // ---- Drift ------------------------------------------------------------------------------

  /** The sum of an item's quantities. */
  function Moved(txns: seq<Txn>, item: Item): real {
    if txns == [] then 0.0
    else Moved(txns[..|txns| - 1], item) + (if txns[|txns| - 1].item == item then txns[|txns| - 1].qty else 0.0)
  }

  /** How many of an item's rows were rounded. */
  ghost function RoundedRows(txns: seq<Txn>, item: Item): nat {
    if txns == [] then 0
    else RoundedRows(txns[..|txns| - 1], item) +
         (if txns[|txns| - 1].item == item && !txns[|txns| - 1].source.FromPurchase? then 1 else 0)
  }

  /** The balance strays from opening plus movements by at most half a grid step a rounded row. */
  lemma {:induction false} DriftIsBounded(opening: map<Item, real>, txns: seq<Txn>, item: Item)
    requires LedgerOk(opening, txns)
    ensures var drift := Shown(opening, txns, item) - Opening(opening, item) - Moved(txns, item);
            && drift <= 0.0000005 * RoundedRows(txns, item) as real
            && -drift <= 0.0000005 * RoundedRows(txns, item) as real
    decreases |txns|
  {
    hide Round6;
    if txns != [] {
      var t := txns[|txns| - 1];
      DriftIsBounded(opening, txns[..|txns| - 1], item);
      Round6Facts(t.before + t.qty);
    }
  }

  /** A row of `item` that rounding moved. */
  predicate Strays(t: Txn, item: Item) {
    t.item == item && t.after != t.before + t.qty
  }

  ghost predicate Exact(opening: map<Item, real>, txns: seq<Txn>, item: Item) {
    Shown(opening, txns, item) == Opening(opening, item) + Moved(txns, item)
  }

  ghost predicate AlwaysExact(opening: map<Item, real>, txns: seq<Txn>, item: Item) {
    forall n :: 0 <= n <= |txns| ==> Exact(opening, txns[..n], item)
  }

  ghost predicate NeverStrays(txns: seq<Txn>, item: Item) {
    forall t :: t in txns ==> !Strays(t, item)
  }

  lemma AlwaysExactGrows(opening: map<Item, real>, txns: seq<Txn>, item: Item)
    requires txns != []
    ensures AlwaysExact(opening, txns, item) <==>
            AlwaysExact(opening, txns[..|txns| - 1], item) && Exact(opening, txns, item)
  {
    hide Exact;
    var prefix := txns[..|txns| - 1];
    forall k | 0 <= k <= |prefix|
      ensures prefix[..k] == txns[..k]
    {
    }
    assert txns[..|txns|] == txns;
    if AlwaysExact(opening, txns, item) {
      assert Exact(opening, txns[..|txns|], item);
      forall k | 0 <= k <= |prefix|
        ensures Exact(opening, prefix[..k], item)
      {
        assert Exact(opening, txns[..k], item);
      }
    }
  }

  lemma NeverStraysGrows(txns: seq<Txn>, t: Txn, item: Item)
    ensures NeverStrays(txns + [t], item) <==> NeverStrays(txns, item) && !Strays(t, item)
  {
    assert t in txns + [t] && forall x :: x in txns + [t] <==> x in txns || x == t;
  }

  lemma EmptyExact(opening: map<Item, real>, item: Item)
    ensures AlwaysExact(opening, [], item) && NeverStrays([], item) && Exact(opening, [], item)
  {
  }

  lemma ExactGrows(opening: map<Item, real>, txns: seq<Txn>, item: Item)
    requires LedgerOk(opening, txns) && txns != [] && Exact(opening, txns[..|txns| - 1], item)
    ensures Exact(opening, txns, item) <==> !Strays(txns[|txns| - 1], item)
  {
    hide RowOk;
  }

  lemma LedgerShorter(opening: map<Item, real>, txns: seq<Txn>)
    requires LedgerOk(opening, txns) && txns != []
    ensures LedgerOk(opening, txns[..|txns| - 1])
  {
  }

  /** The balance equals opening plus movements after every row exactly when no row of the
      item was moved by rounding. */
  lemma {:induction false} NoDriftExactly(opening: map<Item, real>, txns: seq<Txn>, item: Item)
    requires LedgerOk(opening, txns)
    ensures AlwaysExact(opening, txns, item) <==> NeverStrays(txns, item)
    ensures NeverStrays(txns, item) ==> Exact(opening, txns, item)
    decreases |txns|
  {
    hide LedgerOk, AlwaysExact, NeverStrays, Strays, Exact;
    if txns == [] {
      EmptyExact(opening, item);
    } else {
      var prefix, t := txns[..|txns| - 1], txns[|txns| - 1];
      assert txns == prefix + [t];
      LedgerShorter(opening, txns);
      NoDriftExactly(opening, prefix, item);
      AlwaysExactGrows(opening, txns, item);
      NeverStraysGrows(prefix, t, item);
      if NeverStrays(prefix, item) {
        ExactGrows(opening, txns, item);
      }
    }
  }

  /** Rounding moves a row exactly when it books a rounded change onto an off-grid sum. */
  lemma {:induction false} StraysExactly(opening: map<Item, real>, txns: seq<Txn>, t: Txn, item: Item)
    requires LedgerOk(opening, txns) && t in txns
    ensures Strays(t, item) <==> t.item == item && !t.source.FromPurchase? && !OnGrid(t.before + t.qty)
    decreases |txns|
  {
    if t == txns[|txns| - 1] {
      Round6Facts(t.before + t.qty);
    } else {
      StraysExactly(opening, txns[..|txns| - 1], t, item);
    }
  }

  /** On the grid there is no drift at all. */
  lemma {:induction false} GridHasNoDrift(opening: map<Item, real>, txns: seq<Txn>, item: Item)
    requires LedgerOk(opening, txns) && OnGrid(Opening(opening, item))
    requires forall k :: 0 <= k < |txns| && txns[k].item == item ==> OnGrid(txns[k].qty)
    ensures Shown(opening, txns, item) == Opening(opening, item) + Moved(txns, item)
    ensures OnGrid(Shown(opening, txns, item))
    decreases |txns|
  {
    hide Round6, OnGrid;
    if txns != [] {
      var t := txns[|txns| - 1];
      GridHasNoDrift(opening, txns[..|txns| - 1], item);
      if t.item == item {
        Round6Facts(t.before + t.qty);
        GridSums(t.before, t.qty);
      }
    }
  }

  // ---- What one document moved --------------------------------------------------------------

  ghost function Flow(txns: seq<Txn>, source: Source): real {
    if txns == [] then 0.0
    else Flow(txns[..|txns| - 1], source) + (if txns[|txns| - 1].source == source then txns[|txns| - 1].qty else 0.0)
  }

  /** The part of it that concerns one item. */
  ghost function FlowOf(txns: seq<Txn>, source: Source, item: Item): real {
    if txns == [] then 0.0
    else
      var t := txns[|txns| - 1];
      FlowOf(txns[..|txns| - 1], source, item) + (if t.source == source && t.item == item then t.qty else 0.0)
  }

  lemma FlowGrows(txns: seq<Txn>, t: Txn)
    ensures forall source ::
        Flow(txns + [t], source) == Flow(txns, source) + (if t.source == source then t.qty else 0.0)
    ensures forall source, item :: FlowOf(txns + [t], source, item) ==
              FlowOf(txns, source, item) + (if t.source == source && t.item == item then t.qty else 0.0)
    ensures forall item :: Moved(txns + [t], item) == Moved(txns, item) + (if t.item == item then t.qty else 0.0)
  {
    assert (txns + [t])[..|txns|] == txns;
  }
}
