// Completing a shop: the cart becomes a history entry, fridge items and an expense; what was excluded
// stays in the cart.
module Shopping {
  import opened Wrappers

  const DEFAULT_ALERT_DAYS_BEFORE := 3
  const DEFAULT_EXPENSE_CATEGORY := "GROCERIES"

  // Prices in minor units, quantities in hundredths.
  datatype CartItem = CartItem(
    id: string, name: string, quantity: int, unit: Option<string>, price: Option<int>, frequentItemId: Option<string>)

  datatype Transfer = Transfer(
    cartItemId: string, storageLocationId: string, quantity: Option<int>, unit: Option<string>,
    price: Option<int>, expiresAt: Option<int>, alertDaysBefore: Option<int>)

  datatype FridgeItem = FridgeItem(
    storageLocationId: string, name: string, quantity: int, unit: Option<string>,
    frequentItemId: Option<string>, expiresAt: Option<int>, alertDaysBefore: int)

  // fridgeItemId is the place of the new item in the fridge.
  datatype HistoryItem = HistoryItem(
    name: string, quantity: int, unit: Option<string>, price: Option<int>,
    transferredToFridge: bool, fridgeItemId: Option<nat>)

  datatype ExpenseRequest = ExpenseRequest(amount: Option<int>, category: Option<string>, date: Option<int>)

  datatype Expense = Expense(amount: int, category: string, date: int, history: nat)

  datatype Request = Request(transfers: seq<Transfer>, excludes: set<string>, expense: Option<ExpenseRequest>)

  datatype Refusal = CartEmpty

  function OrElse<T>(a: Option<T>, b: T): T {
    if a.Some? then a.value else b
  }

  function OrElseOption<T>(a: Option<T>, b: Option<T>): Option<T> {
    if a.Some? then a else b
  }

  // ---- What completing means ------------------------------------------------------------------

  // The last transfer for the item wins.
  function TransferFor(transfers: seq<Transfer>, id: string): (t: Option<Transfer>)
    ensures t.Some? ==> t.value in transfers && t.value.cartItemId == id
    ensures t.None? ==> forall x :: x in transfers ==> x.cartItemId != id
  {
    if transfers == [] then None
    else if transfers[|transfers| - 1].cartItemId == id then Some(transfers[|transfers| - 1])
    else TransferFor(transfers[..|transfers| - 1], id)
  }

  // The items with (or without) an excluded id, in cart order.
  function Select(items: seq<CartItem>, excludes: set<string>, excluded: bool): seq<CartItem> {
    if items == [] then []
    else
      var last := items[|items| - 1];
      Select(items[..|items| - 1], excludes, excluded) + if (last.id in excludes) == excluded then [last] else []
  }

  function ToComplete(items: seq<CartItem>, excludes: set<string>): seq<CartItem> {
    Select(items, excludes, false)
  }

  function FridgeItemFor(item: CartItem, t: Transfer): FridgeItem {
    FridgeItem(t.storageLocationId, item.name, OrElse(t.quantity, item.quantity), OrElseOption(t.unit, item.unit),
               item.frequentItemId, t.expiresAt, OrElse(t.alertDaysBefore, DEFAULT_ALERT_DAYS_BEFORE))
  }

  function PriceOf(item: CartItem, t: Option<Transfer>): Option<int> {
    if item.price.Some? then item.price else if t.Some? then t.value.price else None
  }

  function Total(items: seq<HistoryItem>): int {
    if items == [] then 0 else Total(items[..|items| - 1]) + OrElse(items[|items| - 1].price, 0)
  }

  function Transferred(items: seq<CartItem>, transfers: seq<Transfer>): nat {
    if items == [] then 0
    else Transferred(items[..|items| - 1], transfers)
         + if TransferFor(transfers, items[|items| - 1].id).Some? then 1 else 0
  }

  // The history entry records the item; if it was transferred, its fridge item is the one pointed at.
  predicate Records(entry: HistoryItem, item: CartItem, t: Option<Transfer>, fridge: seq<FridgeItem>) {
    && entry.name == item.name && entry.quantity == item.quantity && entry.unit == item.unit
    && entry.price == PriceOf(item, t)
    && (entry.transferredToFridge <==> t.Some?)
    && (entry.fridgeItemId.Some? <==> t.Some?)
    && (t.Some? ==> entry.fridgeItemId.value < |fridge| && fridge[entry.fridgeItemId.value] == FridgeItemFor(item, t.value))
  }

  // The entries of the items, whose fridge items lie in order from place `first` on.
  predicate Recorded(
      entries: seq<HistoryItem>, items: seq<CartItem>, transfers: seq<Transfer>, fridge: seq<FridgeItem>, first: nat)
  {
    && |entries| == |items|
    && forall i :: 0 <= i < |items| ==>
         && Records(entries[i], items[i], TransferFor(transfers, items[i].id), fridge)
         && (entries[i].fridgeItemId.Some? ==> entries[i].fridgeItemId.value == first + Transferred(items[..i], transfers))
  }

  // The expense asked for; without an amount, the sum of the history's prices.
  function Charged(request: Option<ExpenseRequest>, total: int, today: int, history: nat): seq<Expense> {
    if request.None? then []
    else [Expense(OrElse(request.value.amount, total), OrElse(request.value.category, DEFAULT_EXPENSE_CATEGORY),
                  OrElse(request.value.date, today), history)]
  }

  // The items have gone from the cart into the history entries, and the transferred ones into the fridge.
  predicate Moved(
      entries: seq<HistoryItem>, items: seq<CartItem>, transfers: seq<Transfer>, before: seq<FridgeItem>,
      fridge: seq<FridgeItem>)
  {
    && before <= fridge && |fridge| == |before| + Transferred(items, transfers)
    && Recorded(entries, items, transfers, fridge, |before|)
  }

  lemma RecordedOneMore(
      entries: seq<HistoryItem>, items: seq<CartItem>, transfers: seq<Transfer>, fridge: seq<FridgeItem>, first: nat,
      entry: HistoryItem, item: CartItem, grown: seq<FridgeItem>)
    requires Recorded(entries, items, transfers, fridge, first) && fridge <= grown
    requires Records(entry, item, TransferFor(transfers, item.id), grown)
    requires entry.fridgeItemId.Some? ==> entry.fridgeItemId.value == first + Transferred(items, transfers)
    ensures Recorded(entries + [entry], items + [item], transfers, grown, first)
  {
    var all, more := entries + [entry], items + [item];
    forall i | 0 <= i < |more|
      ensures Records(all[i], more[i], TransferFor(transfers, more[i].id), grown)
      ensures all[i].fridgeItemId.Some? ==> all[i].fridgeItemId.value == first + Transferred(more[..i], transfers)
    {
      if i < |items| {
        assert more[..i] == items[..i] && all[i] == entries[i] && more[i] == items[i];
      } else {
        assert more[..i] == items;
      }
    }
  }

  lemma MovedOneMore(
      entries: seq<HistoryItem>, items: seq<CartItem>, transfers: seq<Transfer>, before: seq<FridgeItem>,
      fridge: seq<FridgeItem>, entry: HistoryItem, item: CartItem, grown: seq<FridgeItem>)
    requires Moved(entries, items, transfers, before, fridge)
    requires Records(entry, item, TransferFor(transfers, item.id), grown)
    requires var t := TransferFor(transfers, item.id);
      && grown == fridge + (if t.Some? then [FridgeItemFor(item, t.value)] else [])
      && entry.fridgeItemId == (if t.Some? then Some(|fridge|) else None)
    ensures Moved(entries + [entry], items + [item], transfers, before, grown)
  {
    RecordedOneMore(entries, items, transfers, fridge, |before|, entry, item, grown);
    TransferredSnoc(items, item, transfers);
  }

  lemma CountSnoc(items: seq<CartItem>, last: CartItem, item: CartItem)
    ensures multiset(items + [last])[item] == multiset(items)[item] + if item == last then 1 else 0
  {
  }

  lemma TotalSnoc(entries: seq<HistoryItem>, entry: HistoryItem)
    ensures Total(entries + [entry]) == Total(entries) + OrElse(entry.price, 0)
  {
    assert (entries + [entry])[..|entries|] == entries;
  }

  lemma TransferredSnoc(items: seq<CartItem>, item: CartItem, transfers: seq<Transfer>)
    ensures Transferred(items + [item], transfers)
      == Transferred(items, transfers) + if TransferFor(transfers, item.id).Some? then 1 else 0
  {
    assert (items + [item])[..|items|] == items;
  }

  lemma {:induction false} SelectCounts(items: seq<CartItem>, excludes: set<string>, excluded: bool, item: CartItem)
    ensures multiset(Select(items, excludes, excluded))[item] ==
      if (item.id in excludes) == excluded then multiset(items)[item] else 0
  {
    if items != [] {
      var before, last := items[..|items| - 1], items[|items| - 1];
      SelectCounts(before, excludes, excluded, item);
      CountSnoc(before, last, item);
      assert items == before + [last];
      CountSnoc(Select(before, excludes, excluded), last, item);
    }
  }

  lemma SelectMember(items: seq<CartItem>, excludes: set<string>, excluded: bool, item: CartItem)
    ensures item in Select(items, excludes, excluded) <==> item in items && (item.id in excludes) == excluded
  {
    SelectCounts(items, excludes, excluded, item);
    assert item in items <==> item in multiset(items);
    assert item in Select(items, excludes, excluded) <==> item in multiset(Select(items, excludes, excluded));
  }

  // Nothing appears, nothing disappears: each cart item is either completed or still in the cart.
  lemma CartIsPartitioned(items: seq<CartItem>, excludes: set<string>)
    ensures multiset(items) == multiset(ToComplete(items, excludes)) + multiset(Select(items, excludes, true))
    ensures forall i :: i in ToComplete(items, excludes) ==> i.id !in excludes
    ensures forall i :: i in Select(items, excludes, true) ==> i.id in excludes
  {
    forall i
      ensures multiset(items)[i] == multiset(ToComplete(items, excludes))[i] + multiset(Select(items, excludes, true))[i]
      ensures i in ToComplete(items, excludes) ==> i.id !in excludes
      ensures i in Select(items, excludes, true) ==> i.id in excludes
    {
      SelectCounts(items, excludes, true, i);
      SelectCounts(items, excludes, false, i);
      SelectMember(items, excludes, true, i);
      SelectMember(items, excludes, false, i);
    }
  }

  lemma NothingToComplete(items: seq<CartItem>, excludes: set<string>)
    ensures ToComplete(items, excludes) == [] <==> forall i :: i in items ==> i.id in excludes
  {
    forall i ensures i in ToComplete(items, excludes) <==> i in items && i.id !in excludes {
      SelectMember(items, excludes, false, i);
    }
    if ToComplete(items, excludes) != [] {
      assert ToComplete(items, excludes)[0] in ToComplete(items, excludes);
    }
  }

  // The delete at the end goes by the cart as it is then. An item added since the cart was read is
  // lost, neither completed nor in the cart, exactly when it is not excluded.
  lemma AddedMeanwhileIsLostIff(read: seq<CartItem>, added: seq<CartItem>, excludes: set<string>, item: CartItem)
    requires item in added && item !in read
    ensures item !in ToComplete(read, excludes) && item !in Select(read + added, excludes, true)
      <==> item.id !in excludes
  {
    SelectMember(read, excludes, false, item);
    SelectMember(read + added, excludes, true, item);
  }

  // ---- The service ----------------------------------------------------------------------------------

  // The cart item in its new place, with what the transfer gives in place of the item's own.
  ghost predicate Stored(f: FridgeItem, item: CartItem, t: Transfer) {
    && f.storageLocationId == t.storageLocationId && f.name == item.name
    && f.frequentItemId == item.frequentItemId && f.expiresAt == t.expiresAt
    && (t.quantity.Some? ==> f.quantity == t.quantity.value) && (t.quantity.None? ==> f.quantity == item.quantity)
    && (t.unit.Some? ==> f.unit == t.unit) && (t.unit.None? ==> f.unit == item.unit)
    && (t.alertDaysBefore.Some? ==> f.alertDaysBefore == t.alertDaysBefore.value)
    && (t.alertDaysBefore.None? ==> f.alertDaysBefore == 3)
  }

  // The expense of a completed shop, for a history entry with this total.
  ghost predicate Charges(e: Expense, request: ExpenseRequest, total: int, today: int, history: nat) {
    && e.history == history
    && (request.amount.Some? ==> e.amount == request.amount.value) && (request.amount.None? ==> e.amount == total)
    && (request.category.Some? ==> e.category == request.category.value)
    && (request.category.None? ==> e.category == "GROCERIES")
    && (request.date.Some? ==> e.date == request.date.value) && (request.date.None? ==> e.date == today)
  }

  // What a history entry records of its item, and of the fridge item it points at.
  lemma EntryTells(entry: HistoryItem, item: CartItem, t: Option<Transfer>, fridge: seq<FridgeItem>)
    requires Records(entry, item, t, fridge)
    ensures entry.name == item.name && entry.quantity == item.quantity && entry.unit == item.unit
    ensures item.price.Some? ==> entry.price == item.price
    ensures item.price.None? ==> entry.price == if t.Some? then t.value.price else None
    ensures entry.transferredToFridge <==> t.Some?
    ensures t.Some? ==> entry.fridgeItemId.Some? && entry.fridgeItemId.value < |fridge|
    ensures t.Some? ==> Stored(fridge[entry.fridgeItemId.value], item, t.value)
    ensures t.None? ==> entry.fridgeItemId.None?
  {
  }

  lemma TotalIsTheSum(entries: seq<HistoryItem>, entry: HistoryItem)
    ensures Total([]) == 0
    ensures entry.price.None? ==> Total(entries + [entry]) == Total(entries)
    ensures entry.price.Some? ==> Total(entries + [entry]) == Total(entries) + entry.price.value
  {
    TotalSnoc(entries, entry);
  }

  class ShoppingGroup {
    var cart: Option<seq<CartItem>>
    var fridge: seq<FridgeItem>
    var histories: seq<seq<HistoryItem>>
    var expenses: seq<Expense>

    constructor ()
      ensures cart == None && fridge == [] && histories == [] && expenses == []
    {
      cart, fridge, histories, expenses := None, [], [], [];
    }

    method TransferMap(transfers: seq<Transfer>) returns (byItem: map<string, Transfer>)
      ensures forall id :: id in byItem <==> TransferFor(transfers, id).Some?
      ensures forall id :: id in byItem ==> byItem[id] == TransferFor(transfers, id).value
    {
      byItem := map[];
      for i := 0 to |transfers|
        invariant forall id :: id in byItem <==> TransferFor(transfers[..i], id).Some?
        invariant forall id :: id in byItem ==> byItem[id] == TransferFor(transfers[..i], id).value
      {
        assert transfers[..i + 1][..i] == transfers[..i];
        byItem := byItem[transfers[i].cartItemId := transfers[i]];
      }
      assert transfers[..|transfers|] == transfers;
    }

    method Filter(items: seq<CartItem>, excludes: set<string>, excluded: bool) returns (kept: seq<CartItem>)
      ensures kept == Select(items, excludes, excluded)
    {
      kept := [];
      for i := 0 to |items|
        invariant kept == Select(items[..i], excludes, excluded)
      {
        assert items[..i + 1][..i] == items[..i];
        if (items[i].id in excludes) == excluded {
          kept := kept + [items[i]];
        }
      }
      assert items[..|items|] == items;
    }

    // The history entry of one item, and its fridge item if it is transferred.
    method MoveItem(item: CartItem, transfer: Option<Transfer>) returns (entry: HistoryItem)
      modifies this`fridge
      ensures Records(entry, item, transfer, fridge)
      ensures fridge == old(fridge) + if transfer.Some? then [FridgeItemFor(item, transfer.value)] else []
      ensures entry.fridgeItemId == if transfer.Some? then Some(|old(fridge)|) else None
    {
      var fridgeItemId: Option<nat> := None;
      if transfer.Some? {
        var t := transfer.value;
        fridgeItemId := Some(|fridge|);
        fridge := fridge + [FridgeItem(
          t.storageLocationId, item.name, if t.quantity.Some? then t.quantity.value else item.quantity,
          if t.unit.Some? then t.unit else item.unit, item.frequentItemId, t.expiresAt,
          if t.alertDaysBefore.Some? then t.alertDaysBefore.value else DEFAULT_ALERT_DAYS_BEFORE)];
      }
      var price := if item.price.Some? then item.price else if transfer.Some? then transfer.value.price else None;
      return HistoryItem(item.name, item.quantity, item.unit, price, transfer.Some?, fridgeItemId);
    }

    // One history entry per completed item, one fridge item per transferred one, in cart order.
    method MoveItems(items: seq<CartItem>, transfers: seq<Transfer>) returns (entries: seq<HistoryItem>, total: int)
      modifies this`fridge
      ensures Moved(entries, items, transfers, old(fridge), fridge) && total == Total(entries)
    {
      var byItem := TransferMap(transfers);
      entries, total := [], 0;
      for i := 0 to |items|
        invariant Moved(entries, items[..i], transfers, old(fridge), fridge) && total == Total(entries)
      {
        var item := items[i];
        ghost var before := fridge;
        var entry := MoveItem(item, if item.id in byItem then Some(byItem[item.id]) else None);
        MovedOneMore(entries, items[..i], transfers, old(fridge), before, entry, item, fridge);
        TotalSnoc(entries, entry);
        assert items[..i + 1] == items[..i] + [item];
        if entry.price.Some? {
          total := total + entry.price.value;
        }
        entries := entries + [entry];
      }
      assert items[..|items|] == items;
    }

    // The cart as it is read, if anything in it is to be completed.
    method ReadCart(request: Request) returns (r: Result<seq<CartItem>, Refusal>)
      ensures r.Failure? <==> cart.None? || forall i :: i in cart.value ==> i.id in request.excludes
      ensures r.Success? ==> cart == Some(r.value)
    {
      if cart.None? || cart.value == [] {
        return Failure(CartEmpty);
      }
      var done := Filter(cart.value, request.excludes, false);
      NothingToComplete(cart.value, request.excludes);
      if done == [] {
        return Failure(CartEmpty);
      }
      return Success(cart.value);
    }

    method AddCartItem(item: CartItem)
      modifies this`cart
      ensures cart == Some((if old(cart).None? then [] else old(cart).value) + [item])
    {
      var items := if cart.None? then [] else cart.value;
      cart := Some(items + [item]);
    }

    // The transaction: by the items read before, and by the cart as it is now for what is deleted.
    method StoreShopping(items: seq<CartItem>, request: Request, today: int) returns (history: nat)
      requires cart.Some?
      modifies this
      ensures cart == Some(Select(old(cart).value, request.excludes, true))
      ensures history == |old(histories)| < |histories| && old(histories) == histories[..|histories| - 1]
      ensures Moved(histories[history], ToComplete(items, request.excludes), request.transfers, old(fridge), fridge)
      ensures expenses == old(expenses) + Charged(request.expense, Total(histories[history]), today, history)
      ensures request.expense.None? ==> expenses == old(expenses)
      ensures request.expense.Some? ==> |expenses| == |old(expenses)| + 1 && expenses[..|old(expenses)|] == old(expenses)
      ensures request.expense.Some? ==>
        Charges(expenses[|old(expenses)|], request.expense.value, Total(histories[history]), today, history)
    {
      var done := Filter(items, request.excludes, false);
      var entries, total := MoveItems(done, request.transfers);
      history := |histories|;
      histories := histories + [entries];
      if request.expense.Some? {
        var e := request.expense.value;
        var amount := if e.amount.Some? then e.amount.value else total;
        expenses := expenses + [Expense(amount, OrElse(e.category, DEFAULT_EXPENSE_CATEGORY), OrElse(e.date, today), history)];
      }
      var kept := Filter(cart.value, request.excludes, true);
      cart := Some(kept);
    }

    // Other members put `added` into the cart between the reading and the transaction.
    method CompleteShopping(request: Request, added: seq<CartItem>, today: int) returns (r: Result<nat, Refusal>)
      modifies this
      ensures r.Failure? <==> old(cart).None? || forall i :: i in old(cart).value ==> i.id in request.excludes
      ensures r.Failure? ==> cart == old(cart) && fridge == old(fridge) && histories == old(histories) && expenses == old(expenses)
      ensures r.Success? ==> cart == Some(Select(old(cart).value + added, request.excludes, true))
      ensures r.Success? ==> r.value == |old(histories)| < |histories| && old(histories) == histories[..|histories| - 1]
      ensures r.Success? ==>
        Moved(histories[r.value], ToComplete(old(cart).value, request.excludes), request.transfers, old(fridge), fridge)
      ensures r.Success? ==> expenses == old(expenses) + Charged(request.expense, Total(histories[r.value]), today, r.value)
      ensures r.Success? ==> forall i :: i in added && i !in old(cart).value ==>
        (i !in cart.value && i !in ToComplete(old(cart).value, request.excludes) <==> i.id !in request.excludes)
    {
      var items := ReadCart(request);
      if items.Failure? {
        return Failure(items.error);
      }
      assert items.value + added[..0] == items.value;
      for n := 0 to |added|
        invariant cart == Some(items.value + added[..n])
        modifies this`cart
      {
        AddCartItem(added[n]);
        assert items.value + added[..n] + [added[n]] == items.value + added[..n + 1];
      }
      assert added[..|added|] == added;
      forall i | i in added && i !in items.value
        ensures i !in Select(items.value + added, request.excludes, true) && i !in ToComplete(items.value, request.excludes)
          <==> i.id !in request.excludes
      {
        AddedMeanwhileIsLostIff(items.value, added, request.excludes, i);
      }
      var history := StoreShopping(items.value, request, today);
      return Success(history);
    }
  }

  lemma {:induction false} TransferredGrows(items: seq<CartItem>, transfers: seq<Transfer>, i: nat, j: nat)
    requires i < j <= |items|
    ensures Transferred(items[..i], transfers) + (if TransferFor(transfers, items[i].id).Some? then 1 else 0)
      <= Transferred(items[..j], transfers)
  {
    assert items[..j][..j - 1] == items[..j - 1];
    if i < j - 1 {
      TransferredGrows(items, transfers, i, j - 1);
    }
  }

  // Each transferred entry has a new fridge item of its own.
  lemma DistinctFridgeItems(
      entries: seq<HistoryItem>, items: seq<CartItem>, transfers: seq<Transfer>, fridge: seq<FridgeItem>, first: nat,
      i: nat, j: nat)
    requires Recorded(entries, items, transfers, fridge, first) && i < j < |entries|
    requires entries[i].fridgeItemId.Some?
    ensures first <= entries[i].fridgeItemId.value < |fridge|
    ensures entries[i].fridgeItemId != entries[j].fridgeItemId
  {
    TransferredGrows(items, transfers, i, j);
  }
}
