/** The dashboard hook after its queries: the low-stock rows and their widget list, the
    recent movements, the pending orders, the next delivery date and the stat cards. The
    row filters the queries apply in the backend (quantity below 100, the pending
    statuses, the limit of five) are written out here as well, over rows in the order the
    backend returns them. */
module DashboardData {
  import opened Wrappers
  import opened Seqs

  /** Rows the queries return at most for movements and orders, and rows the low-stock
      widget lists. */
  const QueryLimit := 5
  const WidgetRows := 5

  /** Inventory rows with a quantity of 100 or more are not fetched. */
  const CandidateBound := 100

  datatype StockRow = StockRow(
    quantity: int,
    lowStockThreshold: int,
    branchName: Option<string>,
    size: Option<string>,
    color: Option<string>,
    productName: Option<string>)

  datatype LowStockItem = LowStockItem(productName: string, variant: string, branch: string,
                                       quantity: int, threshold: int)

  /** How a template literal shows an optional value: a missing one reads 'undefined'. */
  function Shown(v: Option<string>): string
  {
    if v.Some? then v.value else "undefined"
  }

  predicate IsCandidate(r: StockRow) { r.quantity < CandidateBound }

  predicate IsLowStock(r: StockRow) { r.quantity < r.lowStockThreshold }

  function ToLowStockItem(r: StockRow): LowStockItem
  {
    LowStockItem(OrElse(r.productName, "Unknown"), Shown(r.size) + " / " + Shown(r.color),
                 OrElse(r.branchName, "Unknown"), r.quantity, r.lowStockThreshold)
  }

  /** The inventory query's `.lt('quantity', 100)`. */
  function Candidates(inventory: seq<StockRow>): seq<StockRow>
  {
    Filter(inventory, IsCandidate)
  }

  /** `mappedLowStock`: the fetched rows strictly below their threshold, mapped in fetch
      order. Every listed item is below its own threshold, and every fetched row below its
      threshold is listed. */
  function LowStock(fetched: seq<StockRow>): (items: seq<LowStockItem>)
    ensures |items| <= |fetched|
    ensures forall i :: 0 <= i < |items| ==> items[i].quantity < items[i].threshold
    ensures var low := Filter(fetched, IsLowStock);
      |items| == |low| && forall i :: 0 <= i < |items| ==> items[i] == ToLowStockItem(low[i])
    ensures forall r :: r in fetched && IsLowStock(r) ==> ToLowStockItem(r) in items
  {
    var low := Filter(fetched, IsLowStock);
    assert forall i :: 0 <= i < |low| ==> low[i] in low;
    MapFilterComplete(fetched, IsLowStock, ToLowStockItem);
    Map(low, ToLowStockItem)
  }

  /** The low-stock rows are exactly the fetched rows strictly below their threshold,
      in fetch order, and none of them has a quantity of 100 or more whatever its
      threshold. */
  lemma LowStockMeaning(inventory: seq<StockRow>)
    ensures forall r :: r in Filter(Candidates(inventory), IsLowStock) <==>
              r in inventory && r.quantity < r.lowStockThreshold && r.quantity < 100
    ensures IsSubsequence(Filter(Candidates(inventory), IsLowStock), Candidates(inventory))
    ensures |LowStock(Candidates(inventory))| == |Filter(Candidates(inventory), IsLowStock)|
  {
    FilterIsSubsequence(Candidates(inventory), IsLowStock);
  }

  datatype MovementRow = MovementRow(id: string, movementType: string, quantity: int,
                                     createdAt: string, productName: Option<string>)

  datatype RecentMovement = RecentMovement(id: string, movementType: string, quantity: int,
                                           productName: string, createdAt: string)

  function ToRecentMovement(m: MovementRow): RecentMovement
  {
    RecentMovement(m.id, m.movementType, m.quantity, OrElse(m.productName, "Unknown"), m.createdAt)
  }

  /** The movements query: the newest five, mapped. */
  function RecentMovements(newestFirst: seq<MovementRow>): (r: seq<RecentMovement>)
    ensures |r| <= QueryLimit && |r| <= |newestFirst|
    ensures |r| == if |newestFirst| < QueryLimit then |newestFirst| else QueryLimit
    ensures forall i :: 0 <= i < |r| ==> r[i] == ToRecentMovement(newestFirst[i])
  {
    Map(Take(newestFirst, QueryLimit), ToRecentMovement)
  }

  datatype OrderRow = OrderRow(id: string, orderNumber: string, expectedDelivery: Option<string>,
                               totalAmount: int, status: string, supplierName: Option<string>)

  datatype PendingOrder = PendingOrder(id: string, orderNumber: string, supplierName: string,
                                       expectedDelivery: Option<string>, totalAmount: int,
                                       status: string)

  predicate IsPending(o: OrderRow) { o.status in {"draft", "ordered", "partial"} }

  function ToPendingOrder(o: OrderRow): PendingOrder
  {
    PendingOrder(o.id, o.orderNumber, OrElse(o.supplierName, "Unknown"), o.expectedDelivery,
                 o.totalAmount, o.status)
  }

  /** The orders query: the first five pending orders in delivery order, mapped. At most
      five orders are shown, each of them draft, ordered or partial, and they are the
      first pending rows, in order. */
  function PendingOrders(byDelivery: seq<OrderRow>): (orders: seq<PendingOrder>)
    ensures |orders| <= 5
    ensures forall o :: o in orders ==> o.status in {"draft", "ordered", "partial"}
    ensures var f := Filter(byDelivery, IsPending);
      && |orders| == (if |f| < QueryLimit then |f| else QueryLimit)
      && forall i :: 0 <= i < |orders| ==> orders[i] == ToPendingOrder(f[i])
  {
    var kept := Take(Filter(byDelivery, IsPending), QueryLimit);
    assert forall i :: 0 <= i < |kept| ==> kept[i] in Filter(byDelivery, IsPending);
    Map(kept, ToPendingOrder)
  }

  /** With at most five pending rows fetched, every one of them is shown, and a row that
      is not pending never is, whatever its position. */
  lemma PendingOrdersComplete(byDelivery: seq<OrderRow>)
    requires |Filter(byDelivery, IsPending)| <= QueryLimit
    ensures forall o :: o in byDelivery ==>
              (IsPending(o) <==> ToPendingOrder(o) in PendingOrders(byDelivery))
  {
  }

  /** A delivery date that counts: present and not empty. */
  predicate HasDelivery(o: PendingOrder)
  {
    o.expectedDelivery.Some? && o.expectedDelivery.value != ""
  }

  /** `orders.find(o => o.expected_delivery)?.expected_delivery || null`. */
  function NextDelivery(orders: seq<PendingOrder>): (r: Option<string>)
    ensures r.Some? <==> exists i :: 0 <= i < |orders| && HasDelivery(orders[i])
    ensures r.Some? ==> exists i :: 0 <= i < |orders| && HasDelivery(orders[i]) &&
                          r.value == orders[i].expectedDelivery.value &&
                          forall k :: 0 <= k < i ==> !HasDelivery(orders[k])
    decreases |orders|
  {
    if |orders| == 0 then None
    else if HasDelivery(orders[0]) then orders[0].expectedDelivery
    else
      var r := NextDelivery(orders[1..]);
      assert forall i :: 1 <= i < |orders| ==> orders[i] == orders[1..][i - 1];
      r
  }

  datatype DashboardStats = DashboardStats(totalProducts: int, totalBranches: int,
                                           lowStockItems: int, pendingOrders: int,
                                           nextDelivery: Option<string>)

  /** The stat cards and the widget lists; `productCount` and `branchCount` are the
      counts the head queries report, if any. */
  function Stats(productCount: Option<int>, branchCount: Option<int>,
                 lowStock: seq<LowStockItem>, orders: seq<PendingOrder>): (s: DashboardStats)
    ensures s.lowStockItems == |lowStock| && s.pendingOrders == |orders|
    ensures productCount.None? ==> s.totalProducts == 0
    ensures branchCount.None? ==> s.totalBranches == 0
    ensures productCount.Some? ==> s.totalProducts == productCount.value
    ensures branchCount.Some? ==> s.totalBranches == branchCount.value
    ensures s.nextDelivery.Some? <==> exists i :: 0 <= i < |orders| && HasDelivery(orders[i])
    ensures s.nextDelivery == NextDelivery(orders)
  {
    DashboardStats(OrZero(productCount), OrZero(branchCount), |lowStock|, |orders|,
                   NextDelivery(orders))
  }

  /** The low-stock widget's list: the first five low-stock rows. */
  function LowStockWidget(lowStock: seq<LowStockItem>): (w: seq<LowStockItem>)
    ensures IsPrefix(w, lowStock)
    ensures |w| == if |lowStock| <= WidgetRows then |lowStock| else WidgetRows
  {
    Take(lowStock, WidgetRows)
  }

  /** The low-stock stat counts every low row while the widget keeps only the first five;
      the pending-order stat is at most five; a missing count reads 0. */
  lemma StatsMeaning(productCount: Option<int>, branchCount: Option<int>,
                     inventory: seq<StockRow>, byDelivery: seq<OrderRow>)
    ensures var low := LowStock(Candidates(inventory));
            var s := Stats(productCount, branchCount, low, PendingOrders(byDelivery));
      && s.lowStockItems == |Filter(Candidates(inventory), IsLowStock)|
      && IsPrefix(LowStockWidget(low), low)
      && |LowStockWidget(low)| == (if s.lowStockItems <= 5 then s.lowStockItems else 5)
      && s.pendingOrders <= 5
      && (productCount.None? ==> s.totalProducts == 0)
      && (branchCount.None? ==> s.totalBranches == 0)
  {
  }

  /** A missing product, branch or supplier name reads 'Unknown', and a missing size or
      colour reads 'undefined' in the variant label. */
  lemma UnknownNames(r: StockRow, m: MovementRow, o: OrderRow)
    requires r.productName.None? && r.branchName.None? && r.size.None?
    requires m.productName.None? && o.supplierName.None?
    ensures ToLowStockItem(r).productName == "Unknown" && ToLowStockItem(r).branch == "Unknown"
    ensures ToLowStockItem(r).variant == "undefined / " + Shown(r.color)
    ensures ToRecentMovement(m).productName == "Unknown"
    ensures ToPendingOrder(o).supplierName == "Unknown"
  {
  }
}
