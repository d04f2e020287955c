/** The pure part of the reports hook: stock per branch and per category, the stock-health
    classification of every inventory row, the movement listing with its summary, and the
    total inventory value. The rows are those the backend queries return; the queries
    themselves are not modelled. Prices are whole numbers of the smallest currency unit. */
module Reports {
  import opened Wrappers
  import opened Seqs
  import opened Grouping

  /** An `inventory` row joined with its branch and with its variant's product and
      category. A link missing anywhere along a join shows up as `None`. */
  datatype InventoryRow = InventoryRow(
    id: string,
    quantity: int,
    lowStockThreshold: int,
    branchId: Option<string>,
    branchName: Option<string>,
    size: Option<string>,
    color: Option<string>,
    productName: Option<string>,
    sku: Option<string>,
    price: Option<int>,
    categoryName: Option<string>)

  datatype BranchStock = BranchStock(branchId: string, branchName: string,
                                     totalQuantity: int, totalValue: int)

  datatype CategoryStock = CategoryStock(categoryName: string, totalQuantity: int,
                                         totalValue: int)

  /** `price || 0`. */
  function UnitPrice(r: InventoryRow): int { OrZero(r.price) }

  function StockValue(r: InventoryRow): int { r.quantity * UnitPrice(r) }

  function StockQuantity(r: InventoryRow): int { r.quantity }

  function BranchKey(r: InventoryRow): string { OrElse(r.branchName, "Unknown") }

  function BranchGroupId(r: InventoryRow): string { OrElse(r.branchId, "unknown") }

  function CategoryKey(r: InventoryRow): string { OrElse(r.categoryName, "Uncategorized") }

  function NoId(r: InventoryRow): string { "" }

  /** Rows grouped by branch name; a new group takes the row's branch id. */
  function ByBranch(): Projection<InventoryRow>
  {
    Projection(BranchKey, BranchGroupId, StockQuantity, StockValue)
  }

  /** Rows grouped by category name; category groups carry no id. */
  function ByCategory(): Projection<InventoryRow>
  {
    Projection(CategoryKey, NoId, StockQuantity, StockValue)
  }

  /** The property names every object inherits from `Object.prototype` in current
      JavaScript engines. The totals are kept in an object literal, so looking up one of
      these names finds a truthy inherited value: the fold opens no entry for it, the
      row's `+=` lands on the inherited value, and `Object.entries` never lists it. */
  const InheritedNames: set<string> := {
    "constructor", "__defineGetter__", "__defineSetter__", "hasOwnProperty",
    "__lookupGetter__", "__lookupSetter__", "isPrototypeOf", "propertyIsEnumerable",
    "toString", "valueOf", "__proto__", "toLocaleString"}

  /** A name the totals object can hold as an entry of its own. */
  predicate OwnName(k: string) { k !in InheritedNames }

  /** The row reaches a branch entry. */
  predicate BranchTallied(r: InventoryRow) { OwnName(BranchKey(r)) }

  /** The row reaches a category entry. */
  predicate CategoryTallied(r: InventoryRow) { OwnName(CategoryKey(r)) }

  function BranchGroups(rows: seq<InventoryRow>): seq<Group>
  {
    GroupAll(Filter(rows, BranchTallied), ByBranch())
  }

  function CategoryGroups(rows: seq<InventoryRow>): seq<Group>
  {
    GroupAll(Filter(rows, CategoryTallied), ByCategory())
  }

  /** Every key the fold sees over the tallied rows is an own name. */
  lemma TalliedKeysOwn(rows: seq<InventoryRow>)
    ensures forall k :: k in GroupKeys(BranchGroups(rows)) ==> OwnName(k)
    ensures forall k :: k in GroupKeys(CategoryGroups(rows)) ==> OwnName(k)
  {
    var fb := Filter(rows, BranchTallied);
    var fc := Filter(rows, CategoryTallied);
    GroupAllDistinct(fb, ByBranch());
    GroupAllDistinct(fc, ByCategory());
    forall k | k in RowKeys(fb, ByBranch())
      ensures OwnName(k)
    {
      var j :| 0 <= j < |fb| && RowKeys(fb, ByBranch())[j] == k;
      assert fb[j] in fb;
    }
    forall k | k in RowKeys(fc, ByCategory())
      ensures OwnName(k)
    {
      var j :| 0 <= j < |fc| && RowKeys(fc, ByCategory())[j] == k;
      assert fc[j] in fc;
    }
  }

  /** `fetchStockByBranch` after the query: one entry per branch name, in order of first
      appearance. */
  function StockByBranch(rows: seq<InventoryRow>): (r: seq<BranchStock>)
    ensures |r| == |BranchGroups(rows)| <= |rows|
    ensures forall i :: 0 <= i < |r| ==> OwnName(r[i].branchName)
  {
    var gs := BranchGroups(rows);
    TalliedKeysOwn(rows);
    seq(|gs|, i requires 0 <= i < |gs| =>
      BranchStock(gs[i].id, gs[i].key, gs[i].quantity, gs[i].value))
  }

  /** `fetchStockByCategory` after the query. */
  function StockByCategory(rows: seq<InventoryRow>): (r: seq<CategoryStock>)
    ensures |r| == |CategoryGroups(rows)| <= |rows|
    ensures forall i :: 0 <= i < |r| ==> OwnName(r[i].categoryName)
  {
    var gs := CategoryGroups(rows);
    TalliedKeysOwn(rows);
    seq(|gs|, i requires 0 <= i < |gs| => CategoryStock(gs[i].key, gs[i].quantity, gs[i].value))
  }

  /** Sum of the quantities of all rows. */
  function TotalQuantity(rows: seq<InventoryRow>): int
    decreases |rows|
  {
    if |rows| == 0 then 0 else TotalQuantity(rows[..|rows| - 1]) + rows[|rows| - 1].quantity
  }

  /** Sum of quantity times unit price over all rows. */
  function TotalValue(rows: seq<InventoryRow>): int
    decreases |rows|
  {
    if |rows| == 0 then 0 else TotalValue(rows[..|rows| - 1]) + StockValue(rows[|rows| - 1])
  }

  lemma {:induction false} TotalsAsGroupingSums(rows: seq<InventoryRow>, p: Projection<InventoryRow>)
    requires p.quantity == StockQuantity && p.value == StockValue
    ensures RowsQuantity(rows, p) == TotalQuantity(rows)
    ensures RowsValue(rows, p) == TotalValue(rows)
    decreases |rows|
  {
    if |rows| > 0 {
      TotalsAsGroupingSums(rows[..|rows| - 1], p);
    }
  }

  function BranchQuantities(bs: seq<BranchStock>): int
    decreases |bs|
  {
    if |bs| == 0 then 0 else BranchQuantities(bs[..|bs| - 1]) + bs[|bs| - 1].totalQuantity
  }

  /** `totalInventoryValue`: the per-branch values added up. */
  function TotalInventoryValue(bs: seq<BranchStock>): (v: int)
    ensures (forall i :: 0 <= i < |bs| ==> bs[i].totalValue >= 0) ==> v >= 0
    decreases |bs|
  {
    if |bs| == 0 then 0 else TotalInventoryValue(bs[..|bs| - 1]) + bs[|bs| - 1].totalValue
  }

  function CategoryQuantities(cs: seq<CategoryStock>): int
    decreases |cs|
  {
    if |cs| == 0 then 0 else CategoryQuantities(cs[..|cs| - 1]) + cs[|cs| - 1].totalQuantity
  }

  function CategoryValues(cs: seq<CategoryStock>): int
    decreases |cs|
  {
    if |cs| == 0 then 0 else CategoryValues(cs[..|cs| - 1]) + cs[|cs| - 1].totalValue
  }

  lemma {:induction false} BranchSums(rows: seq<InventoryRow>, n: nat)
    requires n <= |StockByBranch(rows)|
    ensures BranchQuantities(StockByBranch(rows)[..n]) == GroupsQuantity(BranchGroups(rows)[..n])
    ensures TotalInventoryValue(StockByBranch(rows)[..n]) == GroupsValue(BranchGroups(rows)[..n])
  {
    if n > 0 {
      BranchSums(rows, n - 1);
      var bs := StockByBranch(rows)[..n];
      var gs := BranchGroups(rows)[..n];
      assert bs[..n - 1] == StockByBranch(rows)[..n - 1];
      assert gs[..n - 1] == BranchGroups(rows)[..n - 1];
    }
  }

  lemma {:induction false} CategorySums(rows: seq<InventoryRow>, n: nat)
    requires n <= |StockByCategory(rows)|
    ensures CategoryQuantities(StockByCategory(rows)[..n]) == GroupsQuantity(CategoryGroups(rows)[..n])
    ensures CategoryValues(StockByCategory(rows)[..n]) == GroupsValue(CategoryGroups(rows)[..n])
  {
    if n > 0 {
      CategorySums(rows, n - 1);
      var cs := StockByCategory(rows)[..n];
      var gs := CategoryGroups(rows)[..n];
      assert cs[..n - 1] == StockByCategory(rows)[..n - 1];
      assert gs[..n - 1] == CategoryGroups(rows)[..n - 1];
    }
  }

  /** Branch totals conserve stock: the branches together hold the quantity of every row
      whose branch name is an own name, and the total inventory value is the sum of
      quantity times price over those rows, a missing price counting as 0. When no branch
      name is inherited, that is every row. */
  lemma BranchStockConserves(rows: seq<InventoryRow>)
    ensures BranchQuantities(StockByBranch(rows)) == TotalQuantity(Filter(rows, BranchTallied))
    ensures TotalInventoryValue(StockByBranch(rows)) == TotalValue(Filter(rows, BranchTallied))
    ensures (forall i :: 0 <= i < |rows| ==> BranchTallied(rows[i])) ==>
              BranchQuantities(StockByBranch(rows)) == TotalQuantity(rows) &&
              TotalInventoryValue(StockByBranch(rows)) == TotalValue(rows)
  {
    BranchTotals(rows);
    if forall i :: 0 <= i < |rows| ==> BranchTallied(rows[i]) {
      FilterKeepsAll(rows, BranchTallied);
    }
  }

  lemma BranchTotals(rows: seq<InventoryRow>)
    ensures BranchQuantities(StockByBranch(rows)) == TotalQuantity(Filter(rows, BranchTallied))
    ensures TotalInventoryValue(StockByBranch(rows)) == TotalValue(Filter(rows, BranchTallied))
  {
    var bs := StockByBranch(rows);
    var f := Filter(rows, BranchTallied);
    BranchSums(rows, |bs|);
    assert bs[..|bs|] == bs;
    assert BranchGroups(rows)[..|bs|] == BranchGroups(rows);
    GroupAllConserves(f, ByBranch());
    TotalsAsGroupingSums(f, ByBranch());
  }

  /** Category totals conserve quantity and value in the same way. */
  lemma CategoryStockConserves(rows: seq<InventoryRow>)
    ensures CategoryQuantities(StockByCategory(rows)) == TotalQuantity(Filter(rows, CategoryTallied))
    ensures CategoryValues(StockByCategory(rows)) == TotalValue(Filter(rows, CategoryTallied))
    ensures (forall i :: 0 <= i < |rows| ==> CategoryTallied(rows[i])) ==>
              CategoryQuantities(StockByCategory(rows)) == TotalQuantity(rows) &&
              CategoryValues(StockByCategory(rows)) == TotalValue(rows)
  {
    CategoryTotals(rows);
    if forall i :: 0 <= i < |rows| ==> CategoryTallied(rows[i]) {
      FilterKeepsAll(rows, CategoryTallied);
    }
  }

  lemma CategoryTotals(rows: seq<InventoryRow>)
    ensures CategoryQuantities(StockByCategory(rows)) == TotalQuantity(Filter(rows, CategoryTallied))
    ensures CategoryValues(StockByCategory(rows)) == TotalValue(Filter(rows, CategoryTallied))
  {
    var cs := StockByCategory(rows);
    var f := Filter(rows, CategoryTallied);
    CategorySums(rows, |cs|);
    assert cs[..|cs|] == cs;
    assert CategoryGroups(rows)[..|cs|] == CategoryGroups(rows);
    GroupAllConserves(f, ByCategory());
    TotalsAsGroupingSums(f, ByCategory());
  }

  /** A row whose branch name is inherited leaves the branch totals as they were; a row
      whose category name is inherited leaves the category totals as they were. */
  lemma InheritedNameIgnored(rows: seq<InventoryRow>, r: InventoryRow)
    ensures !BranchTallied(r) ==> StockByBranch(rows + [r]) == StockByBranch(rows)
    ensures !CategoryTallied(r) ==> StockByCategory(rows + [r]) == StockByCategory(rows)
  {
    FilterSnoc(rows, r, BranchTallied);
    FilterSnoc(rows, r, CategoryTallied);
    if !BranchTallied(r) {
      assert Filter(rows + [r], BranchTallied) == Filter(rows, BranchTallied);
    }
    if !CategoryTallied(r) {
      assert Filter(rows + [r], CategoryTallied) == Filter(rows, CategoryTallied);
    }
  }

  /** The entry of an own name holds the sums over all the rows of that name and the id
      of the first of them. */
  lemma BranchEntryOverAllRows(rows: seq<InventoryRow>, k: string)
    requires OwnName(k)
    ensures KeyQuantity(Filter(rows, BranchTallied), ByBranch(), k) == KeyQuantity(rows, ByBranch(), k)
    ensures KeyValue(Filter(rows, BranchTallied), ByBranch(), k) == KeyValue(rows, ByBranch(), k)
    ensures k in RowKeys(Filter(rows, BranchTallied), ByBranch()) <==> k in RowKeys(rows, ByBranch())
    ensures k in RowKeys(rows, ByBranch()) ==>
              FirstId(Filter(rows, BranchTallied), ByBranch(), k) == FirstId(rows, ByBranch(), k)
  {
    assert forall r :: ByBranch().key(r) == k ==> BranchTallied(r);
    KeyTotalsUnderFilter(rows, ByBranch(), BranchTallied, k);
    if k in RowKeys(rows, ByBranch()) {
      FirstIdUnderFilter(rows, ByBranch(), BranchTallied, k);
    }
    if k in RowKeys(Filter(rows, BranchTallied), ByBranch()) {
      var f := Filter(rows, BranchTallied);
      var j :| 0 <= j < |f| && RowKeys(f, ByBranch())[j] == k;
      assert f[j] in rows;
      var i :| 0 <= i < |rows| && rows[i] == f[j];
      assert RowKeys(rows, ByBranch())[i] == k;
    }
  }

  lemma CategoryEntryOverAllRows(rows: seq<InventoryRow>, k: string)
    requires OwnName(k)
    ensures KeyQuantity(Filter(rows, CategoryTallied), ByCategory(), k) == KeyQuantity(rows, ByCategory(), k)
    ensures KeyValue(Filter(rows, CategoryTallied), ByCategory(), k) == KeyValue(rows, ByCategory(), k)
    ensures k in RowKeys(Filter(rows, CategoryTallied), ByCategory()) <==> k in RowKeys(rows, ByCategory())
  {
    assert forall r :: ByCategory().key(r) == k ==> CategoryTallied(r);
    KeyTotalsUnderFilter(rows, ByCategory(), CategoryTallied, k);
    if k in RowKeys(rows, ByCategory()) {
      FirstIdUnderFilter(rows, ByCategory(), CategoryTallied, k);
    }
    if k in RowKeys(Filter(rows, CategoryTallied), ByCategory()) {
      var f := Filter(rows, CategoryTallied);
      var j :| 0 <= j < |f| && RowKeys(f, ByCategory())[j] == k;
      assert f[j] in rows;
      var i :| 0 <= i < |rows| && rows[i] == f[j];
      assert RowKeys(rows, ByCategory())[i] == k;
    }
  }

  /** One entry per distinct own branch name ('Unknown' standing for a missing one), in
      order of first appearance; each entry holds the sums over all the rows of its branch
      and the id of the first of them ('unknown' when missing). */
  lemma StockByBranchEntries(rows: seq<InventoryRow>)
    ensures Map(StockByBranch(rows), (b: BranchStock) => b.branchName)
         == Dedup(Map(Filter(rows, BranchTallied), BranchKey))
    ensures forall b :: b in StockByBranch(rows) ==>
              OwnName(b.branchName) &&
              b.branchName in Map(rows, BranchKey) &&
              b.totalQuantity == KeyQuantity(rows, ByBranch(), b.branchName) &&
              b.totalValue == KeyValue(rows, ByBranch(), b.branchName) &&
              b.branchId == FirstId(rows, ByBranch(), b.branchName)
  {
    var f := Filter(rows, BranchTallied);
    var gs := BranchGroups(rows);
    var bs := StockByBranch(rows);
    GroupAllKeys(f, ByBranch());
    GroupAllPerKey(f, ByBranch());
    assert Map(f, BranchKey) == RowKeys(f, ByBranch());
    assert Map(rows, BranchKey) == RowKeys(rows, ByBranch());
    assert Map(bs, (b: BranchStock) => b.branchName) == GroupKeys(gs);
    forall b | b in bs
      ensures OwnName(b.branchName) &&
              b.branchName in Map(rows, BranchKey) &&
              b.totalQuantity == KeyQuantity(rows, ByBranch(), b.branchName) &&
              b.totalValue == KeyValue(rows, ByBranch(), b.branchName) &&
              b.branchId == FirstId(rows, ByBranch(), b.branchName)
    {
      var i :| 0 <= i < |bs| && bs[i] == b;
      assert gs[i] in gs;
      BranchEntryOverAllRows(rows, b.branchName);
    }
  }

  /** One entry per distinct own category name ('Uncategorized' standing for a missing
      one), holding the sums over all the rows of that category. */
  lemma StockByCategoryEntries(rows: seq<InventoryRow>)
    ensures Map(StockByCategory(rows), (c: CategoryStock) => c.categoryName)
         == Dedup(Map(Filter(rows, CategoryTallied), CategoryKey))
    ensures forall c :: c in StockByCategory(rows) ==>
              OwnName(c.categoryName) &&
              c.categoryName in Map(rows, CategoryKey) &&
              c.totalQuantity == KeyQuantity(rows, ByCategory(), c.categoryName) &&
              c.totalValue == KeyValue(rows, ByCategory(), c.categoryName)
  {
    var f := Filter(rows, CategoryTallied);
    var gs := CategoryGroups(rows);
    var cs := StockByCategory(rows);
    GroupAllKeys(f, ByCategory());
    GroupAllPerKey(f, ByCategory());
    assert Map(f, CategoryKey) == RowKeys(f, ByCategory());
    assert Map(rows, CategoryKey) == RowKeys(rows, ByCategory());
    assert Map(cs, (c: CategoryStock) => c.categoryName) == GroupKeys(gs);
    forall c | c in cs
      ensures OwnName(c.categoryName) &&
              c.categoryName in Map(rows, CategoryKey) &&
              c.totalQuantity == KeyQuantity(rows, ByCategory(), c.categoryName) &&
              c.totalValue == KeyValue(rows, ByCategory(), c.categoryName)
    {
      var i :| 0 <= i < |cs| && cs[i] == c;
      assert gs[i] in gs;
      CategoryEntryOverAllRows(rows, c.categoryName);
    }
  }

  // ----- Inventory health -----

  datatype HealthStatus = Critical | Low | Ok

  /** The status name the items carry: 'critical', 'low' or 'ok'. */
  function StatusName(s: HealthStatus): string
  {
    match s
    case Critical => "critical"
    case Low => "low"
    case Ok => "ok"
  }

  /** Stock health of a row: an empty row is critical; otherwise it is low up to and
      including its threshold. Each status holds for exactly its range, so every row gets
      exactly one. */
  function Classify(quantity: int, threshold: int): (s: HealthStatus)
    ensures s == Critical <==> quantity == 0
    ensures s == Low <==> quantity != 0 && quantity <= threshold
    ensures s == Ok <==> quantity != 0 && threshold < quantity
  {
    if quantity == 0 then Critical
    else if quantity <= threshold then Low
    else Ok
  }

  /** `${size || ''} / ${color || ''}`. */
  function VariantLabel(size: Option<string>, color: Option<string>): string
  {
    OrElse(size, "") + " / " + OrElse(color, "")
  }

  datatype HealthItem = HealthItem(
    id: string,
    productName: string,
    variantLabel: string,
    sku: string,
    branchName: string,
    branchId: string,
    currentStock: int,
    reorderThreshold: int,
    status: HealthStatus,
    unitPrice: int)

  /** The health item of a row: its counts carried over, its status classified, and the
      fallbacks for a missing branch id or price. */
  function ToHealthItem(r: InventoryRow): (item: HealthItem)
    ensures item.id == r.id && item.currentStock == r.quantity
    ensures item.reorderThreshold == r.lowStockThreshold
    ensures item.status == Critical <==> r.quantity == 0
    ensures item.status == Low <==> r.quantity != 0 && r.quantity <= r.lowStockThreshold
    ensures r.branchId.None? ==> item.branchId == ""
    ensures r.price.None? ==> item.unitPrice == 0
  {
    HealthItem(
      r.id,
      OrElse(r.productName, "Unknown"),
      VariantLabel(r.size, r.color),
      OrElse(r.sku, ""),
      OrElse(r.branchName, "Unknown"),
      OrElse(r.branchId, ""),
      r.quantity,
      r.lowStockThreshold,
      Classify(r.quantity, r.lowStockThreshold),
      UnitPrice(r))
  }

  /** `fetchInventoryHealth` after the query: one item per row, in row order. */
  function InventoryHealth(rows: seq<InventoryRow>): (items: seq<HealthItem>)
    ensures |items| == |rows|
    ensures forall i :: 0 <= i < |rows| ==> items[i] == ToHealthItem(rows[i])
  {
    Map(rows, ToHealthItem)
  }

  /** The item of a row keeps the row's id, stock and threshold, and its status follows
      the classification. A missing branch id becomes '' here, unlike the 'unknown' of the
      branch totals. */
  lemma HealthItemOfRow(r: InventoryRow)
    ensures ToHealthItem(r).id == r.id
    ensures ToHealthItem(r).currentStock == r.quantity
    ensures ToHealthItem(r).reorderThreshold == r.lowStockThreshold
    ensures ToHealthItem(r).status == Critical <==> r.quantity == 0
    ensures ToHealthItem(r).status == Low <==> r.quantity != 0 && r.quantity <= r.lowStockThreshold
    ensures r.branchId.None? ==> ToHealthItem(r).branchId == "" && BranchGroupId(r) == "unknown"
    ensures r.price.None? ==> ToHealthItem(r).unitPrice == 0
  {
  }

  // ----- Stock movements -----

  /** A `stock_movements` row joined with its inventory row's branch and variant. */
  datatype MovementRow = MovementRow(
    id: string,
    createdAt: string,
    movementType: string,
    quantity: int,
    branchId: Option<string>,
    branchName: Option<string>,
    productName: Option<string>,
    size: Option<string>,
    color: Option<string>)

  datatype MovementItem = MovementItem(
    id: string,
    date: string,
    productName: string,
    variantLabel: string,
    movementType: string,
    quantity: int,
    branchName: string)

  datatype MovementSummary = MovementSummary(stockIn: int, stockOut: int, transfers: int)

  function Abs(n: int): nat { if n < 0 then -n else n }

  predicate IsInflow(t: string)
  {
    t == "purchase_received" || t == "adjustment_add" || t == "transfer_in"
  }

  predicate IsOutflow(t: string)
  {
    t == "adjustment_remove" || t == "transfer_out"
  }

  predicate IsTransfer(t: string)
  {
    t == "transfer_in" || t == "transfer_out"
  }

  /** Sum of |quantity| over the inflow rows. */
  function Inflow(rows: seq<MovementRow>): nat
    decreases |rows|
  {
    if |rows| == 0 then 0
    else
      var m := rows[|rows| - 1];
      Inflow(rows[..|rows| - 1]) + (if IsInflow(m.movementType) then Abs(m.quantity) else 0)
  }

  /** Sum of |quantity| over the outflow rows. */
  function Outflow(rows: seq<MovementRow>): nat
    decreases |rows|
  {
    if |rows| == 0 then 0
    else
      var m := rows[|rows| - 1];
      Outflow(rows[..|rows| - 1]) + (if IsOutflow(m.movementType) then Abs(m.quantity) else 0)
  }

  /** Sum of |quantity| over the transfer rows; each transfer appears once per side. */
  function TransferVolume(rows: seq<MovementRow>): nat
    decreases |rows|
  {
    if |rows| == 0 then 0
    else
      var m := rows[|rows| - 1];
      TransferVolume(rows[..|rows| - 1]) + (if IsTransfer(m.movementType) then Abs(m.quantity) else 0)
  }

  /** Every transfer row is also an inflow or an outflow. */
  lemma {:induction false} TransfersWithinFlows(rows: seq<MovementRow>)
    ensures TransferVolume(rows) <= Inflow(rows) + Outflow(rows)
    decreases |rows|
  {
    if |rows| > 0 {
      TransfersWithinFlows(rows[..|rows| - 1]);
    }
  }

  /** The summary over every fetched row, whatever branch is selected. A transfer unit is
      counted once as stock out and once as stock in, so the transfers never exceed half
      the two flows together. */
  function Summarize(rows: seq<MovementRow>): (s: MovementSummary)
    ensures s.stockIn == Inflow(rows) && s.stockOut == Outflow(rows)
    ensures 2 * s.transfers <= s.stockIn + s.stockOut
    ensures s.transfers == TransferVolume(rows) / 2
  {
    TransfersWithinFlows(rows);
    MovementSummary(Inflow(rows), Outflow(rows), TransferVolume(rows) / 2)
  }

  /** The row is listed under the branch selection `selected`; a missing branch id is ''. */
  predicate Listed(m: MovementRow, selected: string)
  {
    selected == "all" || OrElse(m.branchId, "") == selected
  }

  function ListedUnder(selected: string): MovementRow -> bool
  {
    m => Listed(m, selected)
  }

  function ToMovementItem(m: MovementRow): MovementItem
  {
    MovementItem(m.id, m.createdAt, OrElse(m.productName, "Unknown"),
                 VariantLabel(m.size, m.color), m.movementType, m.quantity,
                 OrElse(m.branchName, "Unknown"))
  }

  /** The rows of the selected branch, mapped in fetch order. */
  function Listing(rows: seq<MovementRow>, selected: string): seq<MovementItem>
  {
    Map(Filter(rows, ListedUnder(selected)), ToMovementItem)
  }

  /** Every item of the listing shows a fetched row of the selected branch. */
  lemma ListingSound(rows: seq<MovementRow>, selected: string)
    ensures forall it :: it in Listing(rows, selected) ==>
              exists m :: m in rows && Listed(m, selected) && it == ToMovementItem(m)
  {
    var f := Filter(rows, ListedUnder(selected));
    var items := Map(f, ToMovementItem);
    forall it | it in items
      ensures exists m :: m in rows && Listed(m, selected) && it == ToMovementItem(m)
    {
      var i :| 0 <= i < |items| && items[i] == it;
      var m := f[i];
      assert m in f && ListedUnder(selected)(m);
    }
  }

  /** The listed movements: the rows of the selected branch, in fetch order. Every item
      shows a fetched row of that branch, and every fetched row of that branch is shown. */
  function ListedMovements(rows: seq<MovementRow>, selected: string): (items: seq<MovementItem>)
    ensures |items| <= |rows|
    ensures forall it :: it in items ==>
              exists m :: m in rows && Listed(m, selected) && it == ToMovementItem(m)
    ensures forall m :: m in rows && Listed(m, selected) ==> ToMovementItem(m) in items
  {
    ListingSound(rows, selected);
    MapFilterComplete(rows, ListedUnder(selected), ToMovementItem);
    Listing(rows, selected)
  }

  /** Half a whole number rounded down, computed on reals as the running `qty / 2` sum and
      the final `Math.floor` do. */
  lemma HalfFloor(n: nat)
    ensures ((n as real) / 2.0).Floor == n / 2
  {
    var k := n / 2;
    if n % 2 == 0 {
      assert n as real == 2.0 * (k as real);
      assert (n as real) / 2.0 == k as real;
    } else {
      assert n as real == 2.0 * (k as real) + 1.0;
      assert (n as real) / 2.0 == k as real + 0.5;
    }
  }

  /** The tallies of rows extended by one more row. */
  lemma TalliesSnoc(rows: seq<MovementRow>, m: MovementRow)
    ensures Inflow(rows + [m]) == Inflow(rows) + (if IsInflow(m.movementType) then Abs(m.quantity) else 0)
    ensures Outflow(rows + [m]) == Outflow(rows) + (if IsOutflow(m.movementType) then Abs(m.quantity) else 0)
    ensures TransferVolume(rows + [m])
         == TransferVolume(rows) + (if IsTransfer(m.movementType) then Abs(m.quantity) else 0)
  {
    assert (rows + [m])[..|rows|] == rows;
  }

  /** The listing of rows extended by one more row. */
  lemma ListedSnoc(rows: seq<MovementRow>, m: MovementRow, selected: string)
    ensures Listing(rows + [m], selected)
         == Listing(rows, selected) + (if Listed(m, selected) then [ToMovementItem(m)] else [])
  {
    FilterSnoc(rows, m, ListedUnder(selected));
  }

  /** The tallies and the listing of a prefix one row longer. */
  lemma PrefixStep(rows: seq<MovementRow>, i: nat, selected: string)
    requires i < |rows|
    ensures var m := rows[i];
      && Inflow(rows[..i + 1]) == Inflow(rows[..i]) + (if IsInflow(m.movementType) then Abs(m.quantity) else 0)
      && Outflow(rows[..i + 1]) == Outflow(rows[..i]) + (if IsOutflow(m.movementType) then Abs(m.quantity) else 0)
      && TransferVolume(rows[..i + 1])
         == TransferVolume(rows[..i]) + (if IsTransfer(m.movementType) then Abs(m.quantity) else 0)
      && Listing(rows[..i + 1], selected)
         == Listing(rows[..i], selected) + (if Listed(m, selected) then [ToMovementItem(m)] else [])
  {
    assert rows[..i + 1] == rows[..i] + [rows[i]];
    TalliesSnoc(rows[..i], rows[i]);
    ListedSnoc(rows[..i], rows[i], selected);
  }

  /** `fetchMovementsData` after the query: one pass that accumulates the summary over
      every row and keeps the listed ones. */
  method FetchMovements(rows: seq<MovementRow>, selected: string)
    returns (movements: seq<MovementItem>, summary: MovementSummary)
    ensures movements == ListedMovements(rows, selected)
    ensures summary.stockIn == Inflow(rows)
    ensures summary.stockOut == Outflow(rows)
    ensures summary.transfers == TransferVolume(rows) / 2
  {
    var stockIn := 0;
    var stockOut := 0;
    var transfers: real := 0.0;
    movements := [];
    var i := 0;
    while i < |rows|
      invariant 0 <= i <= |rows|
      invariant stockIn == Inflow(rows[..i])
      invariant stockOut == Outflow(rows[..i])
      invariant transfers == (TransferVolume(rows[..i]) as real) / 2.0
      invariant movements == Listing(rows[..i], selected)
    {
      var m := rows[i];
      var qty := Abs(m.quantity);
      PrefixStep(rows, i, selected);
      if IsInflow(m.movementType) {
        stockIn := stockIn + qty;
      } else if IsOutflow(m.movementType) {
        stockOut := stockOut + qty;
      }
      if IsTransfer(m.movementType) {
        transfers := transfers + (qty as real) / 2.0;
      }
      if Listed(m, selected) {
        movements := movements + [ToMovementItem(m)];
      }
      i := i + 1;
    }
    assert rows[..i] == rows;
    HalfFloor(TransferVolume(rows));
    summary := MovementSummary(stockIn, stockOut, transfers.Floor);
  }

  /** A branch selection only drops rows from the listing, keeping the order of the rest;
      with 'all' every row is listed. */
  lemma SelectionOnlyDrops(rows: seq<MovementRow>, selected: string)
    ensures IsSubsequence(ListedMovements(rows, selected), ListedMovements(rows, "all"))
    ensures ListedMovements(rows, "all") == Map(rows, ToMovementItem)
  {
    FilterKeepsAll(rows, ListedUnder("all"));
    FilterIsSubsequence(rows, ListedUnder(selected));
    MapSubsequence(Filter(rows, ListedUnder(selected)), rows, ToMovementItem);
  }

  /** A row of a type none of the tallies recognises changes no part of the summary. */
  lemma UnrecognisedTypeIgnored(rows: seq<MovementRow>, m: MovementRow)
    requires !IsInflow(m.movementType) && !IsOutflow(m.movementType)
    ensures Summarize(rows + [m]) == Summarize(rows)
  {
    TalliesSnoc(rows, m);
  }

  /** A transfer recorded on both sides, an outgoing row and a matching incoming row,
      adds its size once to the transfers, and once to each of the two flows. */
  lemma TransferPairCountsOnce(rows: seq<MovementRow>, out: MovementRow, into: MovementRow)
    requires out.movementType == "transfer_out" && into.movementType == "transfer_in"
    requires Abs(out.quantity) == Abs(into.quantity)
    ensures Summarize(rows + [out, into]).transfers == Summarize(rows).transfers + Abs(out.quantity)
    ensures Summarize(rows + [out, into]).stockIn == Summarize(rows).stockIn + Abs(into.quantity)
    ensures Summarize(rows + [out, into]).stockOut == Summarize(rows).stockOut + Abs(out.quantity)
  {
    TalliesSnoc(rows, out);
    TalliesSnoc(rows + [out], into);
    assert rows + [out, into] == (rows + [out]) + [into];
  }
}
