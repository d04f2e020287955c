/** The inventory page: the stock-adjustment form's submit rule, which either does
    nothing, rejects the input with a message, or issues a stock mutation with the new
    quantity, and the combined search filter over the inventory rows. */
module InventoryPage {
  import opened Wrappers
  import opened Seqs
  import opened Ascii

  /** An `inventory` row joined with its branch and its variant's product; a link missing
      along a join is `None`. */
  datatype InventoryItem = InventoryItem(
    id: string,
    quantity: int,
    lowStockThreshold: int,
    branchId: Option<string>,
    branchName: Option<string>,
    productName: Option<string>,
    sku: Option<string>,
    size: Option<string>,
    color: Option<string>)

  /** Whether the dialog adds or removes stock. */
  datatype Direction = In | Out

  /** The movement type the mutation carries for a direction. */
  function DirectionName(d: Direction): string
  {
    match d
    case In => "in"
    case Out => "out"
  }

  /** The quantity field after parsing: left blank, or a whole number. */
  datatype QuantityInput = Blank | Entered(n: int)

  /** The user id every adjustment is recorded under. */
  const PerformedBy := "2214933b-7c33-480e-9177-5b53a1e8d2d0"

  const NonPositiveMessage := "Quantity must be greater than 0"
  const OverdrawMessage := "Cannot remove more than available stock"

  datatype Mutation = Mutation(
    newQuantity: int,
    quantity: int,
    movementType: string,
    inventoryId: string,
    reason: Option<string>,
    performedBy: string)

  datatype SubmitOutcome = Ignored | Rejected(message: string) | Issued(mutation: Mutation)

  /** The form's `onSubmit` for the selected row, the dialog's direction and the field
      values. */
  function Submit(selected: Option<InventoryItem>, direction: Direction,
                  quantity: QuantityInput, reason: string): (out: SubmitOutcome)
    ensures out.Ignored? <==> selected.None? || quantity.Blank?
    ensures out == Rejected(NonPositiveMessage) <==>
              selected.Some? && quantity.Entered? && quantity.n <= 0
    ensures out == Rejected(OverdrawMessage) <==>
              selected.Some? && quantity.Entered? && quantity.n > 0 &&
              direction == Out && quantity.n > selected.value.quantity
    ensures out.Issued? <==>
              selected.Some? && quantity.Entered? && quantity.n > 0 &&
              (direction == In || quantity.n <= selected.value.quantity)
  {
    if selected.None? || quantity.Blank? then Ignored
    else
      var item := selected.value;
      var q := quantity.n;
      if q <= 0 then Rejected(NonPositiveMessage)
      else if direction == Out && q > item.quantity then Rejected(OverdrawMessage)
      else
        var newQuantity := if direction == In then item.quantity + q else item.quantity - q;
        Issued(Mutation(newQuantity, q, DirectionName(direction), item.id,
                        NullIfEmpty(reason), PerformedBy))
  }

  /** An issued mutation carries the requested quantity, the direction and the selected
      row's id unchanged; an addition raises the stock by the quantity, and a removal
      lowers it strictly, never below zero. */
  lemma IssuedMutation(item: InventoryItem, direction: Direction, q: int, reason: string)
    requires Submit(Some(item), direction, Entered(q), reason).Issued?
    ensures var m := Submit(Some(item), direction, Entered(q), reason).mutation;
      && m.quantity == q
      && m.movementType == DirectionName(direction)
      && m.inventoryId == item.id
      && m.performedBy == PerformedBy
      && (direction == In ==> m.newQuantity == item.quantity + q && m.newQuantity > item.quantity)
      && (direction == Out ==> m.newQuantity == item.quantity - q &&
                               0 <= m.newQuantity < item.quantity)
      && (m.reason.None? <==> reason == "")
      && (m.reason.Some? ==> m.reason.value == reason)
  {
  }

  /** The search parameters of the page; each is optional. */
  datatype InventorySearch = InventorySearch(
    product: Option<string>,
    branchId: Option<string>,
    showLowStock: Option<bool>)

  /** `item.variant?.product?.name.toLowerCase().includes(term)`: false when the name is
      missing. */
  predicate FieldContains(field: Option<string>, lowerTerm: string)
  {
    field.Some? && Contains(LowerStr(field.value), lowerTerm)
  }

  predicate MatchesSearch(item: InventoryItem, product: Option<string>)
  {
    product.None? || product.value == ""
    || FieldContains(item.productName, LowerStr(product.value))
    || FieldContains(item.sku, LowerStr(product.value))
  }

  predicate MatchesBranch(item: InventoryItem, branchId: Option<string>)
  {
    branchId.None? || branchId.value == "" || branchId.value == "all"
    || item.branchId == Some(branchId.value)
  }

  /** The low-stock toggle uses a strict comparison. */
  predicate MatchesLowStock(item: InventoryItem, showLowStock: Option<bool>)
  {
    showLowStock.None? || !showLowStock.value || item.quantity < item.lowStockThreshold
  }

  predicate Matches(item: InventoryItem, search: InventorySearch)
  {
    MatchesSearch(item, search.product) && MatchesBranch(item, search.branchId)
    && MatchesLowStock(item, search.showLowStock)
  }

  function MatchesUnder(search: InventorySearch): InventoryItem -> bool
  {
    item => Matches(item, search)
  }

  /** `filteredInventory`: an order-preserving subsequence of the rows, keeping a row
      exactly when it passes each of the three filters. */
  function FilteredInventory(items: seq<InventoryItem>, search: InventorySearch)
    : (kept: seq<InventoryItem>)
    ensures IsSubsequence(kept, items)
    ensures forall item :: item in kept <==>
              item in items && MatchesSearch(item, search.product) &&
              MatchesBranch(item, search.branchId) && MatchesLowStock(item, search.showLowStock)
  {
    FilterIsSubsequence(items, MatchesUnder(search));
    Filter(items, MatchesUnder(search))
  }

  /** With no search parameters set, every row is shown, in order. */
  lemma NoSearchShowsAll(items: seq<InventoryItem>)
    ensures FilteredInventory(items, InventorySearch(None, None, None)) == items
  {
    FilterKeepsAll(items, MatchesUnder(InventorySearch(None, None, None)));
  }

  /** A non-empty term passes exactly the rows whose name or SKU contains it, ignoring
      case. */
  lemma SearchTermMeaning(item: InventoryItem, term: string)
    requires term != ""
    ensures MatchesSearch(item, Some(term)) <==>
              (item.productName.Some? && Contains(LowerStr(item.productName.value), LowerStr(term)))
              || (item.sku.Some? && Contains(LowerStr(item.sku.value), LowerStr(term)))
  {
  }

  /** Which rows the branch and low-stock filters keep. */
  lemma BranchAndLowStockMeaning(item: InventoryItem, id: string)
    ensures MatchesBranch(item, None) && MatchesBranch(item, Some("all"))
    ensures id != "" && id != "all" ==>
              (MatchesBranch(item, Some(id)) <==> item.branchId == Some(id))
    ensures MatchesLowStock(item, Some(true)) <==> item.quantity < item.lowStockThreshold
    ensures MatchesLowStock(item, None) && MatchesLowStock(item, Some(false))
  {
  }
}
