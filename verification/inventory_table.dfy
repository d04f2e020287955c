/** The inventory table: the status badge of a row, which of its two adjustment buttons
    is enabled, and whether the table, the empty message or the spinner is shown. */
module InventoryTable {
  import opened Wrappers
  import opened InventoryPage

  datatype StockBadge = LowStock | OutOfStock | InStock

  /** The badge decision: the below-threshold test comes before the zero test. Each badge
      holds for exactly its range, so every row gets exactly one. "Out of Stock" needs a
      threshold of at most zero: with a positive threshold an empty row is labelled
      "Low Stock". */
  function Badge(quantity: int, threshold: int): (b: StockBadge)
    ensures b == LowStock <==> quantity < threshold
    ensures b == OutOfStock <==> quantity == 0 && threshold <= 0
    ensures b == InStock <==> threshold <= quantity && quantity != 0
  {
    if quantity < threshold then LowStock
    else if quantity == 0 then OutOfStock
    else InStock
  }

  /** An empty row with a positive threshold shows "Low Stock". */
  lemma EmptyRowWithThresholdIsLow(threshold: int)
    requires threshold > 0
    ensures Badge(0, threshold) == LowStock
  {
  }

  /** The remove button is disabled on an empty row; the add button carries no disabled
      condition. */
  predicate RemoveDisabled(item: InventoryItem)
  {
    item.quantity == 0
  }

  /** The direction each enabled button opens the dialog with. */
  function Actions(item: InventoryItem): (ds: seq<Direction>)
    ensures In in ds
    ensures Out in ds <==> item.quantity != 0
  {
    if RemoveDisabled(item) then [In] else [In, Out]
  }

  datatype View = Spinner | NoRecords | Rows(items: seq<InventoryItem>)

  /** What the table renders; while the list has not arrived it renders an empty table. */
  function Render(loading: bool, inventory: Option<seq<InventoryItem>>): (v: View)
    ensures v.Spinner? <==> loading
    ensures v.NoRecords? <==> !loading && inventory == Some([])
    ensures v.Rows? && inventory.Some? ==> v.items == inventory.value
    ensures v.Rows? && inventory.None? ==> v.items == []
  {
    if loading then Spinner
    else if inventory.Some? && |inventory.value| == 0 then NoRecords
    else Rows(inventory.GetOr([]))
  }
}
