/** Two places where parts of the system disagree with each other, stated as they are. */
module Consistency {
  import opened Wrappers
  import Reports
  import InventoryPage
  import InventoryTable
  import DashboardData

  /** The inventory page's low-stock toggle, the inventory table's badge and the
      dashboard's low-stock list call a row low when its quantity is strictly below its
      threshold; the reports' health classifier flags it when the quantity is at most the
      threshold or zero. The reports flag every row the other three call low, and they
      disagree exactly on rows whose quantity equals the threshold and on empty rows with
      a negative threshold. */
  lemma LowStockDisagreement(item: InventoryPage.InventoryItem, row: DashboardData.StockRow)
    requires row.quantity == item.quantity && row.lowStockThreshold == item.lowStockThreshold
    ensures var q := item.quantity;
            var t := item.lowStockThreshold;
            var strict := InventoryPage.MatchesLowStock(item, Some(true));
      && strict == (InventoryTable.Badge(q, t) == InventoryTable.LowStock)
      && strict == DashboardData.IsLowStock(row)
      && (strict ==> Reports.Classify(q, t) != Reports.Ok)
      && (strict != (Reports.Classify(q, t) != Reports.Ok) <==> q == t || (q == 0 && t < 0))
  {
  }

  /** The case that shows it: a row holding exactly its threshold of five is flagged Low
      in the reports and shown with no low-stock marking anywhere else. */
  lemma AtThresholdExample()
    ensures var item := InventoryPage.InventoryItem("i", 5, 5, None, None, None, None, None, None);
      && Reports.Classify(5, 5) == Reports.Low
      && !InventoryPage.MatchesLowStock(item, Some(true))
      && InventoryTable.Badge(5, 5) == InventoryTable.InStock
      && !DashboardData.IsLowStock(DashboardData.StockRow(5, 5, None, None, None, None))
  {
  }

  /** A stock adjustment issued from the inventory page is recorded with the movement type
      'in' or 'out'; a movement of either type leaves the reports' stock-in, stock-out and
      transfer totals unchanged. */
  lemma AdjustmentsNotTallied(selected: InventoryPage.InventoryItem, d: InventoryPage.Direction,
                              q: int, reason: string,
                              rows: seq<Reports.MovementRow>, m: Reports.MovementRow)
    requires InventoryPage.Submit(Some(selected), d, InventoryPage.Entered(q), reason).Issued?
    requires m.movementType ==
             InventoryPage.Submit(Some(selected), d, InventoryPage.Entered(q), reason).mutation.movementType
    ensures m.movementType in {"in", "out"}
    ensures Reports.Summarize(rows + [m]) == Reports.Summarize(rows)
  {
    Reports.UnrecognisedTypeIgnored(rows, m);
  }
}
