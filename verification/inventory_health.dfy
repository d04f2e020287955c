/** The inventory-health tab: status and branch filters over the health items, the
    critical and low counts behind the alert banner, the 50-row cap of the table, and the
    rows it exports. */
module InventoryHealthTab {
  import opened Wrappers
  import opened Seqs
  import opened Ascii
  import opened Reports
  import CsvExport

  /** The filters the tab starts with. */
  const DefaultStatusFilter := "low"
  const DefaultBranchFilter := "all"

  /** Rows the table renders at most. */
  const RowCap := 50

  predicate MatchesStatus(item: HealthItem, statusFilter: string)
  {
    statusFilter == "all"
    || (statusFilter == "low" && (item.status == Low || item.status == Critical))
    || StatusName(item.status) == statusFilter
  }

  predicate MatchesBranch(item: HealthItem, branchFilter: string)
  {
    branchFilter == "all" || item.branchId == branchFilter
  }

  function Passes(statusFilter: string, branchFilter: string): HealthItem -> bool
  {
    item => MatchesStatus(item, statusFilter) && MatchesBranch(item, branchFilter)
  }

  /** `filteredItems`: the items that pass both filters, in their original order. */
  function FilteredItems(items: seq<HealthItem>, statusFilter: string, branchFilter: string)
    : (kept: seq<HealthItem>)
    ensures IsSubsequence(kept, items)
    ensures forall item :: item in kept <==>
              item in items && MatchesStatus(item, statusFilter) && MatchesBranch(item, branchFilter)
  {
    FilterIsSubsequence(items, Passes(statusFilter, branchFilter));
    Filter(items, Passes(statusFilter, branchFilter))
  }

  predicate IsCritical(item: HealthItem) { item.status == Critical }

  predicate IsLow(item: HealthItem) { item.status == Low }

  function CriticalCount(items: seq<HealthItem>): nat { Count(items, IsCritical) }

  function LowCount(items: seq<HealthItem>): nat { Count(items, IsLow) }

  /** The alert banner: some item is critical or low. There is none without items. */
  predicate ShowsBanner(items: seq<HealthItem>)
    ensures ShowsBanner(items) ==> |items| > 0
  {
    CriticalCount(items) > 0 || LowCount(items) > 0
  }

  /** The rows the table renders. */
  function ShownRows(filtered: seq<HealthItem>): seq<HealthItem>
  {
    Take(filtered, RowCap)
  }

  predicate ShowsTruncationNote(filtered: seq<HealthItem>)
  {
    |filtered| > RowCap
  }

  /** What each status filter accepts: 'all' everything, 'low' both low and critical
      items, 'critical' and 'ok' exactly their status, and any other value nothing. */
  lemma StatusFilterMeaning(item: HealthItem, statusFilter: string)
    ensures MatchesStatus(item, "all")
    ensures MatchesStatus(item, "low") <==> item.status == Low || item.status == Critical
    ensures MatchesStatus(item, "critical") <==> item.status == Critical
    ensures MatchesStatus(item, "ok") <==> item.status == Ok
    ensures statusFilter !in {"all", "low", "critical", "ok"} ==> !MatchesStatus(item, statusFilter)
  {
  }

  /** The branch filter passes everything for 'all' and otherwise exactly the items of
      that branch id. */
  lemma BranchFilterMeaning(item: HealthItem, branchFilter: string)
    ensures MatchesBranch(item, "all")
    ensures branchFilter != "all" ==> (MatchesBranch(item, branchFilter) <==> item.branchId == branchFilter)
  {
  }

  /** What the 'critical' filter keeps is a subsequence of what the 'low' filter keeps
      under the same branch filter. */
  lemma CriticalWithinLow(items: seq<HealthItem>, branchFilter: string)
    ensures IsSubsequence(FilteredItems(items, "critical", branchFilter),
                          FilteredItems(items, "low", branchFilter))
  {
    FilterMonotone(items, Passes("critical", branchFilter), Passes("low", branchFilter));
  }

  /** The tab opens on the items that need attention: under the initial filters an item
      is shown exactly when it is low or critical, whatever its branch. */
  lemma DefaultFiltersShowAttention(items: seq<HealthItem>)
    ensures forall item :: item in FilteredItems(items, DefaultStatusFilter, DefaultBranchFilter) <==>
              item in items && item.status != Ok
  {
  }

  /** The counts ignore the filters, and the banner shows exactly when some item is not
      ok. */
  lemma BannerIffAttentionNeeded(items: seq<HealthItem>)
    ensures ShowsBanner(items) <==> exists i :: 0 <= i < |items| && items[i].status != Ok
  {
    if exists i :: 0 <= i < |items| && items[i].status != Ok {
      var i :| 0 <= i < |items| && items[i].status != Ok;
      assert items[i] in items;
      if items[i].status == Critical {
        assert items[i] in Filter(items, IsCritical);
      } else {
        assert items[i] in Filter(items, IsLow);
      }
    }
    if ShowsBanner(items) {
      var x := if CriticalCount(items) > 0 then Filter(items, IsCritical)[0]
               else Filter(items, IsLow)[0];
      assert x in items && x.status != Ok;
      var i :| 0 <= i < |items| && items[i] == x;
    }
  }

  /** The table shows the first `min(n, 50)` filtered items, and the note appears exactly
      when that leaves some out. */
  lemma RowCapMeaning(filtered: seq<HealthItem>)
    ensures |ShownRows(filtered)| == if |filtered| <= 50 then |filtered| else 50
    ensures IsPrefix(ShownRows(filtered), filtered)
    ensures ShowsTruncationNote(filtered) <==> |ShownRows(filtered)| < |filtered|
  {
  }

  /** The exported record of one item; the status is upper-cased. */
  function ExportRecord(item: HealthItem): (r: CsvExport.Record)
    ensures |r| == 7
  {
    [CsvExport.Entry("Product", CsvExport.Text(item.productName)),
     CsvExport.Entry("Variant", CsvExport.Text(item.variantLabel)),
     CsvExport.Entry("SKU", CsvExport.Text(item.sku)),
     CsvExport.Entry("Branch", CsvExport.Text(item.branchName)),
     CsvExport.Entry("Current Stock", CsvExport.Number(item.currentStock)),
     CsvExport.Entry("Reorder Threshold", CsvExport.Number(item.reorderThreshold)),
     CsvExport.Entry("Status", CsvExport.Text(UpperStr(StatusName(item.status))))]
  }

  /** The records the export button hands to the CSV serialiser: the filtered items,
      without the 50-row cap. */
  function ExportRecords(filtered: seq<HealthItem>): seq<CsvExport.Record>
  {
    Map(filtered, ExportRecord)
  }

  /** The column names of the export. */
  const ExportHeader: seq<string> :=
    ["Product", "Variant", "SKU", "Branch", "Current Stock", "Reorder Threshold", "Status"]

  lemma ExportHeaderPlain()
    ensures forall i :: 0 <= i < |ExportHeader| ==> !CsvExport.NeedsQuoting(ExportHeader[i])
  {
    forall i | 0 <= i < |ExportHeader|
      ensures !CsvExport.NeedsQuoting(ExportHeader[i])
    {
      var k := ExportHeader[i];
      assert forall j :: 0 <= j < |k| ==> 'A' <= k[j] <= 'z' || k[j] == ' ';
    }
  }

  /** The exported document reads back as the fixed header followed by one line per
      filtered item; nothing is exported when the filtered list is empty. */
  lemma ExportReadsBack(filtered: seq<HealthItem>)
    ensures CsvExport.ExportCsv(ExportRecords(filtered)).None? <==> |filtered| == 0
    ensures |filtered| > 0 ==>
      CsvExport.ParseDocument(CsvExport.ExportCsv(ExportRecords(filtered)).value)
        == [ExportHeader] + CsvExport.ValueLines(ExportRecords(filtered))
  {
    var data := ExportRecords(filtered);
    if |filtered| > 0 {
      assert CsvExport.Keys(data[0]) == ExportHeader;
      ExportHeaderPlain();
      forall e: CsvExport.Entry | e in data[0]
        ensures !CsvExport.NeedsQuoting(e.key)
      {
        var j :| 0 <= j < |data[0]| && data[0][j] == e;
        assert e.key == ExportHeader[j];
      }
      CsvExport.ExportRoundTrip(data);
    }
  }

  /** The last exported column of each line is the item's status in capitals. */
  lemma ExportStatusColumn(filtered: seq<HealthItem>, i: nat)
    requires i < |filtered|
    ensures CsvExport.ValueLines(ExportRecords(filtered))[i][6] == UpperStr(StatusName(filtered[i].status))
  {
  }

  /** Status names in capitals, as exported. */
  lemma ExportedStatusNames()
    ensures UpperStr(StatusName(Critical)) == "CRITICAL"
    ensures UpperStr(StatusName(Low)) == "LOW"
    ensures UpperStr(StatusName(Ok)) == "OK"
  {
  }
}
