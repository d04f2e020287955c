/** The stock-movements tab: the label of a movement type, the badge and sign shown for a
    movement, the 50-row cap of the table, and the rows it exports. */
module StockMovementsTab {
  import opened Wrappers
  import opened Seqs
  import opened Ascii
  import opened Reports
  import CsvExport

  const RowCap := 50

  /** The movement types with a label of their own. */
  predicate KnownType(t: string)
  {
    t in {"purchase_received", "adjustment_add", "adjustment_remove", "transfer_in", "transfer_out"}
  }

  /** `getMovementTypeLabel`: the five known types get a fixed label, anything else is
      shown as it is. */
  function TypeLabel(t: string): (shown: string)
    ensures shown == t <==> !KnownType(t)
    ensures KnownType(t) ==> |shown| > 0 && IsUpper(shown[0])
  {
    if t == "purchase_received" then "Purchase Received"
    else if t == "adjustment_add" then "Stock Added"
    else if t == "adjustment_remove" then "Stock Removed"
    else if t == "transfer_in" then "Transfer In"
    else if t == "transfer_out" then "Transfer Out"
    else t
  }

  /** Each known type has a label different from every other type's label, so the label
      identifies the type among the known ones. */
  lemma KnownLabelsDistinct(a: string, b: string)
    requires KnownType(a) && KnownType(b)
    requires TypeLabel(a) == TypeLabel(b)
    ensures a == b
  {
  }

  datatype Badge = TransferBadge | InBadge | OutBadge

  /** `getMovementBadge`: a type mentioning "transfer" always gets the transfer badge;
      any other gets IN exactly for a positive quantity and OUT otherwise, zero included. */
  function MovementBadge(t: string, quantity: int): (b: Badge)
    ensures Contains(t, "transfer") ==> b == TransferBadge
    ensures !Contains(t, "transfer") ==> (b == InBadge <==> quantity > 0) && (b == OutBadge <==> quantity <= 0)
  {
    if Contains(t, "transfer") then TransferBadge
    else if quantity > 0 then InBadge
    else OutBadge
  }

  /** Both transfer types contain "transfer", so they get the transfer badge whatever the
      sign of their quantity. */
  lemma TransferTypesGetTransferBadge(quantity: int)
    ensures MovementBadge("transfer_in", quantity) == TransferBadge
    ensures MovementBadge("transfer_out", quantity) == TransferBadge
  {
    assert IsPrefix("transfer", "transfer_in");
    assert IsPrefix("transfer", "transfer_out");
  }

  datatype Tone = SuccessTone | DestructiveTone

  /** The sign prefix of the quantity cell: '+' exactly for a positive quantity, and
      nothing otherwise (a negative quantity carries its own '-'). */
  function SignPrefix(quantity: int): (sign: string)
    ensures sign == "+" <==> quantity > 0
    ensures sign != "+" ==> sign == ""
  {
    if quantity > 0 then "+" else ""
  }

  /** The quantity's colour: the success tone exactly when the '+' prefix is shown. */
  function QuantityTone(quantity: int): (t: Tone)
    ensures t == SuccessTone <==> SignPrefix(quantity) == "+"
  {
    if quantity > 0 then SuccessTone else DestructiveTone
  }

  /** The '+' prefix and the success colour go together. */
  lemma SignAndTone(quantity: int)
    ensures QuantityTone(quantity) == SuccessTone <==> SignPrefix(quantity) == "+"
  {
  }

  function ShownRows(movements: seq<MovementItem>): seq<MovementItem>
  {
    Take(movements, RowCap)
  }

  predicate ShowsTruncationNote(movements: seq<MovementItem>)
  {
    |movements| > RowCap
  }

  /** The empty message shows exactly when the table has no row to render. */
  predicate ShowsEmptyMessage(movements: seq<MovementItem>)
    ensures ShowsEmptyMessage(movements) <==> ShownRows(movements) == []
  {
    |movements| == 0
  }

  /** The table shows the first `min(n, 50)` movements; the note appears exactly when
      that leaves some out. */
  lemma RowCapMeaning(movements: seq<MovementItem>)
    ensures |ShownRows(movements)| == if |movements| <= 50 then |movements| else 50
    ensures IsPrefix(ShownRows(movements), movements)
    ensures ShowsTruncationNote(movements) <==> |ShownRows(movements)| < |movements|
  {
  }

  /** The exported record of one movement. The date is rendered by `formatDate`, the
      formatting library call. */
  function ExportRecord(m: MovementItem, formatDate: string -> string): (r: CsvExport.Record)
    ensures CsvExport.Keys(r) == ExportHeader
  {
    [CsvExport.Entry("Date", CsvExport.Text(formatDate(m.date))),
     CsvExport.Entry("Product", CsvExport.Text(m.productName)),
     CsvExport.Entry("Variant", CsvExport.Text(m.variantLabel)),
     CsvExport.Entry("Type", CsvExport.Text(TypeLabel(m.movementType))),
     CsvExport.Entry("Quantity", CsvExport.Number(m.quantity)),
     CsvExport.Entry("Branch", CsvExport.Text(m.branchName))]
  }

  function ExportRecords(movements: seq<MovementItem>, formatDate: string -> string)
    : seq<CsvExport.Record>
  {
    Map(movements, m => ExportRecord(m, formatDate))
  }

  const ExportHeader: seq<string> := ["Date", "Product", "Variant", "Type", "Quantity", "Branch"]

  lemma ExportHeaderPlain()
    ensures forall i :: 0 <= i < |ExportHeader| ==> !CsvExport.NeedsQuoting(ExportHeader[i])
  {
    forall i | 0 <= i < |ExportHeader|
      ensures !CsvExport.NeedsQuoting(ExportHeader[i])
    {
      var k := ExportHeader[i];
      assert forall j :: 0 <= j < |k| ==> 'A' <= k[j] <= 'z';
    }
  }

  /** The export has one line per movement, with no 50-row cap, under a fixed header; it
      reads back line by line, and an empty listing exports nothing. */
  lemma ExportReadsBack(movements: seq<MovementItem>, formatDate: string -> string)
    ensures CsvExport.ExportCsv(ExportRecords(movements, formatDate)).None? <==> |movements| == 0
    ensures |movements| > 0 ==>
      CsvExport.ParseDocument(CsvExport.ExportCsv(ExportRecords(movements, formatDate)).value)
        == [ExportHeader] + CsvExport.ValueLines(ExportRecords(movements, formatDate))
    ensures |CsvExport.ValueLines(ExportRecords(movements, formatDate))| == |movements|
  {
    var data := ExportRecords(movements, formatDate);
    if |movements| > 0 {
      ExportHeaderPlain();
      forall e: CsvExport.Entry | e in data[0]
        ensures !CsvExport.NeedsQuoting(e.key)
      {
        var j :| 0 <= j < |data[0]| && data[0][j] == e;
        assert e.key == ExportHeader[j];
      }
      CsvExport.ExportRoundTrip(data);
    }
  }
}
