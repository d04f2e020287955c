/** The dashboard's pending-orders card: each order's status chip, its delivery line and
    its link, and the card's empty state. */
module PendingOrdersWidget {
  import opened Wrappers
  import opened Seqs
  import opened Ascii
  import opened DashboardData

  datatype ChipStyle = PrimaryChip | AccentChip | MutedChip

  function StatusStyle(status: string): (style: ChipStyle)
    ensures style == PrimaryChip <==> status == "ordered"
    ensures style == AccentChip <==> status == "partial"
  {
    if status == "ordered" then PrimaryChip
    else if status == "partial" then AccentChip
    else MutedChip
  }

  /** `s.charAt(0).toUpperCase() + s.slice(1)`. */
  function Capitalize(s: string): (r: string)
    ensures |r| == |s|
    ensures |s| > 0 ==> r[0] == Upper(s[0]) && r[1..] == s[1..]
  {
    if |s| == 0 then "" else [Upper(s[0])] + s[1..]
  }

  datatype OrderLine = OrderLine(orderNumber: string, status: string, style: ChipStyle,
                                 supplierName: string, delivery: Option<string>, target: string)

  const OrderRoute := "/purchase-orders/"

  function ToLine(o: PendingOrder): OrderLine
  {
    OrderLine(o.orderNumber, Capitalize(o.status), StatusStyle(o.status), o.supplierName,
              if HasDelivery(o) then o.expectedDelivery else None, OrderRoute + o.id)
  }

  datatype Card = Card(viewAll: bool, lines: Option<seq<OrderLine>>)

  function RenderCard(orders: seq<PendingOrder>): (c: Card)
    ensures c.viewAll <==> c.lines.Some?
    ensures c.lines.None? <==> |orders| == 0
    ensures c.lines.Some? ==> |c.lines.value| == |orders|
  {
    if |orders| == 0 then Card(false, None)
    else Card(true, Some(Map(orders, ToLine)))
  }

  /** Capitalising twice is capitalising once; a status that already starts with a
      capital or a non-letter is shown as it is, and the pending statuses read
      'Draft', 'Ordered' and 'Partial'. */
  lemma CapitalizeMeaning(s: string)
    ensures Capitalize(Capitalize(s)) == Capitalize(s)
    ensures |s| > 0 && !IsLower(s[0]) ==> Capitalize(s) == s
    ensures Capitalize("draft") == "Draft" && Capitalize("ordered") == "Ordered"
    ensures Capitalize("partial") == "Partial"
  {
    if |s| > 0 {
      assert Capitalize(s)[1..] == s[1..];
    }
  }

  /** Each line carries its order's number and supplier, links to that order, and shows a
      delivery line exactly when the order has a non-empty delivery date. */
  lemma LineMeaning(o: PendingOrder)
    ensures ToLine(o).delivery.Some? <==> o.expectedDelivery.Some? && o.expectedDelivery.value != ""
    ensures ToLine(o).delivery.Some? ==> ToLine(o).delivery == o.expectedDelivery
    ensures IsPrefix(OrderRoute, ToLine(o).target) && ToLine(o).target[|OrderRoute|..] == o.id
    ensures ToLine(o).orderNumber == o.orderNumber && ToLine(o).supplierName == o.supplierName
  {
    assert (OrderRoute + o.id)[..|OrderRoute|] == OrderRoute;
  }

  /** The stat card's next delivery is the delivery line of the first order showing one,
      and there is none exactly when no line shows a delivery. */
  lemma NextDeliveryIsFirstLine(orders: seq<PendingOrder>)
    ensures var lines := Map(orders, ToLine);
      && (NextDelivery(orders).None? <==> forall i :: 0 <= i < |lines| ==> lines[i].delivery.None?)
      && (NextDelivery(orders).Some? ==>
            exists i :: 0 <= i < |lines| && lines[i].delivery == NextDelivery(orders) &&
                        forall k :: 0 <= k < i ==> lines[k].delivery.None?)
  {
    var lines := Map(orders, ToLine);
    var r := NextDelivery(orders);
    if r.Some? {
      var i :| 0 <= i < |orders| && HasDelivery(orders[i]) &&
               r.value == orders[i].expectedDelivery.value &&
               forall k :: 0 <= k < i ==> !HasDelivery(orders[k]);
      assert lines[i].delivery == r;
      assert forall k :: 0 <= k < i ==> lines[k].delivery.None?;
    } else {
      assert forall i :: 0 <= i < |lines| ==> lines[i].delivery.None? by {
        forall i | 0 <= i < |lines|
          ensures lines[i].delivery.None?
        {
          assert !HasDelivery(orders[i]);
        }
      }
    }
  }
}
