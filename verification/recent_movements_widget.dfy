/** The dashboard's recent-activity card: each movement's badge label and colour, the
    signed quantity, and the card's empty state. */
module RecentMovementsWidget {
  import opened Wrappers
  import opened Seqs
  import opened Ascii
  import opened DashboardData

  /** The label lookup of the card; types outside the table are upper-cased. */
  function MovementLabel(t: string): (shown: string)
    ensures t !in {"transfer_in", "transfer_out", "adjustment"} ==> shown == UpperStr(t)
    ensures t in {"transfer_in", "transfer_out"} ==> shown == "TRANSFER"
    ensures t == "adjustment" ==> shown == "ADJ"
  {
    if t == "in" then "IN"
    else if t == "out" then "OUT"
    else if t == "transfer_in" || t == "transfer_out" then "TRANSFER"
    else if t == "adjustment" then "ADJ"
    else UpperStr(t)
  }

  datatype BadgeStyle = PrimaryStyle | DestructiveStyle | MutedStyle

  function MovementStyle(t: string): (style: BadgeStyle)
    ensures style == PrimaryStyle <==> t == "in" || t == "transfer_in"
    ensures style == DestructiveStyle <==> t == "out" || t == "transfer_out"
  {
    if t == "in" || t == "transfer_in" then PrimaryStyle
    else if t == "out" || t == "transfer_out" then DestructiveStyle
    else MutedStyle
  }

  /** The quantity is shown with a '+' and in the primary colour exactly when the type
      contains "in" anywhere. */
  function ShowsPlus(t: string): (plus: bool)
    ensures plus <==> exists k :: 0 <= k < |t| - 1 && t[k] == 'i' && t[k + 1] == 'n'
  {
    ContainsAt(t, "in");
    InPairs(t);
    Contains(t, "in")
  }

  /** "in" starts at some position exactly when an 'i' is directly followed by an 'n'. */
  lemma InPairs(t: string)
    ensures (exists k :: OccursAt(t, "in", k)) <==>
            exists k :: 0 <= k < |t| - 1 && t[k] == 'i' && t[k + 1] == 'n'
  {
    if exists k :: OccursAt(t, "in", k) {
      var k :| OccursAt(t, "in", k);
      assert t[k..k + 2][0] == t[k] && t[k..k + 2][1] == t[k + 1];
    }
    if exists k :: 0 <= k < |t| - 1 && t[k] == 'i' && t[k + 1] == 'n' {
      var k :| 0 <= k < |t| - 1 && t[k] == 'i' && t[k + 1] == 'n';
      assert t[k..k + 2] == "in";
      assert OccursAt(t, "in", k);
    }
  }

  datatype MovementLine = MovementLine(productName: string, badge: string, style: BadgeStyle,
                                       plus: bool, quantity: int)

  function ToLine(m: RecentMovement): MovementLine
  {
    MovementLine(m.productName, MovementLabel(m.movementType), MovementStyle(m.movementType),
                 ShowsPlus(m.movementType), m.quantity)
  }

  /** The card: a 'View all' link, and either the empty message or one line per movement. */
  datatype Card = Card(viewAll: bool, lines: Option<seq<MovementLine>>)

  function RenderCard(movements: seq<RecentMovement>): (c: Card)
    ensures c.viewAll <==> c.lines.Some?
    ensures c.lines.None? <==> |movements| == 0
    ensures c.lines.Some? ==> |c.lines.value| == |movements|
    ensures c.lines.Some? ==> forall i :: 0 <= i < |movements| ==> c.lines.value[i].productName == movements[i].productName
  {
    if |movements| == 0 then Card(false, None)
    else Card(true, Some(Map(movements, ToLine)))
  }

  /** `t` occurs in `s` starting at position `k`. */
  predicate OccursAt(s: string, t: string, k: int)
  {
    0 <= k && k + |t| <= |s| && s[k..k + |t|] == t
  }

  /** A piece occurs in a string exactly when it starts at some position. */
  lemma {:induction false} ContainsAt(s: string, t: string)
    ensures Contains(s, t) <==> exists k :: OccursAt(s, t, k)
    decreases |s|
  {
    if |s| > 0 {
      ContainsAt(s[1..], t);
      if IsPrefix(t, s) {
        assert OccursAt(s, t, 0);
      }
      if Contains(s[1..], t) {
        var k :| OccursAt(s[1..], t, k);
        assert s[k + 1..k + 1 + |t|] == s[1..][k..k + |t|];
        assert OccursAt(s, t, k + 1);
      }
      if exists k :: OccursAt(s, t, k) {
        var k :| OccursAt(s, t, k);
        if k > 0 {
          assert s[1..][k - 1..k - 1 + |t|] == s[k..k + |t|];
          assert OccursAt(s[1..], t, k - 1);
        } else {
          assert IsPrefix(t, s);
        }
      }
    } else if |t| == 0 {
      assert OccursAt(s, t, 0);
    }
  }

  /** A piece with a character the string lacks does not occur in it. */
  lemma MissingCharacter(s: string, t: string, c: char)
    requires c in t && c !in s
    ensures !Contains(s, t)
  {
    ContainsAt(s, t);
  }

  /** The two types of the label table that name an inflow get a '+', the two that name
      an outflow do not, so sign and badge colour agree on them. */
  lemma SignMatchesStyle()
    ensures ShowsPlus("in") && ShowsPlus("transfer_in")
    ensures !ShowsPlus("out") && !ShowsPlus("transfer_out")
  {
    assert "in"[0] == 'i' && "in"[1] == 'n';
    assert "transfer_in"[9] == 'i' && "transfer_in"[10] == 'n';
    MissingCharacter("out", "in", 'i');
    MissingCharacter("transfer_out", "in", 'i');
  }

  /** 'purchase_received' and 'adjustment_add' contain no "in", so they get no '+' and a
      muted badge although they add stock. */
  lemma InflowsWithoutPlus(t: string)
    requires t == "purchase_received" || t == "adjustment_add"
    ensures !ShowsPlus(t) && MovementStyle(t) == MutedStyle
  {
    if t == "purchase_received" {
      MissingCharacter(t, "in", 'n');
    } else {
      MissingCharacter(t, "in", 'i');
    }
  }

  /** Every type outside the label table is its own label upper-cased, so the labels of two
      such types differ only when the types differ other than in letter case. */
  lemma UnlistedLabels(t: string, u: string)
    requires t !in {"in", "out", "transfer_in", "transfer_out", "adjustment"}
    requires u !in {"in", "out", "transfer_in", "transfer_out", "adjustment"}
    requires LowerStr(t) == LowerStr(u)
    ensures MovementLabel(t) == MovementLabel(u)
    ensures MovementStyle(t) == MutedStyle
  {
    forall i | 0 <= i < |t|
      ensures Upper(t[i]) == Upper(u[i])
    {
      assert Lower(t[i]) == LowerStr(t)[i];
      UpperOfLowerEq(t[i], u[i]);
    }
  }
}
