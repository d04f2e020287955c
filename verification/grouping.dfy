/** The group-by fold of the reports: rows are visited in order, the first row with a new
    key opens a group carrying that row's id, and every row adds its quantity and value to
    the group of its key. Groups come out in the order their keys first appear, which is
    the insertion order of the keyed record the fold builds. */
module Grouping {
  import opened Wrappers
  import opened Seqs

  /** How a row is seen by the fold: its group key, the id a new group takes from it,
      and the two amounts it contributes. */
  datatype Projection<-R> = Projection(key: R -> string, id: R -> string,
                                      quantity: R -> int, value: R -> int)

  datatype Group = Group(key: string, id: string, quantity: int, value: int)

  function GroupKeys(gs: seq<Group>): (ks: seq<string>)
    ensures |ks| == |gs|
    ensures forall i :: 0 <= i < |gs| ==> ks[i] == gs[i].key
  {
    seq(|gs|, i requires 0 <= i < |gs| => gs[i].key)
  }

  function RowKeys<R>(rows: seq<R>, p: Projection<R>): (ks: seq<string>)
    ensures |ks| == |rows|
    ensures forall i :: 0 <= i < |rows| ==> ks[i] == p.key(rows[i])
  {
    seq(|rows|, i requires 0 <= i < |rows| => p.key(rows[i]))
  }

  /** Position of the group with key `k`, if there is one. */
  function Find(gs: seq<Group>, k: string): (r: Option<nat>)
    ensures r.Some? ==> r.value < |gs| && gs[r.value].key == k
    ensures r.None? <==> k !in GroupKeys(gs)
    decreases |gs|
  {
    if |gs| == 0 then None
    else if gs[|gs| - 1].key == k then Some(|gs| - 1)
    else
      assert GroupKeys(gs) == GroupKeys(gs[..|gs| - 1]) + [gs[|gs| - 1].key];
      Find(gs[..|gs| - 1], k)
  }

  /** One step of the fold. */
  function AddRow<R>(gs: seq<Group>, row: R, p: Projection<R>): seq<Group>
  {
    match Find(gs, p.key(row))
    case None => gs + [Group(p.key(row), p.id(row), p.quantity(row), p.value(row))]
    case Some(i) =>
      gs[i := gs[i].(quantity := gs[i].quantity + p.quantity(row),
                     value := gs[i].value + p.value(row))]
  }

  /** The whole fold over `rows`, followed by the listing of the groups. */
  function GroupAll<R>(rows: seq<R>, p: Projection<R>): (gs: seq<Group>)
    ensures |gs| <= |rows|
    ensures |rows| > 0 ==> |gs| > 0
    decreases |rows|
  {
    if |rows| == 0 then []
    else AddRow(GroupAll(rows[..|rows| - 1], p), rows[|rows| - 1], p)
  }

  /** Sum of the quantities of all rows. */
  function RowsQuantity<R>(rows: seq<R>, p: Projection<R>): int
    decreases |rows|
  {
    if |rows| == 0 then 0
    else RowsQuantity(rows[..|rows| - 1], p) + p.quantity(rows[|rows| - 1])
  }

  /** Sum of the values of all rows. */
  function RowsValue<R>(rows: seq<R>, p: Projection<R>): int
    decreases |rows|
  {
    if |rows| == 0 then 0
    else RowsValue(rows[..|rows| - 1], p) + p.value(rows[|rows| - 1])
  }

  /** Sum of the quantities of the rows whose key is `k`. */
  function KeyQuantity<R>(rows: seq<R>, p: Projection<R>, k: string): int
    decreases |rows|
  {
    if |rows| == 0 then 0
    else
      var last := rows[|rows| - 1];
      KeyQuantity(rows[..|rows| - 1], p, k) + (if p.key(last) == k then p.quantity(last) else 0)
  }

  /** Sum of the values of the rows whose key is `k`. */
  function KeyValue<R>(rows: seq<R>, p: Projection<R>, k: string): int
    decreases |rows|
  {
    if |rows| == 0 then 0
    else
      var last := rows[|rows| - 1];
      KeyValue(rows[..|rows| - 1], p, k) + (if p.key(last) == k then p.value(last) else 0)
  }

  /** The id of the first row whose key is `k`. */
  function FirstId<R>(rows: seq<R>, p: Projection<R>, k: string): string
    requires k in RowKeys(rows, p)
  {
    p.id(rows[FirstIndex(RowKeys(rows, p), k)])
  }

  function GroupsQuantity(gs: seq<Group>): int
    decreases |gs|
  {
    if |gs| == 0 then 0 else GroupsQuantity(gs[..|gs| - 1]) + gs[|gs| - 1].quantity
  }

  function GroupsValue(gs: seq<Group>): int
    decreases |gs|
  {
    if |gs| == 0 then 0 else GroupsValue(gs[..|gs| - 1]) + gs[|gs| - 1].value
  }

  lemma RowKeysSnoc<R>(rows: seq<R>, p: Projection<R>)
    requires |rows| > 0
    ensures RowKeys(rows, p) == RowKeys(rows[..|rows| - 1], p) + [p.key(rows[|rows| - 1])]
  {
  }

  /** The group keys are the distinct row keys, in order of first appearance. */
  lemma {:induction false} GroupAllKeys<R>(rows: seq<R>, p: Projection<R>)
    ensures GroupKeys(GroupAll(rows, p)) == Dedup(RowKeys(rows, p))
    decreases |rows|
  {
    if |rows| > 0 {
      var init := rows[..|rows| - 1];
      var row := rows[|rows| - 1];
      GroupAllKeys(init, p);
      RowKeysSnoc(rows, p);
      var gs := GroupAll(init, p);
      var ks := RowKeys(rows, p);
      assert ks[..|ks| - 1] == RowKeys(init, p);
      match Find(gs, p.key(row))
      case None =>
        assert GroupKeys(gs + [Group(p.key(row), p.id(row), p.quantity(row), p.value(row))])
            == GroupKeys(gs) + [p.key(row)];
      case Some(i) =>
        var gs' := AddRow(gs, row, p);
        assert GroupKeys(gs') == GroupKeys(gs);
    }
  }

  /** No key names two groups. */
  lemma GroupAllDistinct<R>(rows: seq<R>, p: Projection<R>)
    ensures NoDuplicates(GroupKeys(GroupAll(rows, p)))
    ensures forall k :: k in GroupKeys(GroupAll(rows, p)) <==> k in RowKeys(rows, p)
  {
    GroupAllKeys(rows, p);
  }

  /** Changing one group's amounts changes the totals by the difference. */
  lemma {:induction false} GroupsUpdate(gs: seq<Group>, i: nat, g: Group)
    requires i < |gs|
    ensures GroupsQuantity(gs[i := g]) == GroupsQuantity(gs) - gs[i].quantity + g.quantity
    ensures GroupsValue(gs[i := g]) == GroupsValue(gs) - gs[i].value + g.value
    decreases |gs|
  {
    var n := |gs| - 1;
    if i < n {
      GroupsUpdate(gs[..n], i, g);
      assert gs[i := g][..n] == gs[..n][i := g];
    } else {
      assert gs[i := g][..n] == gs[..n];
    }
  }

  /** The fold conserves quantity and value: the groups together hold exactly what the
      rows together hold. */
  lemma {:induction false} GroupAllConserves<R>(rows: seq<R>, p: Projection<R>)
    ensures GroupsQuantity(GroupAll(rows, p)) == RowsQuantity(rows, p)
    ensures GroupsValue(GroupAll(rows, p)) == RowsValue(rows, p)
    decreases |rows|
  {
    if |rows| > 0 {
      var init := rows[..|rows| - 1];
      var row := rows[|rows| - 1];
      GroupAllConserves(init, p);
      var gs := GroupAll(init, p);
      assert RowsQuantity(rows, p) == RowsQuantity(init, p) + p.quantity(row);
      assert RowsValue(rows, p) == RowsValue(init, p) + p.value(row);
      match Find(gs, p.key(row))
      case None =>
        var g := Group(p.key(row), p.id(row), p.quantity(row), p.value(row));
        var gs' := gs + [g];
        assert GroupAll(rows, p) == gs';
        assert gs'[..|gs|] == gs;
      case Some(i) =>
        var g := gs[i].(quantity := gs[i].quantity + p.quantity(row),
                        value := gs[i].value + p.value(row));
        assert GroupAll(rows, p) == gs[i := g];
        GroupsUpdate(gs, i, g);
    }
  }

  /** Rows with a key that does not occur contribute nothing to it. */
  lemma {:induction false} KeyAbsent<R>(rows: seq<R>, p: Projection<R>, k: string)
    requires k !in RowKeys(rows, p)
    ensures KeyQuantity(rows, p, k) == 0 && KeyValue(rows, p, k) == 0
    decreases |rows|
  {
    if |rows| > 0 {
      RowKeysSnoc(rows, p);
      KeyAbsent(rows[..|rows| - 1], p, k);
    }
  }

  /** `g` holds exactly the sums over the rows of its key and the id of the first of them. */
  predicate Faithful<R>(rows: seq<R>, p: Projection<R>, g: Group)
  {
    && g.key in RowKeys(rows, p)
    && g.quantity == KeyQuantity(rows, p, g.key)
    && g.value == KeyValue(rows, p, g.key)
    && g.id == FirstId(rows, p, g.key)
  }

  /** A group of another key than the last row's is unaffected by that row. */
  lemma OldGroupStays<R>(rows: seq<R>, p: Projection<R>, g: Group)
    requires |rows| > 0
    requires Faithful(rows[..|rows| - 1], p, g) && g.key != p.key(rows[|rows| - 1])
    ensures Faithful(rows, p, g)
  {
    var init := rows[..|rows| - 1];
    RowKeysSnoc(rows, p);
    FirstIndexOfPrefix(RowKeys(init, p), p.key(rows[|rows| - 1]), g.key);
  }

  /** The group of the last row's key, updated by that row. */
  lemma UpdatedGroup<R>(rows: seq<R>, p: Projection<R>, g: Group)
    requires |rows| > 0
    requires Faithful(rows[..|rows| - 1], p, g) && g.key == p.key(rows[|rows| - 1])
    ensures Faithful(rows, p, g.(quantity := g.quantity + p.quantity(rows[|rows| - 1]),
                                 value := g.value + p.value(rows[|rows| - 1])))
  {
    var init := rows[..|rows| - 1];
    RowKeysSnoc(rows, p);
    FirstIndexOfPrefix(RowKeys(init, p), g.key, g.key);
  }

  /** The group the last row opens when its key is new. */
  lemma NewGroup<R>(rows: seq<R>, p: Projection<R>)
    requires |rows| > 0
    requires p.key(rows[|rows| - 1]) !in RowKeys(rows[..|rows| - 1], p)
    ensures var row := rows[|rows| - 1];
      Faithful(rows, p, Group(p.key(row), p.id(row), p.quantity(row), p.value(row)))
  {
    var init := rows[..|rows| - 1];
    var k := p.key(rows[|rows| - 1]);
    RowKeysSnoc(rows, p);
    KeyAbsent(init, p, k);
    assert FirstIndex(RowKeys(init, p) + [k], k) == |RowKeys(init, p)|;
  }

  predicate AllFaithful<R>(rows: seq<R>, p: Projection<R>, gs: seq<Group>)
  {
    forall g :: g in gs ==> Faithful(rows, p, g)
  }

  /** The fold step that opens a new group keeps every group faithful. */
  lemma PerKeyNewStep<R>(init: seq<R>, row: R, p: Projection<R>)
    requires AllFaithful(init, p, GroupAll(init, p))
    requires Find(GroupAll(init, p), p.key(row)).None?
    ensures AllFaithful(init + [row], p, GroupAll(init + [row], p))
  {
    var rows := init + [row];
    assert rows[..|rows| - 1] == init && rows[|rows| - 1] == row;
    var k := p.key(row);
    GroupAllDistinct(init, p);
    var gs := GroupAll(init, p);
    var n := Group(k, p.id(row), p.quantity(row), p.value(row));
    assert GroupAll(rows, p) == gs + [n];
    NewGroup(rows, p);
    forall g | g in gs + [n]
      ensures Faithful(rows, p, g)
    {
      if g in gs {
        var j :| 0 <= j < |gs| && gs[j] == g;
        assert GroupKeys(gs)[j] == g.key;
        OldGroupStays(rows, p, g);
      }
    }
  }

  lemma GroupAllSnoc<R>(init: seq<R>, row: R, p: Projection<R>)
    ensures GroupAll(init + [row], p) == AddRow(GroupAll(init, p), row, p)
  {
    var rows := init + [row];
    assert rows[..|rows| - 1] == init && rows[|rows| - 1] == row;
  }

  /** The fold step that adds to an existing group keeps every group faithful. */
  lemma PerKeyUpdateStep<R>(init: seq<R>, row: R, p: Projection<R>, i: nat)
    requires AllFaithful(init, p, GroupAll(init, p))
    requires Find(GroupAll(init, p), p.key(row)) == Some(i)
    ensures AllFaithful(init + [row], p, GroupAll(init + [row], p))
  {
    var gs := GroupAll(init, p);
    GroupAllSnoc(init, row, p);
    GroupAllDistinct(init, p);
    assert gs[i].key == p.key(row);
    UpdateStep(init, row, p, gs, i);
    assert AddRow(gs, row, p) == UpdateAt(gs, i, row, p);
  }

  /** The group list with the `i`-th group updated by `row`. */
  function UpdateAt<R>(gs: seq<Group>, i: nat, row: R, p: Projection<R>): (gs': seq<Group>)
    requires i < |gs|
    ensures |gs'| == |gs|
  {
    gs[i := gs[i].(quantity := gs[i].quantity + p.quantity(row), value := gs[i].value + p.value(row))]
  }

  /** Updating the group of the row's key keeps a faithful list of distinct groups faithful. */
  lemma UpdateStep<R>(init: seq<R>, row: R, p: Projection<R>, gs: seq<Group>, i: nat)
    requires AllFaithful(init, p, gs) && NoDuplicates(GroupKeys(gs))
    requires i < |gs| && gs[i].key == p.key(row)
    ensures AllFaithful(init + [row], p, UpdateAt(gs, i, row, p))
  {
    var gs' := UpdateAt(gs, i, row, p);
    forall g | g in gs'
      ensures Faithful(init + [row], p, g)
    {
      var j :| 0 <= j < |gs'| && gs'[j] == g;
      UpdateStepAt(init, row, p, gs, i, j);
    }
  }

  lemma UpdateStepAt<R>(init: seq<R>, row: R, p: Projection<R>, gs: seq<Group>, i: nat, j: nat)
    requires AllFaithful(init, p, gs) && NoDuplicates(GroupKeys(gs))
    requires i < |gs| && gs[i].key == p.key(row) && j < |gs|
    ensures Faithful(init + [row], p, UpdateAt(gs, i, row, p)[j])
  {
    var rows := init + [row];
    assert rows[..|rows| - 1] == init && rows[|rows| - 1] == row;
    assert gs[j] in gs;
    if j == i {
      UpdatedGroup(rows, p, gs[i]);
    } else {
      assert GroupKeys(gs)[j] == gs[j].key && GroupKeys(gs)[i] == p.key(row);
      OldGroupStays(rows, p, gs[j]);
    }
  }

  /** Every group holds exactly the sums over the rows of its key, and carries the id of
      the first such row. */
  lemma {:induction false} GroupAllPerKey<R>(rows: seq<R>, p: Projection<R>)
    ensures forall g :: g in GroupAll(rows, p) ==>
              g.key in RowKeys(rows, p) &&
              g.quantity == KeyQuantity(rows, p, g.key) &&
              g.value == KeyValue(rows, p, g.key) &&
              g.id == FirstId(rows, p, g.key)
    decreases |rows|
  {
    if |rows| > 0 {
      var init := rows[..|rows| - 1];
      var row := rows[|rows| - 1];
      assert rows == init + [row];
      GroupAllPerKey(init, p);
      assert AllFaithful(init, p, GroupAll(init, p));
      var f := Find(GroupAll(init, p), p.key(row));
      if f.None? {
        PerKeyNewStep(init, row, p);
      } else {
        PerKeyUpdateStep(init, row, p, f.value);
      }
      assert AllFaithful(rows, p, GroupAll(rows, p));
    }
  }

  /** Dropping only rows of other keys leaves the sums of key `k` as they were. */
  lemma {:induction false} KeyTotalsUnderFilter<R(!new)>(rows: seq<R>, p: Projection<R>,
                                                          keep: R -> bool, k: string)
    requires forall r :: p.key(r) == k ==> keep(r)
    ensures KeyQuantity(Filter(rows, keep), p, k) == KeyQuantity(rows, p, k)
    ensures KeyValue(Filter(rows, keep), p, k) == KeyValue(rows, p, k)
    decreases |rows|
  {
    if |rows| > 0 {
      var init := rows[..|rows| - 1];
      var last := rows[|rows| - 1];
      assert rows == init + [last];
      KeyTotalsUnderFilter(init, p, keep, k);
      KeyTotalsFilterStep(init, last, p, keep, k);
    }
  }

  /** One row more: its own key's sums grow alike with or without the filter. */
  lemma KeyTotalsFilterStep<R(!new)>(init: seq<R>, last: R, p: Projection<R>, keep: R -> bool, k: string)
    requires p.key(last) == k ==> keep(last)
    requires KeyQuantity(Filter(init, keep), p, k) == KeyQuantity(init, p, k)
    requires KeyValue(Filter(init, keep), p, k) == KeyValue(init, p, k)
    ensures KeyQuantity(Filter(init + [last], keep), p, k) == KeyQuantity(init + [last], p, k)
    ensures KeyValue(Filter(init + [last], keep), p, k) == KeyValue(init + [last], p, k)
  {
    FilterSnoc(init, last, keep);
    KeyTotalsSnoc(Filter(init, keep), last, p, k, keep(last));
    KeyTotalsSnoc(init, last, p, k, true);
  }

  lemma KeyTotalsSnoc<R>(rows: seq<R>, last: R, p: Projection<R>, k: string, kept: bool)
    requires !kept ==> p.key(last) != k
    ensures KeyQuantity(rows + (if kept then [last] else []), p, k)
         == KeyQuantity(rows, p, k) + (if p.key(last) == k then p.quantity(last) else 0)
    ensures KeyValue(rows + (if kept then [last] else []), p, k)
         == KeyValue(rows, p, k) + (if p.key(last) == k then p.value(last) else 0)
  {
    if kept {
      assert (rows + [last])[..|rows|] == rows;
    } else {
      assert rows + [] == rows;
    }
  }

  /** Dropping only rows of other keys keeps the first row of key `k` first. */
  lemma {:induction false} FirstIdUnderFilter<R(!new)>(rows: seq<R>, p: Projection<R>,
                                                        keep: R -> bool, k: string)
    requires forall r :: p.key(r) == k ==> keep(r)
    requires k in RowKeys(rows, p)
    ensures k in RowKeys(Filter(rows, keep), p)
    ensures FirstId(Filter(rows, keep), p, k) == FirstId(rows, p, k)
    decreases |rows|
  {
    var ks := RowKeys(rows, p);
    assert ks == [p.key(rows[0])] + RowKeys(rows[1..], p);
    if p.key(rows[0]) == k {
      FirstIdHead(rows, p, keep, k);
    } else {
      FirstIdUnderFilter(rows[1..], p, keep, k);
      FirstIdTail(rows, p, keep, k);
    }
  }

  lemma FirstIdHead<R(!new)>(rows: seq<R>, p: Projection<R>, keep: R -> bool, k: string)
    requires |rows| > 0 && p.key(rows[0]) == k && keep(rows[0])
    ensures k in RowKeys(rows, p) && k in RowKeys(Filter(rows, keep), p)
    ensures FirstId(Filter(rows, keep), p, k) == FirstId(rows, p, k)
  {
    var f := Filter(rows, keep);
    assert f[0] == rows[0];
    assert RowKeys(f, p)[0] == k;
    assert RowKeys(rows, p)[0] == k;
  }

  lemma FirstIdTail<R(!new)>(rows: seq<R>, p: Projection<R>, keep: R -> bool, k: string)
    requires |rows| > 0 && p.key(rows[0]) != k
    requires k in RowKeys(rows[1..], p) && k in RowKeys(Filter(rows[1..], keep), p)
    requires FirstId(Filter(rows[1..], keep), p, k) == FirstId(rows[1..], p, k)
    ensures k in RowKeys(rows, p) && k in RowKeys(Filter(rows, keep), p)
    ensures FirstId(Filter(rows, keep), p, k) == FirstId(rows, p, k)
  {
    var t := Filter(rows[1..], keep);
    assert rows == [rows[0]] + rows[1..];
    FirstIdCons(rows[0], rows[1..], p, k);
    if keep(rows[0]) {
      assert Filter(rows, keep) == [rows[0]] + t;
      FirstIdCons(rows[0], t, p, k);
    } else {
      assert Filter(rows, keep) == t;
    }
  }

  /** A row of another key in front does not change which row comes first for `k`. */
  lemma FirstIdCons<R>(a: R, rows: seq<R>, p: Projection<R>, k: string)
    requires p.key(a) != k && k in RowKeys(rows, p)
    ensures k in RowKeys([a] + rows, p)
    ensures FirstId([a] + rows, p, k) == FirstId(rows, p, k)
  {
    assert RowKeys([a] + rows, p) == [p.key(a)] + RowKeys(rows, p);
    FirstIndexCons(p.key(a), RowKeys(rows, p), k);
    var i := FirstIndex(RowKeys(rows, p), k);
    assert ([a] + rows)[1 + i] == rows[i];
  }
}
