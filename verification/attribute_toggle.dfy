/** The size and colour pickers of the product form: clicking a value removes it from the
    list when it is there and appends it when it is not. */
module AttributeToggle {
  import opened Seqs

  /** `toggleValue(val)` on the field's current list. */
  function Toggle(current: seq<string>, v: string): (r: seq<string>)
    ensures v in current ==> |r| == |current| - 1
    ensures v !in current ==> |r| == |current| + 1
  {
    if v in current then
      var i := FirstIndex(current, v);
      current[..i] + current[i + 1..]
    else current + [v]
  }

  /** Toggling a present value drops its first occurrence and keeps everything else in
      order; toggling an absent value appends it at the end. */
  lemma ToggleEffect(current: seq<string>, v: string)
    ensures v in current ==>
      exists i :: 0 <= i < |current| && current[i] == v && v !in current[..i] &&
                  Toggle(current, v) == current[..i] + current[i + 1..]
    ensures v !in current ==> Toggle(current, v) == current + [v] && Toggle(current, v)[|current|] == v
  {
    if v in current {
      var i := FirstIndex(current, v);
      assert v !in current[..i];
    }
  }

  /** Toggling an absent value twice gives the list back. */
  lemma ToggleTwiceRestores(current: seq<string>, v: string)
    requires v !in current
    ensures Toggle(Toggle(current, v), v) == current
  {
    var t := current + [v];
    assert Toggle(current, v) == t;
    assert FirstIndex(t, v) == |current|;
    assert t[..|current|] == current;
  }

  /** On a list without repetitions the result has none either, the toggled value's
      membership flips, and every other value's membership stays as it was. */
  lemma ToggleOnDistinct(current: seq<string>, v: string)
    requires NoDuplicates(current)
    ensures NoDuplicates(Toggle(current, v))
    ensures v in Toggle(current, v) <==> v !in current
    ensures forall x :: x != v ==> (x in Toggle(current, v) <==> x in current)
  {
    var r := Toggle(current, v);
    if v in current {
      var i := FirstIndex(current, v);
      assert r == current[..i] + current[i + 1..];
      forall a, b | 0 <= a < b < |r|
        ensures r[a] != r[b]
      {
        var a' := if a < i then a else a + 1;
        var b' := if b < i then b else b + 1;
        assert r[a] == current[a'] && r[b] == current[b'];
      }
      forall x | x != v
        ensures x in r <==> x in current
      {
        if x in current {
          var k :| 0 <= k < |current| && current[k] == x;
          if k < i {
            assert r[k] == x;
          } else {
            assert k != i;
            assert r[k - 1] == x;
          }
        }
      }
    }
  }
}
