/** The selection store: the set of chosen grid cells, kept in insertion order
    the way a JavaScript `Set` keeps it, since the draw later indexes into
    `Array.from(selected)`. */
module Selection {

  /** Number of cells on the grid. */
  const Cells: int := 64

  predicate ValidIndex(i: int) {
    0 <= i < Cells
  }

  predicate NoDup(s: seq<int>) {
    forall i, j :: 0 <= i < j < |s| ==> s[i] != s[j]
  }

  /** A well-formed selection: distinct, valid cell indices. */
  predicate Wf(sel: seq<int>) {
    NoDup(sel) && forall x :: x in sel ==> ValidIndex(x)
  }

  /** The set view of the selection (ordering forgotten). */
  function Members(sel: seq<int>): set<int> {
    set x | x in sel
  }

  /** The indices `0 .. n-1`. */
  function Range(n: nat): (r: set<int>)
    ensures forall i :: i in r <==> 0 <= i < n
    ensures |r| == n
  {
    if n == 0 then {} else Range(n - 1) + {n - 1}
  }

  /** Every cell index of the grid. */
  function AllCells(): set<int> {
    Range(Cells)
  }

  /** The cells that are not selected. */
  function Unselected(sel: seq<int>): set<int> {
    AllCells() - Members(sel)
  }

  /** `Set.prototype.delete`: drops the element, keeping the order of the rest. */
  function Delete(sel: seq<int>, idx: int): (r: seq<int>)
    ensures forall x :: x in r <==> x in sel && x != idx
    ensures |r| <= |sel|
    ensures NoDup(sel) ==> NoDup(r)
    ensures NoDup(sel) && idx in sel ==> |r| == |sel| - 1
    ensures idx !in sel ==> r == sel
  {
    if |sel| == 0 then []
    else if sel[0] == idx then Delete(sel[1..], idx)
    else
      var rest := Delete(sel[1..], idx);
      assert NoDup(sel) ==> NoDup(sel[1..]) && sel[0] !in rest;
      [sel[0]] + rest
  }

  /** `toggle(idx, cell, on)`: forces the membership of `idx` to `on`; a call that
      finds the cell already in the desired state changes nothing. */
  function Toggle(sel: seq<int>, idx: int, on: bool): (r: seq<int>)
    ensures idx in r <==> on
    ensures forall x :: x != idx ==> (x in r <==> x in sel)
    ensures (idx in sel) == on ==> r == sel
    ensures Wf(sel) && ValidIndex(idx) ==> Wf(r)
    ensures NoDup(sel) && on && idx !in sel ==> |r| == |sel| + 1
    ensures NoDup(sel) && !on && idx in sel ==> |r| == |sel| - 1
  {
    if on then
      if idx in sel then sel else sel + [idx]
    else
      if idx in sel then Delete(sel, idx) else sel
  }

  /** `selected.clear()` */
  function Clear(sel: seq<int>): (r: seq<int>)
    ensures Members(r) == {}
    ensures Wf(r)
  {
    []
  }

  /** `Array.from(selected).map(i => i + 1)`: the 1-based labels of the selected cells. */
  function Labels(sel: seq<int>): (r: seq<int>)
    ensures |r| == |sel|
    ensures forall k :: 0 <= k < |sel| ==> r[k] == sel[k] + 1
    ensures forall l :: l in r <==> l - 1 in sel
    ensures NoDup(sel) ==> NoDup(r)
    ensures Wf(sel) ==> forall l :: l in r ==> 1 <= l <= Cells
  {
    seq(|sel|, k requires 0 <= k < |sel| => sel[k] + 1)
  }

  /** Applying `Toggle` twice with the same arguments is the same as applying it once. */
  lemma ToggleIdempotent(sel: seq<int>, idx: int, on: bool)
    ensures Toggle(Toggle(sel, idx, on), idx, on) == Toggle(sel, idx, on)
  {
  }

  /** Removing the element just appended gives back the original sequence. */
  lemma {:induction false} DeleteAppended(sel: seq<int>, idx: int)
    requires idx !in sel
    ensures Delete(sel + [idx], idx) == sel
  {
    if |sel| == 0 {
      assert sel + [idx] == [idx];
    } else {
      assert (sel + [idx])[1..] == sel[1..] + [idx];
      DeleteAppended(sel[1..], idx);
    }
  }

  /** Selecting an absent cell and then deselecting it restores the selection
      exactly, order included. */
  lemma ToggleOnOffRestores(sel: seq<int>, idx: int)
    requires idx !in sel
    ensures Toggle(Toggle(sel, idx, true), idx, false) == sel
  {
    DeleteAppended(sel, idx);
  }

  /** Deleting a cell keeps the others in their insertion order, which is
      why the selection is a sequence and not a set. */
  lemma {:induction false} DeleteKeepsOrder(a: seq<int>, b: seq<int>, idx: int)
    requires idx !in a && idx !in b
    ensures Delete(a + [idx] + b, idx) == a + b
  {
    var s := a + [idx] + b;
    if |a| == 0 {
      assert s[0] == idx && s[1..] == b;
    } else {
      assert s[0] == a[0] != idx;
      assert s[1..] == a[1..] + [idx] + b;
      assert Delete(s, idx) == [a[0]] + Delete(s[1..], idx);
      DeleteKeepsOrder(a[1..], b, idx);
      assert a + b == [a[0]] + (a[1..] + b);
    }
  }

  /** A sequence has at most as many distinct elements as it is long. */
  lemma {:induction false} CardinalityAtMostLength(s: seq<int>)
    ensures |Members(s)| <= |s|
  {
    if |s| > 0 {
      CardinalityAtMostLength(s[1..]);
      assert Members(s) == {s[0]} + Members(s[1..]);
    }
  }

  /** With no duplicates, the length of the selection is the size of its set view,
      so `selected.size` is the number of distinct chosen cells. */
  lemma {:induction false} SizeIsCardinality(sel: seq<int>)
    requires NoDup(sel)
    ensures |Members(sel)| == |sel|
  {
    if |sel| > 0 {
      var rest := sel[1..];
      assert NoDup(rest);
      SizeIsCardinality(rest);
      assert Members(sel) == {sel[0]} + Members(rest);
      assert sel[0] !in Members(rest);
    }
  }

  lemma SubsetCardinality(a: set<int>, b: set<int>)
    requires a <= b
    ensures |a| <= |b|
  {
    assert b == a + (b - a);
  }

  /** The "remaining" counter `64 - size` is exactly the number of unselected cells. */
  lemma RemainingIsUnselected(sel: seq<int>)
    requires Wf(sel)
    ensures |Unselected(sel)| == Cells - |sel|
  {
    SizeIsCardinality(sel);
    assert Members(sel) <= AllCells();
  }
}
