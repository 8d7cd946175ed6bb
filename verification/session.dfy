/** The session controller: the single game record and the handlers that the
    page wires to clicks, drags and timers, each as a pure transition. */
module Game {
  import opened Wrappers
  import opened Selection
  import opened Pricing
  import opened DrawEngine
  import Text

  /** Credited to the wallet when a draw is won. */
  const WinBonus: int := 1000

  /** Points for a lost draw: `LossBase + LossPerCell * size`. */
  const LossBase: int := 10
  const LossPerCell: int := 10

  datatype User = User(name: string, phone: string, email: string)

  /** The page's `state` object. `draws` holds every draw whose timers were
      started, in start order; nothing stops or removes them. */
  datatype Session = Session(
    wallet: int,
    points: int,
    selected: seq<int>,
    user: Option<User>,
    dragging: bool,
    dragMode: bool,
    draws: seq<Draw>)

  /** The message (toast, modal) a handler surfaces along with its new state. */
  datatype Notice =
    | InvalidAmount
    | RegistrationRequired
    | Recharged(amount: int)
    | IncompleteRegistration
    | Registered
    | OriginalInsufficient
    | OriginalPurchased
    | EnergyInsufficient
    | DrawStarted

  datatype Step = Step(next: Session, notice: Notice)

  /** The state on page load. */
  function Initial(): (s: Session)
    ensures Valid(s)
    ensures s.wallet == 0 && s.points == 0 && s.selected == [] && s.user.None?
    ensures !s.dragging && !s.dragMode && s.draws == []
  {
    Session(0, 0, [], None, false, false, [])
  }

  /** The invariant every handler preserves: money and points are never
      negative, the selection is a set of valid cells, and every draw was
      started from such a selection. */
  predicate Valid(s: Session) {
    && s.wallet >= 0
    && s.points >= 0
    && Selection.Wf(s.selected)
    && forall k :: 0 <= k < |s.draws| ==> DrawEngine.Wf(s.draws[k])
  }

  /** Nothing but the selection differs between the two states. */
  predicate OnlySelectionChanged(s: Session, r: Session) {
    r == s.(selected := r.selected)
  }

  // ---------------------------------------------------------------- selection

  /** `toggle(idx, cell, on)` on the session record. */
  function ToggleCell(s: Session, idx: int, on: bool): (r: Session)
    requires ValidIndex(idx)
    ensures OnlySelectionChanged(s, r)
    ensures idx in r.selected <==> on
    ensures forall x :: x != idx ==> (x in r.selected <==> x in s.selected)
    ensures Valid(s) ==> Valid(r)
  {
    s.(selected := Toggle(s.selected, idx, on))
  }

  /** `startDrag`: `cell` is the index under the mouse or finger, `None` when the
      press is not on a cell. The drag mode is the negation of the first
      cell's membership, so that cell always flips. */
  function StartDrag(s: Session, cell: Option<int>): (r: Session)
    requires cell.Some? ==> ValidIndex(cell.value)
    ensures cell.None? ==> r == s
    ensures cell.Some? ==>
      && r.dragging
      && r.dragMode == (cell.value !in s.selected)
      && (cell.value in r.selected <==> cell.value !in s.selected)
      && (forall x :: x != cell.value ==> (x in r.selected <==> x in s.selected))
      && r == s.(selected := r.selected, dragging := true, dragMode := r.dragMode)
    ensures Valid(s) ==> Valid(r)
  {
    match cell
    case None => s
    case Some(idx) =>
      var mode := idx !in s.selected;
      ToggleCell(s.(dragging := true, dragMode := mode), idx, mode)
  }

  /** `onDragMove`: while dragging, forces the visited cell to the drag mode. */
  function DragMove(s: Session, cell: Option<int>): (r: Session)
    requires cell.Some? ==> ValidIndex(cell.value)
    ensures !s.dragging || cell.None? ==> r == s
    ensures s.dragging && cell.Some? ==>
      && (cell.value in r.selected <==> s.dragMode)
      && (forall x :: x != cell.value ==> (x in r.selected <==> x in s.selected))
    ensures OnlySelectionChanged(s, r)
    ensures Valid(s) ==> Valid(r)
  {
    if !s.dragging then s
    else match cell
      case None => s
      case Some(idx) => ToggleCell(s, idx, s.dragMode)
  }

  /** `endDrag` */
  function EndDrag(s: Session): (r: Session)
    ensures !r.dragging
    ensures r == s.(dragging := false)
    ensures Valid(s) ==> Valid(r)
  {
    s.(dragging := false)
  }

  /** After the mouse or finger is released, moving it changes nothing. */
  lemma NoChangeAfterEndDrag(s: Session, cell: Option<int>)
    requires cell.Some? ==> ValidIndex(cell.value)
    ensures DragMove(EndDrag(s), cell) == EndDrag(s)
  {
  }

  predicate ValidCells(path: seq<Option<int>>) {
    forall c :: c in path && c.Some? ==> ValidIndex(c.value)
  }

  /** A sequence of `onDragMove` events. */
  function DragPath(s: Session, path: seq<Option<int>>): (r: Session)
    requires ValidCells(path)
    ensures OnlySelectionChanged(s, r)
    decreases |path|
  {
    if |path| == 0 then s else DragPath(DragMove(s, path[0]), path[1..])
  }

  /** During a drag every visited cell ends in the drag mode and every other
      cell keeps its membership. */
  lemma {:induction false} DragPathPaints(s: Session, path: seq<Option<int>>)
    requires s.dragging && ValidCells(path)
    ensures forall x :: Some(x) in path ==> (x in DragPath(s, path).selected <==> s.dragMode)
    ensures forall x :: Some(x) !in path ==> (x in DragPath(s, path).selected <==> x in s.selected)
    decreases |path|
  {
    if |path| > 0 {
      var s1 := DragMove(s, path[0]);
      var rest := path[1..];
      assert ValidCells(rest) by {
        forall c | c in rest && c.Some? ensures ValidIndex(c.value) {
          assert c in path;
        }
      }
      DragPathPaints(s1, rest);
      assert path == [path[0]] + rest;
      forall x | Some(x) in path
        ensures x in DragPath(s, path).selected <==> s.dragMode
      {
        if Some(x) !in rest {
          assert path[0] == Some(x);
        }
      }
    }
  }

  /** A whole drag gesture: press on `first`, move across `path`, release. The
      first cell flips and every cell passed over takes the first cell's new
      membership; nothing else is touched. */
  lemma DragGesture(s: Session, first: int, path: seq<Option<int>>)
    requires ValidIndex(first) && ValidCells(path)
    ensures var r := EndDrag(DragPath(StartDrag(s, Some(first)), path));
      && !r.dragging
      && (first in r.selected <==> first !in s.selected)
      && (forall x :: Some(x) in path ==> (x in r.selected <==> first !in s.selected))
      && (forall x :: x != first && Some(x) !in path ==> (x in r.selected <==> x in s.selected))
      && r.wallet == s.wallet && r.points == s.points && r.draws == s.draws
  {
    var s1 := StartDrag(s, Some(first));
    DragPathPaints(s1, path);
    if Some(first) in path {
      assert first in DragPath(s1, path).selected <==> s1.dragMode;
    }
  }

  // ---------------------------------------------------------------- derived view

  /** The values `updateUI` renders. */
  datatype View = View(
    selectedCount: int,
    remaining: int,
    cost: int,
    balance: int,
    points: int,
    payEnabled: bool)

  /** `updateUI()` without the DOM: count, free cells, price, and the pay button. */
  function ViewOf(s: Session): (v: View)
    ensures v.selectedCount == |s.selected|
    ensures v.cost == 10 * v.selectedCount
    ensures v.remaining + v.selectedCount == Cells
    ensures v.payEnabled <==> v.cost > 0
    ensures v.payEnabled <==> s.selected != []
    ensures v.balance == s.wallet && v.points == s.points
  {
    var count := |s.selected|;
    CostIsTenPerCell(count);
    View(count, Remaining(count), Cost(count), s.wallet, s.points, PayEnabled(count))
  }

  /** On a valid session the rendered counters count cells: the selected count
      is the number of distinct selected cells and "remaining" the number of
      free ones. */
  lemma ViewCountsCells(s: Session)
    requires Valid(s)
    ensures ViewOf(s).selectedCount == |Members(s.selected)|
    ensures ViewOf(s).remaining == |Unselected(s.selected)|
  {
    SizeIsCardinality(s.selected);
    RemainingIsUnselected(s.selected);
  }

  // ---------------------------------------------------------------- wallet

  /** `handleRecharge`: `amount` is the result of `parseInt` on the input,
      `None` for `NaN`. The amount is checked first, the user second. */
  function Recharge(s: Session, amount: Option<int>): (r: Step)
    ensures (amount.None? || amount.value <= 0) ==> r == Step(s, InvalidAmount)
    ensures amount.Some? && amount.value > 0 && s.user.None? ==>
      r == Step(s, RegistrationRequired)
    ensures amount.Some? && amount.value > 0 && s.user.Some? ==>
      && r.notice == Recharged(amount.value)
      && r.next.wallet == s.wallet + amount.value
      && r.next == s.(wallet := r.next.wallet)
    ensures r.next.wallet >= s.wallet
    ensures Valid(s) ==> Valid(r.next)
  {
    match amount
    case None => Step(s, InvalidAmount)
    case Some(amt) =>
      if amt <= 0 then Step(s, InvalidAmount)
      else if s.user.None? then Step(s, RegistrationRequired)
      else Step(s.(wallet := s.wallet + amt), Recharged(amt))
  }

  /** `submitRegistration`: all three trimmed fields must be non-empty; the
      trimmed values become the user, replacing any earlier one. */
  function Register(s: Session, name: string, phone: string, email: string): (r: Step)
    ensures (Text.AllSpace(name) || Text.AllSpace(phone) || Text.AllSpace(email)) ==>
      r == Step(s, IncompleteRegistration)
    ensures !Text.AllSpace(name) && !Text.AllSpace(phone) && !Text.AllSpace(email) ==>
      && r.notice == Registered
      && r.next == s.(user := r.next.user)
      && r.next.user.Some?
      && r.next.user.value.name != [] && r.next.user.value.phone != [] && r.next.user.value.email != []
      && r.next.user.value.name == Text.Trim(name)
      && r.next.user.value.phone == Text.Trim(phone)
      && r.next.user.value.email == Text.Trim(email)
    ensures Valid(s) ==> Valid(r.next)
  {
    var n := Text.Trim(name);
    var p := Text.Trim(phone);
    var e := Text.Trim(email);
    Text.TrimEmptyIffAllSpace(name);
    Text.TrimEmptyIffAllSpace(phone);
    Text.TrimEmptyIffAllSpace(email);
    if n == [] || p == [] || e == [] then Step(s, IncompleteRegistration)
    else Step(s.(user := Some(User(n, p, e))), Registered)
  }

  /** `buyOriginal`: a fixed debit of the full-grid price, refused when the wallet
      holds less. */
  function BuyOriginal(s: Session): (r: Step)
    ensures s.wallet < FullGridPrice ==> r == Step(s, OriginalInsufficient)
    ensures s.wallet >= FullGridPrice ==>
      && r.notice == OriginalPurchased
      && r.next.wallet + FullGridPrice == s.wallet
      && r.next.wallet >= 0
      && r.next == s.(wallet := r.next.wallet)
    ensures Valid(s) ==> Valid(r.next)
  {
    if s.wallet < FullGridPrice then Step(s, OriginalInsufficient)
    else Step(s.(wallet := s.wallet - FullGridPrice), OriginalPurchased)
  }

  /** `handleKokoPay`: debits the current price and starts a draw on the
      current labels. It neither checks that something is selected (only the
      button is disabled) nor that no other draw is running. */
  function KokoPay(s: Session): (r: Step)
    ensures s.wallet < 10 * |s.selected| ==> r == Step(s, EnergyInsufficient)
    ensures s.wallet >= 10 * |s.selected| ==>
      && r.notice == DrawStarted
      && r.next.wallet + 10 * |s.selected| == s.wallet
      && r.next.wallet >= 0
      && r.next.points == s.points && r.next.selected == s.selected && r.next.user == s.user
      && r.next.dragging == s.dragging && r.next.dragMode == s.dragMode
      && |r.next.draws| == |s.draws| + 1
      && r.next.draws[..|s.draws|] == s.draws
      && r.next.draws[|s.draws|] == Start(Labels(s.selected))
      // the three conjuncts below follow from the one above by `Start` and `Labels`
      && r.next.draws[|s.draws|].phase == Animating(0)
      && (forall l :: l in r.next.draws[|s.draws|].userNums <==> l - 1 in s.selected)
      && (r.next.draws[|s.draws|].guaranteed <==> AllSpecial(Labels(s.selected)))
    ensures Valid(s) ==> Valid(r.next)
  {
    var cost := Cost(|s.selected|);
    CostIsTenPerCell(|s.selected|);
    if s.wallet < cost then Step(s, EnergyInsufficient)
    else
      var r := s.(wallet := s.wallet - cost, draws := s.draws + [Start(Labels(s.selected))]);
      assert r.draws[..|s.draws|] == s.draws;
      Step(r, DrawStarted)
  }

  // ---------------------------------------------------------------- draw timers

  /** The frame of draw `i`'s interval fires. `pick` stands for the random
      choice made if this frame resolves the draw. */
  function TickDraw(s: Session, i: nat, pick: nat): (r: Session)
    requires i < |s.draws|
    requires Resolving(s.draws[i]) ==> pick < PickRange(s.draws[i])
    ensures r.wallet == s.wallet && r.points == s.points && r.selected == s.selected
    ensures r.user == s.user && r.dragging == s.dragging && r.dragMode == s.dragMode
    ensures |r.draws| == |s.draws|
    ensures forall k :: 0 <= k < |s.draws| && k != i ==> r.draws[k] == s.draws[k]
    ensures r.draws[i] == Tick(s.draws[i], pick)
    ensures Valid(s) ==> Valid(r)
  {
    s.(draws := s.draws[i := Tick(s.draws[i], pick)])
  }

  /** The 500 ms timeout after draw `i` revealed its winner. A win credits the
      bonus; a loss awards points for the number of cells selected NOW, which
      need not be the number of labels the draw was started with. */
  function SettleDraw(s: Session, i: nat): (r: Session)
    requires i < |s.draws|
    ensures |r.draws| == |s.draws|
    ensures !s.draws[i].phase.Revealed? ==> r == s
    ensures s.draws[i].phase.Revealed? && IsWin(s.draws[i]) ==>
      && r.wallet == s.wallet + WinBonus
      && r.points == s.points
      && r.draws[i].phase == Settled(true)
    ensures s.draws[i].phase.Revealed? && !IsWin(s.draws[i]) ==>
      && r.wallet == s.wallet
      && r.points == s.points + LossBase + LossPerCell * |s.selected|
      && r.draws[i].phase == Settled(false)
    ensures r.selected == s.selected && r.user == s.user
    ensures r.dragging == s.dragging && r.dragMode == s.dragMode
    ensures forall k :: 0 <= k < |s.draws| ==> r.draws[k].userNums == s.draws[k].userNums
    ensures forall k :: 0 <= k < |s.draws| && k != i ==> r.draws[k] == s.draws[k]
    ensures Valid(s) ==> Valid(r)
  {
    var d := s.draws[i];
    match d.phase
    case Revealed(win) =>
      var won := win in d.userNums;
      var d' := d.(phase := Settled(won));
      if won then s.(wallet := s.wallet + WinBonus, draws := s.draws[i := d'])
      else s.(points := s.points + LossBase + LossPerCell * |s.selected|, draws := s.draws[i := d'])
    case _ => s
  }

  /** `n` firings of draw `i`'s interval, all offered the same `pick`. */
  function TickTimes(s: Session, i: nat, n: nat, pick: nat): (r: Session)
    requires i < |s.draws| && pick < PickRange(s.draws[i])
    ensures |r.draws| == |s.draws|
    decreases n
  {
    if n == 0 then s else TickTimes(TickDraw(s, i, pick), i, n - 1, pick)
  }

  /** Firing draw `i` `n` times moves only that draw, exactly as the engine's `Ticks`. */
  lemma {:induction false} TickTimesIsTicks(s: Session, i: nat, n: nat, pick: nat)
    requires i < |s.draws| && pick < PickRange(s.draws[i])
    ensures TickTimes(s, i, n, pick) == s.(draws := s.draws[i := Ticks(s.draws[i], n, pick)])
    decreases n
  {
    if n > 0 {
      var s1 := TickDraw(s, i, pick);
      TickTimesIsTicks(s1, i, n - 1, pick);
      assert s1.draws[i := Ticks(s1.draws[i], n - 1, pick)]
        == s.draws[i := Ticks(s.draws[i], n, pick)];
    }
  }

  // ---------------------------------------------------------------- reset

  /** `resetGame`: empties the selection. It cancels no timer: draws still
      running keep running. */
  function Reset(s: Session): (r: Session)
    ensures Members(r.selected) == {} && r.selected == []
    ensures OnlySelectionChanged(s, r)
    ensures r.draws == s.draws
    ensures Valid(s) ==> Valid(r)
  {
    s.(selected := [])
  }

  lemma ResetIdempotent(s: Session)
    ensures Reset(Reset(s)) == Reset(s)
  {
  }
}
