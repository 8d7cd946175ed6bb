/** Whole-round properties: the paid draw played to its end, the timer quirks
    of the page, and the invariant over any sequence of user and timer events. */
module Scenarios {
  import opened Wrappers
  import opened Selection
  import opened DrawEngine
  import opened Game

  /** Pay, then let the new draw's interval fire 31 times: the draw shows its
      winner, the balance has been debited and nothing else has moved. */
  function PayAndAnimate(s: Session, pick: nat): (t: Session)
    requires s.wallet >= 10 * |s.selected|
    requires pick < PickRange(Start(Labels(s.selected)))
    ensures |s.draws| < |t.draws|
    ensures t.wallet == s.wallet - 10 * |s.selected|
    ensures t.points == s.points && t.selected == s.selected
    ensures t.draws[|s.draws|].userNums == Labels(s.selected)
    ensures t.draws[|s.draws|].phase == Revealed(Winner(Start(Labels(s.selected)), pick))
  {
    var p := KokoPay(s).next;
    var i := |s.draws|;
    var d := p.draws[i];
    assert d == Start(Labels(s.selected));
    TickTimesIsTicks(p, i, LastFrame + 1, pick);
    ResolvesExactlyOnceOnFrame31(d.userNums, LastFrame + 1, pick);
    TickTimes(p, i, LastFrame + 1, pick)
  }

  /** A whole round: pay, 31 frames, then the outcome timeout. */
  function PlayRound(s: Session, pick: nat): Session
    requires s.wallet >= 10 * |s.selected|
    requires pick < PickRange(Start(Labels(s.selected)))
  {
    SettleDraw(PayAndAnimate(s, pick), |s.draws|)
  }

  /** Selecting all six special labels (plus anything else) and paying is a
      sure win: the wallet ends at the old balance minus the price plus the
      bonus, and no points are awarded. */
  lemma RiggedRoundPays(s: Session, pick: nat)
    requires AllSpecial(Labels(s.selected))
    requires s.wallet >= 10 * |s.selected| && pick < |s.selected|
    ensures PlayRound(s, pick).wallet == s.wallet - 10 * |s.selected| + WinBonus
    ensures PlayRound(s, pick).points == s.points
    ensures PlayRound(s, pick).selected == s.selected
  {
    var t := PayAndAnimate(s, pick);
    assert IsWin(t.draws[|s.draws|]);
  }

  /** Without all six special labels the round is an honest draw of label
      `pick + 1`: it is a win, paying the bonus and no points, exactly when
      that label was selected. */
  lemma HonestRoundWin(s: Session, pick: nat)
    requires !AllSpecial(Labels(s.selected))
    requires s.wallet >= 10 * |s.selected| && pick < Cells && pick in s.selected
    ensures PlayRound(s, pick).wallet == s.wallet - 10 * |s.selected| + WinBonus
    ensures PlayRound(s, pick).points == s.points
  {
    var t := PayAndAnimate(s, pick);
    assert t.draws[|s.draws|].phase.win == pick + 1;
    assert pick + 1 in t.draws[|s.draws|].userNums;
    assert PlayRound(s, pick) == SettleDraw(t, |s.draws|);
  }

  /** An honest round whose label was not selected costs the price and awards
      `10 + 10 * size` points. */
  lemma HonestRoundLoss(s: Session, pick: nat)
    requires !AllSpecial(Labels(s.selected))
    requires s.wallet >= 10 * |s.selected| && pick < Cells && pick !in s.selected
    ensures PlayRound(s, pick).wallet == s.wallet - 10 * |s.selected|
    ensures PlayRound(s, pick).points == s.points + LossBase + LossPerCell * |s.selected|
  {
    var t := PayAndAnimate(s, pick);
    assert t.draws[|s.draws|].phase.win == pick + 1;
    assert pick + 1 !in t.draws[|s.draws|].userNums;
    SettleLoss(t, |s.draws|);
  }

  /** The outcome timeout of a revealed losing draw awards the loss points
      for the live selection and leaves the wallet alone. */
  lemma SettleLoss(t: Session, i: nat)
    requires i < |t.draws| && t.draws[i].phase.Revealed?
    requires t.draws[i].phase.win !in t.draws[i].userNums
    ensures SettleDraw(t, i).wallet == t.wallet
    ensures SettleDraw(t, i).points == t.points + LossBase + LossPerCell * |t.selected|
  {
  }

  /** The loss points are computed from the selection at the moment the
      outcome timeout fires, not from the labels the draw was paid for: a
      reset during the animation turns any loss into the base 10 points. */
  lemma LossAfterResetIsBaseOnly(s: Session, pick: nat)
    requires !AllSpecial(Labels(s.selected))
    requires s.wallet >= 10 * |s.selected| && pick < Cells && pick !in s.selected
    ensures var p := Reset(KokoPay(s).next);
            var i := |s.draws|;
            SettleDraw(TickTimes(p, i, LastFrame + 1, pick), i).points == s.points + LossBase
  {
    ResetThenAnimate(s, pick);
  }

  /** Reset right after paying, then 31 frames: the selection is empty and
      the draw shows the honestly drawn label. */
  lemma ResetThenAnimate(s: Session, pick: nat)
    requires !AllSpecial(Labels(s.selected))
    requires s.wallet >= 10 * |s.selected| && pick < Cells
    ensures var q := Reset(KokoPay(s).next);
            var t := TickTimes(q, |s.draws|, LastFrame + 1, pick);
      && |s.draws| < |t.draws|
      && t.selected == [] && t.points == s.points
      && t.draws[|s.draws|].phase == Revealed(pick + 1)
      && t.draws[|s.draws|].userNums == Labels(s.selected)
  {
    var q := Reset(KokoPay(s).next);
    var i := |s.draws|;
    var d := q.draws[i];
    assert d == Start(Labels(s.selected));
    TickTimesIsTicks(q, i, LastFrame + 1, pick);
    ResolvesExactlyOnceOnFrame31(d.userNums, LastFrame + 1, pick);
  }

  /** Nothing guards against paying again while a draw animates: two payments
      in a row run two draws side by side. */
  lemma SecondPayDuringDraw(s: Session)
    requires s.wallet >= 20 * |s.selected|
    ensures var r := KokoPay(KokoPay(s).next);
      && r.notice == DrawStarted
      && r.next.wallet == s.wallet - 20 * |s.selected|
      && |r.next.draws| == |s.draws| + 2
      && r.next.draws[|s.draws|].phase == Animating(0)
      && r.next.draws[|s.draws| + 1].phase == Animating(0)
  {
  }

  // ---------------------------------------------------------------- scenarios

  /** Labels 6, 16, 26, 36, 46, 56 and 3 with 100 in the wallet: the price is
      70, the balance drops to 30 and the draw always ends at 1030. */
  lemma WinScenario(pick: nat)
    requires pick < 7
    ensures var s := Session(100, 0, [5, 15, 25, 35, 45, 55, 2], None, false, false, []);
      && KokoPay(s).next.wallet == 30
      && PlayRound(s, pick).wallet == 1030
      && PlayRound(s, pick).points == 0
  {
    var s := Session(100, 0, [5, 15, 25, 35, 45, 55, 2], None, false, false, []);
    var nums := Labels(s.selected);
    assert nums[0] == 6 && nums[1] == 16 && nums[2] == 26;
    assert nums[3] == 36 && nums[4] == 46 && nums[5] == 56;
    assert AllSpecial(nums);
    RiggedRoundPays(s, pick);
  }

  /** Label 1 with 5 in the wallet: paying 10 is refused and nothing changes. */
  lemma InsufficientScenario()
    ensures var s := Session(5, 0, [0], None, false, false, []);
      KokoPay(s) == Step(s, EnergyInsufficient)
  {
  }

  /** Recharging 50 without a profile only asks for registration; after
      registering, the same recharge credits 50. */
  lemma RechargeScenario(s: Session)
    requires s.user.None?
    ensures Recharge(s, Some(50)) == Step(s, RegistrationRequired)
    ensures var t := Register(s, "A", "123", "a@x.com").next;
      Recharge(t, Some(50)).next.wallet == s.wallet + 50
  {
    assert !Text.IsSpace("A"[0]) && !Text.IsSpace("123"[0]) && !Text.IsSpace("a@x.com"[0]);
  }

  // ---------------------------------------------------------------- any history

  /** Everything that can happen to the page: user actions and timer firings. */
  datatype Event =
    | Press(cell: Option<int>)
    | Move(cell: Option<int>)
    | Release
    | RechargeInput(amount: Option<int>)
    | Submit(name: string, phone: string, email: string)
    | BuyOriginalPrice
    | Pay
    | Frame(draw: nat, pick: nat)
    | Timeout(draw: nat)
    | ResetGame

  /** Whether `e` can occur in `s`: cells come from the 64-cell grid, and only
      a started draw's timers can fire, with the random pick in range. */
  predicate CanOccur(s: Session, e: Event) {
    match e
    case Press(cell) => cell.Some? ==> ValidIndex(cell.value)
    case Move(cell) => cell.Some? ==> ValidIndex(cell.value)
    case Frame(i, pick) =>
      i < |s.draws| && (Resolving(s.draws[i]) ==> pick < PickRange(s.draws[i]))
    case Timeout(i) => i < |s.draws|
    case _ => true
  }

  function Apply(s: Session, e: Event): (r: Session)
    requires CanOccur(s, e)
  {
    match e
    case Press(cell) => StartDrag(s, cell)
    case Move(cell) => DragMove(s, cell)
    case Release => EndDrag(s)
    case RechargeInput(amount) => Recharge(s, amount).next
    case Submit(n, p, m) => Register(s, n, p, m).next
    case BuyOriginalPrice => BuyOriginal(s).next
    case Pay => KokoPay(s).next
    case Frame(i, pick) => TickDraw(s, i, pick)
    case Timeout(i) => SettleDraw(s, i)
    case ResetGame => Reset(s)
  }

  /** Plays `events` from `s`, skipping any event that cannot occur. */
  function Run(s: Session, events: seq<Event>): Session
    decreases |events|
  {
    if |events| == 0 then s
    else
      var s1 := if CanOccur(s, events[0]) then Apply(s, events[0]) else s;
      Run(s1, events[1..])
  }

  /** Whatever happens, the balance and the points never go negative and the
      selection stays a set of grid cells. */
  lemma {:induction false} AlwaysValid(s: Session, events: seq<Event>)
    requires Valid(s)
    ensures Valid(Run(s, events))
    ensures Run(s, events).wallet >= 0 && Run(s, events).points >= 0
    decreases |events|
  {
    if |events| > 0 {
      var s1 := if CanOccur(s, events[0]) then Apply(s, events[0]) else s;
      assert Valid(s1);
      AlwaysValid(s1, events[1..]);
    }
  }

  lemma FromPageLoad(events: seq<Event>)
    ensures Run(Initial(), events).wallet >= 0
    ensures Selection.Wf(Run(Initial(), events).selected)
  {
    AlwaysValid(Initial(), events);
  }
}
