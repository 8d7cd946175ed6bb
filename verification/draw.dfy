/** The draw engine started by a successful payment: an interval timer that
    animates for a fixed number of frames, then resolves the winning label
    with the rigged rule, then (after a short delay) reports the outcome. */
module DrawEngine {
  import opened Selection

  /** The labels whose joint selection guarantees a win. */
  const Specials: seq<int> := [6, 16, 26, 36, 46, 56]

  /** The interval resolves on the first frame whose counter exceeds this. */
  const LastFrame: nat := 30

  /** `specialNumbers.every(num => nums.includes(num))` */
  function AllSpecial(nums: seq<int>): (b: bool)
    ensures b <==> {6, 16, 26, 36, 46, 56} <= Members(nums)
  {
    var all := forall k :: 0 <= k < |Specials| ==> Specials[k] in nums;
    assert all <==> (Specials[0] in nums && Specials[1] in nums && Specials[2] in nums
                     && Specials[3] in nums && Specials[4] in nums && Specials[5] in nums);
    all
  }

  /** `Animating(frames)`: the interval is running and has fired `frames` times.
      `Revealed(win)`: the interval is cleared and the winner shown; the
      outcome timeout is pending. `Settled(won)`: the outcome has been applied. */
  datatype Phase = Animating(frames: nat) | Revealed(win: int) | Settled(won: bool)

  /** One draw: the user's labels as snapshotted when it started, the rigging
      flag computed from them at that moment, and where the timers are. */
  datatype Draw = Draw(userNums: seq<int>, guaranteed: bool, phase: Phase)

  /** What every draw started from a well-formed selection satisfies. */
  predicate Wf(d: Draw) {
    && NoDup(d.userNums)
    && (forall l :: l in d.userNums ==> 1 <= l <= Cells)
    && d.guaranteed == AllSpecial(d.userNums)
    && (d.phase.Animating? ==> d.phase.frames <= LastFrame)
    && (d.phase.Revealed? ==> 1 <= d.phase.win <= Cells)
  }

  /** `runDraw()` up to `setInterval`: snapshot the labels, decide the rigging. */
  function Start(userNums: seq<int>): (d: Draw)
    ensures d.userNums == userNums && d.phase == Animating(0)
    ensures d.guaranteed == AllSpecial(userNums)
    ensures NoDup(userNums) && (forall l :: l in userNums ==> 1 <= l <= Cells) ==> Wf(d)
  {
    Draw(userNums, AllSpecial(userNums), Animating(0))
  }

  /** The next interval firing is the one that resolves the draw. */
  predicate Resolving(d: Draw) {
    d.phase.Animating? && d.phase.frames + 1 > LastFrame
  }

  /** The `n` of the `Math.floor(Math.random() * n)` used to resolve `d`. */
  function PickRange(d: Draw): nat {
    if d.guaranteed then |d.userNums| else Cells
  }

  /** The resolution rule, with `pick` the value of `Math.floor(Math.random() * n)`:
      a rigged draw takes the `pick`-th of the user's labels, any other draw the
      label `pick + 1` of the whole grid. */
  function Winner(d: Draw, pick: nat): (w: int)
    requires pick < PickRange(d)
    ensures d.guaranteed ==> w in d.userNums
    ensures !d.guaranteed ==> 1 <= w <= Cells
  {
    if d.guaranteed then d.userNums[pick] else pick + 1
  }

  /** One firing of the 60 ms interval. The frame counter is incremented before
      it is compared with `LastFrame`; the firing that pushes it past resolves
      the winner and clears the interval, so a draw that is no longer animating
      has no interval left and is unaffected. `pick` is only read when resolving. */
  function Tick(d: Draw, pick: nat): (r: Draw)
    requires Resolving(d) ==> pick < PickRange(d)
    ensures r.userNums == d.userNums && r.guaranteed == d.guaranteed
    ensures d.phase.Animating? && !Resolving(d) ==> r.phase == Animating(d.phase.frames + 1)
    ensures Resolving(d) ==> r.phase == Revealed(Winner(d, pick))
    ensures !d.phase.Animating? ==> r == d
    ensures Wf(d) ==> Wf(r)
  {
    match d.phase
    case Animating(frames) =>
      if frames + 1 > LastFrame then d.(phase := Revealed(Winner(d, pick)))
      else d.(phase := Animating(frames + 1))
    case _ => d
  }

  /** `userNums.includes(win)` once the winner is revealed: for labels taken
      from a selection, the draw is won exactly when the cell one below the
      winning label is selected. */
  function IsWin(d: Draw): (b: bool)
    requires d.phase.Revealed?
    ensures forall sel {:trigger Labels(sel)} :: d.userNums == Labels(sel) ==> (b <==> d.phase.win - 1 in sel)
  {
    d.phase.win in d.userNums
  }

  /** The value drawn on a frame that does not resolve is never used. */
  lemma PickIgnoredBeforeResolution(d: Draw, p: nat, q: nat)
    requires !Resolving(d)
    ensures Tick(d, p) == Tick(d, q)
  {
  }

  /** A rigged draw always resolves to a win, whatever the random pick. */
  lemma RiggedDrawAlwaysWins(d: Draw, pick: nat)
    requires Resolving(d) && d.guaranteed && pick < PickRange(d)
    ensures IsWin(Tick(d, pick))
  {
  }

  /** A rigged draw can produce every one of the user's labels, and nothing else. */
  lemma RiggedWinnersAreUserLabels(d: Draw, w: int)
    requires d.guaranteed
    ensures w in d.userNums <==> exists pick: nat :: pick < PickRange(d) && Winner(d, pick) == w
  {
    if w in d.userNums {
      var k :| 0 <= k < |d.userNums| && d.userNums[k] == w;
      assert Winner(d, k) == w;
    }
  }

  /** An honest draw can produce every label of the grid, and it is a win
      exactly when the label is one of the user's. */
  lemma HonestWinnersAreGridLabels(d: Draw, w: int)
    requires !d.guaranteed
    ensures 1 <= w <= Cells <==> exists pick: nat :: pick < PickRange(d) && Winner(d, pick) == w
  {
    if 1 <= w <= Cells {
      assert Winner(d, w - 1) == w;
    }
  }

  /** On an honest draw the win is incidental: it is a win iff the drawn label was selected. */
  lemma HonestWinIffSelected(d: Draw, pick: nat)
    requires Resolving(d) && !d.guaranteed && pick < PickRange(d)
    ensures IsWin(Tick(d, pick)) <==> pick + 1 in d.userNums
  {
  }

  /** `checkSpecialWin()`: all special labels selected, and at least as many
      labels as there are special ones. The length test is redundant: the six
      special labels are distinct, so any label list holding all of them has
      at least six entries, and the unused helper agrees with the inline test
      of the draw on every selection. */
  function CheckSpecialWin(sel: seq<int>): (b: bool)
    ensures b <==> AllSpecial(Labels(sel))
  {
    var nums := Labels(sel);
    if AllSpecial(nums) then
      AllSpecialHasSix(nums);
      CardinalityAtMostLength(nums);
      |nums| >= |Specials|
    else false
  }

  /** The six special labels are distinct, so a sequence holding all of them
      has at least six distinct elements. */
  lemma AllSpecialHasSix(nums: seq<int>)
    requires AllSpecial(nums)
    ensures |Members(nums)| >= |Specials|
  {
    assert Specials[0] in nums && Specials[1] in nums && Specials[2] in nums;
    assert Specials[3] in nums && Specials[4] in nums && Specials[5] in nums;
    var sp: set<int> := {6, 16, 26, 36, 46, 56};
    assert sp <= Members(nums);
    assert |sp| == 6;
    SubsetCardinality(sp, Members(nums));
  }

  /** `n` interval firings, all offered the same `pick`. */
  function Ticks(d: Draw, n: nat, pick: nat): (r: Draw)
    requires pick < PickRange(d)
    ensures r.userNums == d.userNums && r.guaranteed == d.guaranteed
    decreases n
  {
    if n == 0 then d else Ticks(Tick(d, pick), n - 1, pick)
  }

  /** While the counter stays at or below `LastFrame` the draw keeps animating. */
  lemma {:induction false} TicksBeforeLastFrame(d: Draw, n: nat, pick: nat)
    requires d.phase.Animating? && d.phase.frames + n <= LastFrame
    requires pick < PickRange(d)
    ensures Ticks(d, n, pick).phase == Animating(d.phase.frames + n)
    decreases n
  {
    if n > 0 {
      TicksBeforeLastFrame(Tick(d, pick), n - 1, pick);
    }
  }

  /** Once revealed (or settled) no firing changes the draw any more. */
  lemma {:induction false} TicksAfterReveal(d: Draw, n: nat, pick: nat)
    requires !d.phase.Animating?
    requires pick < PickRange(d)
    ensures Ticks(d, n, pick) == d
    decreases n
  {
    if n > 0 {
      TicksAfterReveal(Tick(d, pick), n - 1, pick);
    }
  }

  /** A fresh draw animates for 30 firings, resolves on firing 31 with the
      winner picked then, and never resolves again. */
  lemma ResolvesExactlyOnceOnFrame31(nums: seq<int>, n: nat, pick: nat)
    requires pick < PickRange(Start(nums))
    ensures n <= LastFrame ==> Ticks(Start(nums), n, pick).phase == Animating(n)
    ensures n > LastFrame ==>
      Ticks(Start(nums), n, pick).phase == Revealed(Winner(Start(nums), pick))
  {
    var d := Start(nums);
    if n <= LastFrame {
      TicksBeforeLastFrame(d, n, pick);
    } else {
      ResolvedAfterLastFrame(d, n, pick);
    }
  }

  /** Enough firings resolve an animating draw, with the pick of the resolving one. */
  lemma {:induction false} ResolvedAfterLastFrame(d: Draw, n: nat, pick: nat)
    requires d.phase.Animating? && d.phase.frames <= LastFrame < d.phase.frames + n
    requires pick < PickRange(d)
    ensures Ticks(d, n, pick).phase == Revealed(Winner(d, pick))
    decreases n
  {
    var d1 := Tick(d, pick);
    if Resolving(d) {
      TicksAfterReveal(d1, n - 1, pick);
    } else {
      ResolvedAfterLastFrame(d1, n - 1, pick);
    }
  }
}
