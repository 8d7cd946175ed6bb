# Koko mall draw game — Dafny model

This project models the game logic of a browser lottery mini-game (`js/app.js`).
A player selects cells on a 64-cell grid by clicking or dragging, pays
10 per cell from an in-memory wallet, and watches an animated draw. The draw
is rigged: if the labels 6, 16, 26, 36, 46 and 56 are all selected, the
winning label is taken from the player's own labels. A win credits 1000 to the
wallet; a loss awards `10 + 10 * size` loyalty points. Recharging needs a
registered user, and a fixed "original price" purchase debits 640.

The page's global `state` object becomes one immutable `Game.Session` record,
and every handler becomes a pure transition on it:

- `selection.dfy` (`Selection`): the selection store, kept as an
  insertion-ordered sequence without duplicates, because a JavaScript `Set`
  keeps insertion order and the draw indexes into `Array.from(selected)`.
  Also holds `toggle` and the 0-based to 1-based label offset.
- `pricing.dfy` (`Pricing`): `Math.ceil(count * 640 / 64)` in exact integer
  arithmetic, the remaining-cell counter and the pay-button rule.
- `text.dfy` (`Text`): `String.prototype.trim`, used on the registration fields.
- `draw.dfy` (`DrawEngine`): one draw. Its labels are snapshotted at start,
  its 60 ms interval is a frame counter, and the rigged resolution rule and
  `checkSpecialWin` live here.
- `session.dfy` (`Game`): the session record, the drag protocol, the derived
  view values, recharge, registration, both purchases, the draw timers as
  events on the session, and reset.
- `scenarios.dfy` (`Scenarios`): whole rounds (pay, 31 frames, outcome), the
  timer quirks, concrete scenarios, and an invariant over any event history.
- `wrappers.dfy` (`Wrappers`): `Option`.

Randomness and input are explicit parameters:

- `Math.floor(Math.random() * n)` at resolution becomes a caller-supplied
  `pick < n`. Here `n` is the number of the player's labels for a rigged draw
  and 64 otherwise.
- Mouse and touch hit-testing becomes the cell index hit, or `None`.
- `parseInt` of the recharge input becomes an `Option<int>`, with `None` for `NaN`.
- Each firing of the interval is a `TickDraw` event, and the 500 ms outcome
  timeout is a `SettleDraw` event. Both are addressed by the draw's position
  in `Session.draws`.

Behaviour of the code that the model keeps as written:

- Nothing stops a second payment while a draw animates. Every payment appends
  its own draw to `Session.draws`, and the draws run side by side
  (`Scenarios.SecondPayDuringDraw`).
- `resetGame` cancels no timer. Draws that are running keep running after a reset.
- The outcome reads the live selection size when the timeout fires, while
  the labels were snapshotted at payment (`Scenarios.LossAfterResetIsBaseOnly`).
- `handleKokoPay` itself does not check that anything is selected. Only the
  disabled button prevents an empty payment, which then costs 0 and starts a
  draw that cannot be won.
- A second registration replaces the first user.
- The amount check in `handleRecharge` comes before the user check. An
  invalid amount is reported as such even without a user.

## Model

| member | source | states |
|---|---|---|
| Selection.Toggle | js/app.js:89-105 | after `toggle(idx, on)` the cell is selected iff `on`, no other cell's membership changes, a call finding the cell already in the desired state changes nothing, the size grows or shrinks by exactly one otherwise, and well-formedness is kept |
| Selection.Delete | js/app.js:98-100 | `Set.delete` removes exactly that element, shrinking a duplicate-free selection by one, and is a no-op for an absent element |
| Selection.ToggleIdempotent | js/app.js:89-105 | toggling twice with the same arguments equals toggling once |
| Selection.ToggleOnOffRestores | js/app.js:89-105 | selecting an absent cell and then deselecting it restores the selection exactly, order included |
| Selection.DeleteKeepsOrder | js/app.js:98-100 | deleting a cell keeps every other cell in its insertion order |
| Selection.CardinalityAtMostLength | js/app.js:130 | a label list has at most as many distinct labels as entries |
| Selection.SizeIsCardinality | js/app.js:108 | `selected.size` (the sequence length) equals the number of distinct selected cells |
| Selection.RemainingIsUnselected | js/app.js:115 | the "remaining" counter `64 - count` equals the number of unselected grid cells |
| Selection.Labels | js/app.js:201 | a draw's labels are the selected indices plus one, in the same order, distinct, and within 1..64 |
| Selection.Clear | js/app.js:255 | `selected.clear()` leaves no member |
| Pricing.Cost | js/app.js:109 | the price is the least whole number not below `count * 640 / 64` (rounding up, never down) |
| Pricing.CostIsTenPerCell | js/app.js:18 | since 640/64 is exactly 10, the price is 10 per selected cell |
| Pricing.CostMonotone | js/app.js:109 | selecting more cells never lowers the price |
| Pricing.Remaining | js/app.js:115 | the remaining counter equals the number of grid cells left unselected by any well-formed selection of that size, and lies within 0..64 for any count the grid allows |
| Pricing.CostBounds | js/app.js:109 | on a 64-cell grid the price is 0 only for an empty selection and at most 640, reached by the full grid |
| Pricing.PayEnabled | js/app.js:119-125 | the pay button is enabled exactly when the price is positive |
| Text.Trim | js/app.js:156-158 | `trim()` yields the slice between leading and trailing white space, neither end of the result being white space |
| Text.TrimEmptyIffAllSpace | js/app.js:160 | a trimmed field is empty exactly when the field is nothing but white space |
| DrawEngine.AllSpecial | js/app.js:204-205 | the rigging test over the special list holds exactly when the set {6, 16, 26, 36, 46, 56} is contained in the labels |
| DrawEngine.IsWin | js/app.js:228 | for labels taken from a selection, a revealed draw is won exactly when the cell one below the winning label (labels are 1-based, cells 0-based) is selected |
| DrawEngine.Start | js/app.js:201-205 | a new draw keeps the labels it was started with and is rigged exactly when all six special labels are among them |
| DrawEngine.Winner | js/app.js:217-223 | a rigged draw's winner is one of the player's labels; any other draw's winner is a label of the grid |
| DrawEngine.Tick | js/app.js:210-225 | a frame increments the counter; the first frame that pushes it past 30 reveals the winner; a draw no longer animating is unaffected |
| DrawEngine.PickIgnoredBeforeResolution | js/app.js:211-216 | the random value offered to a non-resolving frame has no effect |
| DrawEngine.RiggedDrawAlwaysWins | js/app.js:218-228 | a rigged draw is a win for every random pick |
| DrawEngine.RiggedWinnersAreUserLabels | js/app.js:218-220 | the winners a rigged draw can produce are exactly the player's labels |
| DrawEngine.HonestWinnersAreGridLabels | js/app.js:221-222 | the winners an honest draw can produce are exactly the labels 1..64 |
| DrawEngine.HonestWinIffSelected | js/app.js:222-228 | an honest draw is a win exactly when the drawn label is one of the player's |
| DrawEngine.CheckSpecialWin | js/app.js:129-133 | the unused `checkSpecialWin` agrees with the draw's inline test on every selection; its length condition is implied because the six special labels are distinct |
| DrawEngine.AllSpecialHasSix | js/app.js:26 | a label list holding all six special labels has at least six distinct labels |
| DrawEngine.TicksBeforeLastFrame | js/app.js:210-214 | for the first 30 frames the draw keeps animating and counts them |
| DrawEngine.ResolvedAfterLastFrame | js/app.js:213-223 | an animating draw given enough frames to pass 30 ends revealed with the winner of the resolving frame's pick |
| DrawEngine.TicksAfterReveal | js/app.js:214-215 | once the interval is cleared no further frame changes the draw |
| DrawEngine.ResolvesExactlyOnceOnFrame31 | js/app.js:210-225 | a fresh draw animates for frames 1..30, resolves on frame 31 with the pick of that frame, and never resolves again |
| Game.Initial | js/app.js:14-23 | the page starts with empty wallet, points and selection, no user, no drag in progress and no draw running, and satisfies the session invariant |
| Game.ToggleCell | js/app.js:89-105 | toggling a cell changes only the selection, as `Selection.Toggle` describes, and keeps the invariant |
| Game.StartDrag | js/app.js:57-66 | a press on a cell starts a drag whose mode is the negation of that cell's membership, so the cell flips; a press off the grid changes nothing |
| Game.DragMove | js/app.js:68-76 | a move forces the visited cell to the drag mode only while dragging and changes nothing else |
| Game.EndDrag | js/app.js:78 | releasing stops the drag and changes nothing else |
| Game.NoChangeAfterEndDrag | js/app.js:68-78 | after release, moving over cells changes nothing |
| Game.DragPathPaints | js/app.js:68-76 | during a drag every visited cell ends in the drag mode and every other cell keeps its membership |
| Game.DragGesture | js/app.js:57-78 | a press-move-release gesture flips the first cell, gives every visited cell the first cell's new state, and leaves other cells, money and draws untouched |
| Game.ViewOf | js/app.js:107-126 | the shown count is the selection's size, the price is 10 per counted cell, selected and remaining add up to 64, and the pay button is enabled iff the price is positive, iff the selection is non-empty |
| Game.ViewCountsCells | js/app.js:108-115 | on a valid session the selected count is the number of distinct selected cells and "remaining" the number of unselected grid cells |
| Game.Recharge | js/app.js:135-153 | an absent or non-positive amount changes nothing, and this is checked before the user; without a user nothing changes; otherwise the wallet grows by exactly the amount and nothing else changes |
| Game.Register | js/app.js:155-170 | the user is set to the trimmed fields only when none of them is blank; otherwise nothing changes |
| Game.BuyOriginal | js/app.js:172-180 | a wallet under 640 is refused with nothing changed; otherwise exactly 640 is debited, the wallet stays non-negative and nothing else changes |
| Game.KokoPay | js/app.js:182-196 | a wallet under the price is refused with nothing changed; otherwise exactly the price is debited and a new animating draw on the current labels, in selection order, is appended, whatever draws are already running |
| Game.TickDraw | js/app.js:211-225 | an interval firing moves only its own draw and touches no money, points or selection |
| Game.SettleDraw | js/app.js:227-249 | a revealed win credits exactly 1000 and no points; a loss awards exactly `10 + 10 * size` of the live selection and no money; the timeout of a draw not yet revealed changes nothing |
| Game.TickTimesIsTicks | js/app.js:211-216 | repeated firings of one draw's interval move that draw exactly as the engine's repeated frames do |
| Game.Reset | js/app.js:254-260 | reset empties the selection and changes nothing else, running draws included |
| Game.ResetIdempotent | js/app.js:254-260 | resetting twice is the same as resetting once |
| Scenarios.PayAndAnimate | js/app.js:182-225 | after paying and 31 frames the new draw shows its winner, the wallet is debited by the price and points and selection are unchanged |
| Scenarios.RiggedRoundPays | js/app.js:201-240 | a round paid with all six special labels selected always ends with wallet `old - price + 1000` and points unchanged |
| Scenarios.HonestRoundWin | js/app.js:221-240 | an honest round whose drawn label was selected pays the bonus and no points |
| Scenarios.HonestRoundLoss | js/app.js:241-247 | an honest round whose drawn label was not selected costs the price and awards `10 + 10 * size` points |
| Scenarios.SettleLoss | js/app.js:241-247 | the outcome timeout of a revealed losing draw leaves the wallet alone and awards `10 + 10 * size` points for the selection live at that moment |
| Scenarios.LossAfterResetIsBaseOnly | js/app.js:241-260 | a reset during the animation makes a lost draw award only the base 10 points, whatever was paid for |
| Scenarios.ResetThenAnimate | js/app.js:254-260 | a reset right after paying does not stop the draw: 31 frames later it still reveals its winner |
| Scenarios.SecondPayDuringDraw | js/app.js:182-196 | paying twice in a row debits twice and runs two draws side by side |
| Scenarios.WinScenario | js/app.js:182-240 | labels 6, 16, 26, 36, 46, 56 and 3 with 100 in the wallet: the balance drops to 30 and ends at 1030 for every pick |
| Scenarios.InsufficientScenario | js/app.js:182-187 | label 1 with 5 in the wallet: the payment is refused and nothing changes |
| Scenarios.RechargeScenario | js/app.js:135-170 | recharging 50 without a user only asks for registration; after registering, the same recharge credits 50 |
| Scenarios.AlwaysValid | js/app.js:57-260 | after any sequence of user and timer events the wallet and points are non-negative and the selection is a set of grid cells |
| Scenarios.FromPageLoad | js/app.js:14-23 | from page load, every reachable wallet is non-negative and every reachable selection well-formed |

## Left out

- `sw.js` and the service-worker registration (js/app.js:1-12): browser cache plumbing with no game logic.
- DOM construction and events (js/app.js:28-55), and `getCell`'s hit-testing of mouse and touch positions (js/app.js:80-87). Cells are indices, and a miss is `None`.
- CSS classes, the modals, the finish button, the pay-button caption and the clearing of the recharge input. These are display only.
- `navigator.vibrate`, `confetti` and `showToast` with its 3-second timer (js/app.js:262-269). They are fire-and-forget effects. Each handler's toast or modal appears only as the `Notice` it returns.
- The random label shown on each animation frame (js/app.js:212). It is display only and never read.
- Timer durations (60 ms, 500 ms). Frames and the outcome timeout are discrete events, and any interleaving of them with user events is allowed (`Scenarios.Run`).
- `Math.random` is replaced by the caller-supplied `pick`. The model says nothing about uniformity.
- `parseInt` quirks (hex prefixes, trailing text). The recharge input arrives already parsed.
- Floating point. `640 / 64` is exactly 10 in binary floating point, so the integer price is exact.
- Game.Recharge: the wallet is an unbounded integer. JavaScript numbers stop being exact above 2^53, and that is not modelled.
