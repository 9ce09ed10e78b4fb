# Terminal horse race: a Dafny model of the game engine of race.c

race.c is a one-file console game. It does three things:

1. It sets up a field of six horses with distinct names drawn from a pool of twelve, random odds, and one colour per slot.
2. It asks the player for a horse number and a bet.
3. It runs the race tick by tick until a horse reaches the finish line, then settles the bet.

This project models that engine without the console: the field setup, the prompt's validation loop, the race loop and the settlement.

race.c has no odds bands, no rally bonus, no loans or debt, no bankroll kept between games and no bet history, so the model has none of them either.

Conventions of the model:

- **Random numbers.** Every call to `rand()` is replaced by the next element of an explicit sequence of draws (`Draw`, a natural number), consumed from the front. Each loop that calls `rand()` consumes at least one draw per pass. `PickName` and `RunFrom` terminate on the number of draws left, `ChooseHorse` on the number of typed inputs left, and the loops over the six slots or horses (`InitFrom`, `MoveFrom`) on the slots left. When the draws run out before the program's loop would have exited, the result is `Err(OutOfDraws)`.
- **Typed numbers.** The numbers typed at the horse prompt are an explicit sequence too. Running out of them gives `Err(OutOfInput)`.
- **Money and odds.** The `float` odds are integer hundredths: 250 stands for 2.50:1. The bet is integer cents. Winnings are therefore cents times hundredths, and exact.

Modules:

- `Horses` (horses.dfy): the constants (`NUM_HORSES` 6, `TRACK_LENGTH` 40, finish line 37, the pool of 12 names, the 6 colours), the `Horse` record, and `Result`/`Option`.
- `Field` (field.dfy): `initHorses`.
- `Race` (race.dfy): the race loop. It is given twice: as pure functions (`MoveFrom`/`Tick`/`RunFrom`), and as the program's imperative loops (`TickLoop`/`RaceLoop`) proved equal to them.
- `Betting` (betting.dfy): the horse-number prompt and the settlement.
- `Game` (game.dfy): `main` as one pipeline, and what a completed round guarantees.

## Model

| member | source | states |
|---|---|---|
| Field.PickName | race.c:63-67 | The name loop returns an index that was not yet used. That index is the last draw consumed, modulo 12. Every draw consumed before it hit a used index. The loop fails exactly when every available draw hits a used index. |
| Field.OddsOf | race.c:70 | A horse's odds, `draw % 400 + 100` hundredths, lie between 1.00 and 4.99. |
| Field.InitFrom | race.c:61-73 | From slot `i` on, the setup yields one horse per remaining slot. Their names are from the pool, pairwise distinct, and none is already marked used. Each horse has odds in range, position 0 and the colour of its slot. The draws left are a suffix of the input, at least two draws shorter per horse. The first horse is named by the index `PickName` chose, and its odds are `OddsOf` of the draw right after. |
| Field.ExtendField | race.c:67-72 | Marking the chosen name used and putting its horse in front of the later slots keeps the names distinct and outside the used set. |
| Field.InitHorses | race.c:58-74 | `initHorses` yields six horses. Their names are distinct and from the pool. Every horse has odds from 1.00 to 4.99, position 0 and colour `COLORS[i]`. It uses at least twelve draws. The first horse takes the first name the draws hit, and its odds come from the draw after that. It fails only by running out of draws. |
| Race.Advance | race.c:154-155 | An evaluated horse moves by exactly 0 or 1 cell, and by 1 exactly when its draw modulo 100 is below 30. |
| Race.MoveFrom | race.c:153-162 | One pass of the horse loop from horse `i` evaluates horses `i` through the winner, or through the last horse. It consumes exactly one draw per evaluated horse. It fails only when there are fewer draws than horses. |
| Race.MoveFromStep | race.c:153-162 | One step of the horse loop, for each way the horse's draw can go. A horse that does not move leaves the rest of the pass as if it had not been evaluated. A horse that moves but stays short of the line lets the pass continue with its position one higher. A horse that moves onto the line ends the pass at once as the winner. |
| Race.MoveFromAt | race.c:153-159 | Each horse evaluated in the pass ends at its own `Advance`. Every other horse keeps its position. |
| Race.MoveFromWinner | race.c:155-159 | The horse reported as winner is one whose draw carried it over the line. |
| Race.MoveFromFirst | race.c:153-159 | Any horse whose draw would carry it over the line has the winner at or before it in index order. |
| Race.TickStep | race.c:153-162 | About `Tick`, one pass of the horse loop. A tick consumes one draw per evaluated horse. Evaluated horses advance by their draws, and horses after the winner are untouched. No position decreases or grows by more than one. The winner crossed the line, and no other evaluated horse could have. If every horse started short of the line, the tick ends the race exactly when some horse reaches the line. The winner then stands on the line and every other horse is short of it. |
| Race.LowestIndexWins | race.c:153-159 | When two horses `a < b` would both cross in one tick, the winner's index is at most `a`, and `b` is not moved. |
| Race.RunFrom | race.c:147-165 | The race loop, when it finishes, reports a valid winner and the first displayed frame is the starting state. It fails only by running out of draws. |
| Race.RaceFinish | race.c:147-165 | Starting short of the line, the race ends with the winner exactly on the line and every other horse short of it. Horses after the winner did not move in the final tick. The race used six draws per full tick, plus one per horse evaluated in the last tick. |
| Race.RaceFrames | race.c:147-157 | The loop's invariant: in every displayed frame, all horses are short of the line. Between consecutive frames, every horse moves forward by 0 or 1. |
| Race.RaceProgress | race.c:147-165 | No horse goes backwards, and no horse gains more cells than there were ticks. |
| Race.TickLoop | race.c:153-162 | The program's `for` loop with its `break` computes exactly the pure tick: the same positions, `racing` flag, winner and draws left. It fails exactly when the pure tick does. |
| Race.RaceLoop | race.c:146-165 | The program's `while (racing)` loop computes exactly the pure race: the same frames, final positions, winner and draws left. It fails exactly when the pure race does. |
| Betting.ChooseHorse | race.c:132-135 | The prompt accepts the first typed number from 1 to 6. Every number typed before it was out of range. The prompt fails exactly when every typed number is out of range. |
| Betting.Settle | race.c:174-179 | The bet wins exactly when the chosen horse (`choice - 1`) is the winner, and then pays `bet` times the winner's odds. Otherwise the stake is lost and the winnings stay 0. |
| Betting.SettleBounds | race.c:174-179 | With odds from 1.00 to 4.99 and a bet that is not negative, the winnings lie between 0 and 4.99 times the bet. A winning bet returns at least the bet itself. |
| Game.Play | race.c:114-179 | `main` as a pipeline: setup, prompt, race on the draws the setup left, settlement. The field it reports has six horses, and the bet is the one read. |
| Game.PlayParts | race.c:120-175 | A completed round is made of a completed setup, a completed prompt and a completed race that starts from the field's positions. Its settlement is the one for that race's winner. |
| Game.RoundOutcome | race.c:114-179 | In every completed round: six distinctly named horses from the pool with odds from 1.00 to 4.99, and a horse number from 1 to 6. The race ends with one horse on the line and the others short of it, after at least 37 ticks. The winnings are the bet times the winner's odds when the player picked the winner, and 0 otherwise. For a bet that is not negative, they lie between 0 and 4.99 times the bet. |
| Game.RoundFacts | race.c:147-179 | From the starting line with odds in range, the race and the settlement have the properties `RoundOutcome` states. |

## Left out

- Console output is not modelled: the screen clearing, the cursor, the console mode, the track and horse-list displays, and every `printf` (race.c:38-56, 76-104, 107-112, 123-129, 168-172). `RaceResult.frames` records the states the track display would draw, without drawing them.
- `Sleep(100)` pacing between frames (race.c:164) is not modelled, since it only affects presentation.
- `srand(time(NULL))` and `rand()`: the seed and the generator are replaced by the explicit draw sequence. Draws are unbounded naturals. `RAND_MAX` is not modelled: an actual `rand()` never exceeds it, but every property here holds for any natural draw.
- `scanf` and `getchar` are not modelled. The horse prompt reads from an explicit sequence of integers. A non-numeric entry, which leaves `choice` unchanged and the input stuck, is not modelled. The bet is a parameter in integer cents. The program reads it without any check, and so does the model: a negative bet goes through and is reported as lost or multiplied by the odds.
- Floating point is not modelled. Odds are exact hundredths, the bet is exact cents, and winnings are their exact product. The program's `float` rounding in the division by 100 and in `bet * odds` is not reproduced.
- Termination of the name loop and the race loop depends on the random numbers, so it is not proved. The model ends every loop when the explicit draws run out and reports `Err(OutOfDraws)`, a state the program itself never reaches.
- Odds bands, a rally bonus, loans, debt, a bankroll kept between games and a bet history are not modelled, because race.c has none of them.
- Field.InitHorses: states the draw for the first horse's name and odds directly. Each later horse is tied to its draws by `Field.InitFrom`'s contract at that horse's own slot, given the used-name table at that slot. There is no single closed formula for the whole field.
