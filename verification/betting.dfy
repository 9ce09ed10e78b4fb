/**
 The player's side of race.c: the loop that asks for a horse number until it
 gets one in range, and the settlement of the bet once the race has a winner.
 The numbers typed at the prompt are an explicit sequence; the bet is kept in
 integer cents, and since odds are hundredths, winnings come out in
 ten-thousandths of a dollar (cents times hundredths), exactly.
 */
module Betting {
  import opened Horses

  /** A horse number accepted by the prompt, and the typed numbers not yet read. */
  datatype Choice = Choice(horse: int, rest: seq<int>)

  /** A typed number the prompt accepts: a horse number from 1 to `NumHorses`. */
  predicate InRange(n: int)
  {
    1 <= n <= NumHorses
  }

  /** The do-while loop of the prompt: read numbers until one is in range.
      When the typed numbers run out first the program would keep waiting,
      which the model reports as `OutOfInput`. */
  function ChooseHorse(inputs: seq<int>): (r: Result<Choice>)
    ensures r.Ok? ==> InRange(r.value.horse)
    ensures r.Ok? ==> IsSuffix(r.value.rest, inputs) && |r.value.rest| < |inputs|
    ensures r.Ok? ==>
              var n := Consumed(r.value.rest, inputs);
              && r.value.horse == inputs[n - 1]
              && forall k :: 0 <= k < n - 1 ==> !InRange(inputs[k])
    ensures r.Err? <==> forall k :: 0 <= k < |inputs| ==> !InRange(inputs[k])
    ensures r.Err? ==> r.error == OutOfInput
    decreases |inputs|
  {
    if |inputs| == 0 then Err(OutOfInput)
    else if InRange(inputs[0]) then Ok(Choice(inputs[0], inputs[1..]))
    else ChooseHorse(inputs[1..])
  }

  /** What the program announces after the race: the winnings of a bet on
      the winner, or the stake of a losing bet. */
  datatype Settlement = Won(winnings: int) | Lost(stake: int)

  /** The value of the `winnings` variable at the end: 0 unless the bet won. */
  function Winnings(s: Settlement): int
  {
    match s
    case Won(w) => w
    case Lost(_) => 0
  }

  /** Settle a bet of `bet` cents on horse number `choice` (1-based) when the
      horse at index `winner` (0-based) won: the bet pays `bet` times the
      winner's odds if the chosen horse is the winner, otherwise the stake is
      lost. */
  function Settle(field: seq<Horse>, winner: nat, choice: int, bet: int): (s: Settlement)
    requires winner < |field|
    ensures s.Won? <==> choice - 1 == winner
    ensures s.Won? ==> s.winnings == bet * field[winner].odds
    ensures s.Lost? ==> s.stake == bet && Winnings(s) == 0
  {
    if winner == choice - 1 then Won(bet * field[winner].odds) else Lost(bet)
  }

  /** With odds between 1.00 and 4.99, a winning bet returns between one and
      4.99 times the stake, and a bet that is not negative never yields
      negative winnings. */
  lemma SettleBounds(field: seq<Horse>, winner: nat, choice: int, bet: int)
    requires winner < |field| && 100 <= field[winner].odds <= 499
    requires bet >= 0
    ensures var s := Settle(field, winner, choice, bet);
            && 0 <= Winnings(s) <= 499 * bet
            && (s.Won? ==> 100 * bet <= Winnings(s))
  {
    ScaledBetBounds(bet, field[winner].odds);
  }

  /** `bet` times odds from 1.00 to 4.99 lies between one and 4.99 times `bet`:
      the step that keeps `SettleBounds` free of nonlinear search. */
  lemma {:induction false} ScaledBetBounds(bet: nat, odds: int)
    requires 100 <= odds <= 499
    ensures 100 * bet <= bet * odds <= 499 * bet
  {
    if bet > 0 {
      ScaledBetBounds(bet - 1, odds);
      assert bet * odds == (bet - 1) * odds + odds;
    }
  }
}
