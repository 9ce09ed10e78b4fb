/**
 One run of race.c from start to finish, without the console: set up the
 field, take the player's horse number and bet, run the race on the draws
 left after the setup, and settle the bet.
 */
module Game {
  import opened Horses
  import Field
  import Race
  import Betting

  /** Everything a round decides: the field as set up, the accepted horse
      number, the bet in cents, the race and the settlement. */
  datatype Round = Round(
    field: seq<Horse>,
    choice: int,
    bet: int,
    race: Race.RaceResult,
    settlement: Betting.Settlement)

  /** The positions of the field, in horse order. */
  function PositionsOf(field: seq<Horse>): (pos: seq<int>)
    ensures |pos| == |field|
    ensures forall j :: 0 <= j < |field| ==> pos[j] == field[j].position
  {
    seq(|field|, j requires 0 <= j < |field| => field[j].position)
  }

  /** The program's `main`: the draws feed `initHorses` and then the race,
      the typed numbers feed the prompt, and `bet` is the amount read (it is
      read without any check). */
  function Play(draws: seq<Draw>, inputs: seq<int>, bet: int): (r: Result<Round>)
    ensures r.Ok? ==> |r.value.field| == NumHorses && r.value.bet == bet
  {
    match Field.InitHorses(draws)
    case Err(e) => Err(e)
    case Ok((field, rest)) =>
      match Betting.ChooseHorse(inputs)
      case Err(e) => Err(e)
      case Ok(c) =>
        match Race.RunFrom(PositionsOf(field), rest)
        case Err(e) => Err(e)
        case Ok(rr) =>
          Ok(Round(field, c.horse, bet, rr, Betting.Settle(field, rr.winner, c.horse, bet)))
  }

  /** The pieces of a completed round: the setup, the prompt and the race
      all finished, and the settlement is that of the race's winner. */
  lemma PlayParts(draws: seq<Draw>, inputs: seq<int>, bet: int, g: Round)
    requires Play(draws, inputs, bet) == Ok(g)
    ensures Field.InitHorses(draws).Ok? && Betting.ChooseHorse(inputs).Ok?
    ensures var (field, rest) := Field.InitHorses(draws).value;
            && Race.RunFrom(PositionsOf(field), rest) == Ok(g.race)
            && g.field == field
            && g.choice == Betting.ChooseHorse(inputs).value.horse
            && g.settlement == Betting.Settle(field, g.race.winner, g.choice, bet)
  {
  }

  /** What a completed round guarantees: a field of six distinctly named
      horses from the pool with odds from 1.00 to 4.99; a horse number from 1
      to 6; a race that lasted at least as many ticks as the finish line is
      long, won by the one horse standing on the line; and winnings equal to
      the bet times the winner's odds when the player picked the winner, and 0
      otherwise. */
  lemma RoundOutcome(draws: seq<Draw>, inputs: seq<int>, bet: int, g: Round)
    requires Play(draws, inputs, bet) == Ok(g)
    ensures |g.field| == NumHorses && Field.NamesFromPoolAndDistinct(g.field)
    ensures forall j :: 0 <= j < NumHorses ==> 100 <= g.field[j].odds <= 499
    ensures Betting.InRange(g.choice)
    ensures g.race.winner < NumHorses && |g.race.positions| == NumHorses
    ensures g.race.positions[g.race.winner] == FinishLine
    ensures forall j :: 0 <= j < NumHorses && j != g.race.winner ==> g.race.positions[j] < FinishLine
    ensures |g.race.frames| >= FinishLine
    ensures g.settlement.Won? <==> g.choice == g.race.winner + 1
    ensures Betting.Winnings(g.settlement) ==
              if g.choice == g.race.winner + 1 then bet * g.field[g.race.winner].odds else 0
    ensures bet >= 0 ==> 0 <= Betting.Winnings(g.settlement) <= 499 * bet
  {
    PlayParts(draws, inputs, bet, g);
    var rest := Field.InitHorses(draws).value.1;
    var pos := PositionsOf(g.field);
    forall j | 0 <= j < NumHorses ensures pos[j] == 0 {
      assert Field.FreshHorse(g.field[j], j);
    }
    RoundFacts(g.field, pos, rest, g.choice, bet, g);
  }

  /** The facts of `RoundOutcome`, from the pieces of the round: the race
      ran from the starting line on the draws the setup left. */
  lemma RoundFacts(field: seq<Horse>, pos: seq<int>, rest: seq<Draw>, choice: int, bet: int, g: Round)
    requires |field| == NumHorses && |pos| == NumHorses
    requires forall j :: 0 <= j < NumHorses ==> pos[j] == 0 && 100 <= field[j].odds <= 499
    requires Race.RunFrom(pos, rest) == Ok(g.race)
    requires g.settlement == Betting.Settle(field, g.race.winner, choice, bet)
    ensures g.race.winner < NumHorses && |g.race.positions| == NumHorses
    ensures g.race.positions[g.race.winner] == FinishLine
    ensures forall j :: 0 <= j < NumHorses && j != g.race.winner ==> g.race.positions[j] < FinishLine
    ensures |g.race.frames| >= FinishLine
    ensures bet >= 0 ==> 0 <= Betting.Winnings(g.settlement) <= 499 * bet
  {
    Race.RaceFinish(pos, rest, g.race);
    Race.RaceProgress(pos, rest, g.race);
    if bet >= 0 {
      Betting.SettleBounds(field, g.race.winner, choice, bet);
    }
  }
}
