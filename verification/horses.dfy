/**
 The constants and entities of the terminal horse race: the field size, the
 track, the pool of names, the display colours and the `Horse` record.

 Odds are kept as integer hundredths (250 stands for 2.50:1) instead of the
 program's `float`, so every computation in the model is exact.
 */
module Horses {

  /** Number of horses in every race. */
  const NumHorses: nat := 6

  /** Width of the drawn track. */
  const TrackLength: nat := 40

  /** A horse has won once its position reaches this mark (the track length less three). */
  const FinishLine: nat := TrackLength - 3

  /** Size of the name pool. */
  const HorseNamesCount: nat := 12

  /** The name pool the field is drawn from. */
  const HorseNames: seq<string> := [
    "Thunder", "Lightning", "Shadow", "Spirit",
    "Storm", "Flash", "Blitz", "Dash",
    "Arrow", "Comet", "Rocket", "Bolt"
  ]

  /** The display colours; horse `i` always gets `Colors[i]`. */
  datatype Color = Red | Green | Yellow | Blue | Magenta | Cyan

  const Colors: seq<Color> := [Red, Green, Yellow, Blue, Magenta, Cyan]

  /** One runner: `odds` in hundredths, `position` in track cells from the start. */
  datatype Horse = Horse(name: string, odds: nat, position: nat, color: Color)

  /** A value drawn from `rand()`: never negative. */
  type Draw = nat

  datatype Option<+T> = None | Some(value: T)

  /** Why a run of the model stops without an answer: the explicit draws or
      the typed inputs ran out before the program's loop would have exited. */
  datatype Error = OutOfDraws | OutOfInput

  datatype Result<+T> = Ok(value: T) | Err(error: Error)

  /** `rest` is what is left of `draws` after some draws were consumed from the front. */
  predicate IsSuffix<T(==)>(rest: seq<T>, draws: seq<T>)
  {
    |rest| <= |draws| && rest == draws[|draws| - |rest|..]
  }

  /** Number of draws consumed when `draws` has been cut down to `rest`. */
  function Consumed<T>(rest: seq<T>, draws: seq<T>): nat
    requires |rest| <= |draws|
  {
    |draws| - |rest|
  }

  /** No two names of the pool are equal. */
  predicate NamesDistinct()
  {
    forall i, j :: 0 <= i < j < |HorseNames| ==> HorseNames[i] != HorseNames[j]
  }

  lemma NamePoolIsDistinct()
    ensures |HorseNames| == HorseNamesCount
    ensures NamesDistinct()
  {
  }
}
