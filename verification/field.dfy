/**
 Field setup: `initHorses` of race.c. Each of the six horses gets a name drawn
 without replacement from the pool (rejection sampling against a table of used
 name indices), odds of `draw % 400 + 100` hundredths, position 0 and its own
 colour. `rand()` is replaced by an explicit sequence of draws consumed from
 the front; when the draws run out before the program would have finished, the
 result is `Err(OutOfDraws)`.
 */
module Field {
  import opened Horses

  /** The name chosen by one run of the rejection loop and the draws left after it. */
  datatype Pick = Pick(index: nat, rest: seq<Draw>)

  /** The `usedNames` table: one flag per name of the pool. */
  predicate IsUsedTable(used: seq<bool>)
  {
    |used| == HorseNamesCount
  }

  /** The do-while loop that draws name indices until it meets one that is not
      yet used. It keeps drawing while the index is taken, and gives up only
      when the draws run out. */
  function PickName(used: seq<bool>, draws: seq<Draw>): (r: Option<Pick>)
    requires IsUsedTable(used)
    ensures r.Some? ==> r.value.index < HorseNamesCount && !used[r.value.index]
    ensures r.Some? ==> IsSuffix(r.value.rest, draws) && |r.value.rest| < |draws|
    ensures r.Some? ==>
              var n := Consumed(r.value.rest, draws);
              && r.value.index == draws[n - 1] % HorseNamesCount
              && forall k :: 0 <= k < n - 1 ==> used[draws[k] % HorseNamesCount]
    ensures r.None? <==> forall k :: 0 <= k < |draws| ==> used[draws[k] % HorseNamesCount]
    decreases |draws|
  {
    if |draws| == 0 then None
    else
      var index := draws[0] % HorseNamesCount;
      if used[index] then PickName(used, draws[1..])
      else Some(Pick(index, draws[1..]))
  }

  /** The odds, in hundredths, that one draw gives a horse. */
  function OddsOf(d: Draw): (odds: nat)
    ensures 100 <= odds <= 499
  {
    d % 400 + 100
  }

  /** The names of the pool whose flag is set in `used`. */
  function UsedNames(used: seq<bool>): set<string>
    requires IsUsedTable(used)
  {
    set n | 0 <= n < HorseNamesCount && used[n] :: HorseNames[n]
  }

  /** Every name of `horses` is from the pool, and no two are equal. */
  predicate NamesFromPoolAndDistinct(horses: seq<Horse>)
  {
    && (forall j :: 0 <= j < |horses| ==> horses[j].name in HorseNames)
    && (forall j, k :: 0 <= j < k < |horses| ==> horses[j].name != horses[k].name)
  }

  /** The state of a horse right after the setup: bounded odds, at the start,
      in the colour of its slot `slot`. */
  predicate FreshHorse(h: Horse, slot: nat)
  {
    && 100 <= h.odds <= 499
    && h.position == 0
    && slot < NumHorses
    && h.color == Colors[slot]
  }

  /** The body of the `for` loop from slot `i` on: horses `i .. NumHorses-1`,
      given the used-name table at the start of iteration `i`. */
  function InitFrom(i: nat, used: seq<bool>, draws: seq<Draw>): (r: Result<(seq<Horse>, seq<Draw>)>)
    requires i <= NumHorses
    requires IsUsedTable(used)
    ensures r.Ok? ==> |r.value.0| == NumHorses - i
    ensures r.Ok? ==> IsSuffix(r.value.1, draws)
    ensures r.Ok? ==> NamesFromPoolAndDistinct(r.value.0)
    ensures r.Ok? ==> forall j :: 0 <= j < |r.value.0| ==> r.value.0[j].name !in UsedNames(used)
    ensures r.Ok? ==> forall j :: 0 <= j < |r.value.0| ==> FreshHorse(r.value.0[j], i + j)
    ensures r.Ok? ==> |draws| - |r.value.1| >= 2 * (NumHorses - i)
    ensures r.Ok? && i < NumHorses ==>
              && PickName(used, draws).Some?
              && var p := PickName(used, draws).value;
              && |p.rest| > 0
              && r.value.0[0].name == HorseNames[p.index]
              && r.value.0[0].odds == OddsOf(p.rest[0])
    ensures r.Err? ==> r.error == OutOfDraws
    decreases NumHorses - i
  {
    if i == NumHorses then Ok(([], draws))
    else
      match PickName(used, draws)
      case None => Err(OutOfDraws)
      case Some(p) =>
        if |p.rest| == 0 then Err(OutOfDraws)
        else
          var h := Horse(HorseNames[p.index], OddsOf(p.rest[0]), 0, Colors[i]);
          var used' := used[p.index := true];
          match InitFrom(i + 1, used', p.rest[1..])
          case Err(e) => Err(e)
          case Ok((tail, rest)) =>
            ExtendField(i, used, p.index, h, tail);
            Ok(([h] + tail, rest))
  }

  /** Putting the horse named `HorseNames[index]` in front of the horses of
      the later slots keeps the names distinct and outside the used set. */
  lemma ExtendField(i: nat, used: seq<bool>, index: nat, h: Horse, tail: seq<Horse>)
    requires i < NumHorses && IsUsedTable(used)
    requires index < HorseNamesCount && !used[index]
    requires h.name == HorseNames[index] && FreshHorse(h, i)
    requires NamesFromPoolAndDistinct(tail)
    requires forall j :: 0 <= j < |tail| ==> tail[j].name !in UsedNames(used[index := true])
    requires forall j :: 0 <= j < |tail| ==> FreshHorse(tail[j], i + 1 + j)
    ensures NamesFromPoolAndDistinct([h] + tail)
    ensures forall j :: 0 <= j < |tail| + 1 ==> ([h] + tail)[j].name !in UsedNames(used)
    ensures forall j :: 0 <= j < |tail| + 1 ==> FreshHorse(([h] + tail)[j], i + j)
  {
    NamePoolIsDistinct();
    var used' := used[index := true];
    assert UsedNames(used') == UsedNames(used) + {h.name};
    forall j | 0 <= j < |tail| + 1
      ensures FreshHorse(([h] + tail)[j], i + j)
    {
      if j > 0 {
        assert ([h] + tail)[j] == tail[j - 1];
      }
    }
  }

  /** `initHorses`: the whole field, starting from an all-clear used-name table.
      Every horse costs at least two draws, one for its name and one for its
      odds; the first horse takes the first unused name the draws hit and its
      odds from the draw right after. */
  function InitHorses(draws: seq<Draw>): (r: Result<(seq<Horse>, seq<Draw>)>)
    ensures r.Ok? ==> |r.value.0| == NumHorses && IsSuffix(r.value.1, draws)
    ensures r.Ok? ==> NamesFromPoolAndDistinct(r.value.0)
    ensures r.Ok? ==> forall j :: 0 <= j < NumHorses ==> FreshHorse(r.value.0[j], j)
    ensures r.Ok? ==> |draws| - |r.value.1| >= 2 * NumHorses
    ensures r.Ok? ==>
              && PickName(seq(HorseNamesCount, _ => false), draws).Some?
              && var p := PickName(seq(HorseNamesCount, _ => false), draws).value;
              && |p.rest| > 0
              && r.value.0[0].name == HorseNames[p.index]
              && r.value.0[0].odds == OddsOf(p.rest[0])
    ensures r.Err? ==> r.error == OutOfDraws
  {
    InitFrom(0, seq(HorseNamesCount, _ => false), draws)
  }
}
