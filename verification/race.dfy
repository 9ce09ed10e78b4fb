/**
 The race: the `while (racing)` loop of `main` in race.c. Each tick evaluates
 the horses in index order; a horse moves one cell when its draw modulo 100 is
 below 30, and the first horse whose position reaches `FinishLine` wins and
 ends the tick on the spot (later horses are not evaluated). The race state is
 the sequence of the six positions; draws are consumed from the front, one per
 evaluated horse.
 */
module Race {
  import opened Horses

  /** The 30% chance of line 154: does this draw move its horse? */
  predicate Moves(d: Draw)
  {
    d % 100 < 30
  }

  /** A position vector of the field. */
  predicate IsField(pos: seq<int>)
  {
    |pos| == NumHorses
  }

  /** Every horse is still short of the finish line: the state at the top of
      the race loop while `racing` holds. */
  predicate AllBelow(pos: seq<int>)
  {
    forall j :: 0 <= j < |pos| ==> pos[j] < FinishLine
  }

  /** Where horse `j` stands after its evaluation with draw `d`. */
  function Advance(p: int, d: Draw): (q: int)
    ensures q == p || q == p + 1
    ensures q == p + 1 <==> Moves(d)
  {
    if Moves(d) then p + 1 else p
  }

  /** The outcome of one tick: the new positions, the winner if one reached
      the finish line, and the draws left. */
  datatype TickResult = TickResult(positions: seq<int>, winner: Option<nat>, rest: seq<Draw>)

  /** How many horses the tick evaluated: up to and including the winner, or all. */
  function Evaluated(t: TickResult): nat
  {
    if t.winner.Some? then t.winner.value + 1 else NumHorses
  }

  /** The inner `for` loop from horse `i` on, with `pos` the positions so far
      in this tick and `draws` the draws of this tick: horse `i` uses
      `draws[i]`, just as the program calls `rand()` once per horse in index
      order. */
  function MoveFrom(i: nat, pos: seq<int>, draws: seq<Draw>): (r: Result<TickResult>)
    requires i <= NumHorses && IsField(pos)
    ensures r.Ok? ==> IsField(r.value.positions)
    ensures r.Ok? ==>
              && i <= Evaluated(r.value) <= NumHorses
              && Evaluated(r.value) <= |draws|
              && r.value.rest == draws[Evaluated(r.value)..]
    ensures r.Err? ==> r.error == OutOfDraws && |draws| < NumHorses
    decreases NumHorses - i
  {
    if i == NumHorses then
      if |draws| < NumHorses then Err(OutOfDraws) else Ok(TickResult(pos, None, draws[NumHorses..]))
    else if i >= |draws| then Err(OutOfDraws)
    else
      var moved := pos[i := Advance(pos[i], draws[i])];
      if Moves(draws[i]) && moved[i] >= FinishLine then Ok(TickResult(moved, Some(i), draws[i + 1..]))
      else MoveFrom(i + 1, moved, draws)
  }

  /** One tick of the race loop: every horse in index order, stopping at the winner. */
  function Tick(pos: seq<int>, draws: seq<Draw>): Result<TickResult>
    requires IsField(pos)
  {
    MoveFrom(0, pos, draws)
  }

  /** One step of the horse loop: horse `i` draws and does not move, so
      the positions stay as they were. */
  lemma StepStays(i: nat, pos: seq<int>, draws: seq<Draw>)
    requires i < NumHorses && IsField(pos) && i < |draws| && !Moves(draws[i])
    ensures MoveFrom(i, pos, draws) == MoveFrom(i + 1, pos, draws)
  {
    assert pos[i := Advance(pos[i], draws[i])] == pos;
  }

  /** One step of the horse loop: horse `i` moves but stays short of the line. */
  lemma StepMoves(i: nat, pos: seq<int>, draws: seq<Draw>)
    requires i < NumHorses && IsField(pos) && i < |draws| && Moves(draws[i]) && pos[i] + 1 < FinishLine
    ensures MoveFrom(i, pos, draws) == MoveFrom(i + 1, pos[i := pos[i] + 1], draws)
  {
  }

  /** One step of the horse loop: horse `i` moves onto the line and wins. */
  lemma StepWins(i: nat, pos: seq<int>, draws: seq<Draw>)
    requires i < NumHorses && IsField(pos) && i < |draws| && Finishes(pos[i], draws[i])
    ensures MoveFrom(i, pos, draws) == Ok(TickResult(pos[i := pos[i] + 1], Some(i), draws[i + 1..]))
  {
  }

  /** One step of the horse loop, whichever way horse `i`'s draw goes. */
  lemma MoveFromStep(i: nat, pos: seq<int>, draws: seq<Draw>)
    requires i < NumHorses && IsField(pos) && i < |draws|
    ensures !Moves(draws[i]) ==> MoveFrom(i, pos, draws) == MoveFrom(i + 1, pos, draws)
    ensures Moves(draws[i]) && pos[i] + 1 >= FinishLine ==>
              MoveFrom(i, pos, draws) == Ok(TickResult(pos[i := pos[i] + 1], Some(i), draws[i + 1..]))
    ensures Moves(draws[i]) && pos[i] + 1 < FinishLine ==>
              MoveFrom(i, pos, draws) == MoveFrom(i + 1, pos[i := pos[i] + 1], draws)
  {
    if !Moves(draws[i]) {
      StepStays(i, pos, draws);
    } else if pos[i] + 1 < FinishLine {
      StepMoves(i, pos, draws);
    } else {
      StepWins(i, pos, draws);
    }
  }

  /** What a tick does to horse `j`: if it was evaluated, it advanced exactly
      when its own draw moves it; otherwise it kept its place. */
  lemma {:induction false} MoveFromAt(i: nat, pos: seq<int>, draws: seq<Draw>, t: TickResult, j: nat)
    requires i <= NumHorses && IsField(pos) && j < NumHorses
    requires MoveFrom(i, pos, draws) == Ok(t)
    ensures i <= j < Evaluated(t) ==> t.positions[j] == Advance(pos[j], draws[j])
    ensures !(i <= j < Evaluated(t)) ==> t.positions[j] == pos[j]
    decreases NumHorses - i
  {
    if i < NumHorses {
      if !Moves(draws[i]) {
        StepStays(i, pos, draws);
        MoveFromAt(i + 1, pos, draws, t, j);
      } else if pos[i] + 1 < FinishLine {
        StepMoves(i, pos, draws);
        MoveFromAt(i + 1, pos[i := pos[i] + 1], draws, t, j);
        assert j != i ==> pos[i := pos[i] + 1][j] == pos[j];
      } else {
        StepWins(i, pos, draws);
      }
    }
  }

  /** Horse `j` crosses the finish line in this tick when it stood at `p`
      and drew `d`. */
  predicate Finishes(p: int, d: Draw)
  {
    Moves(d) && p + 1 >= FinishLine
  }

  /** The tick stops at its winner: the winner's draw took it over the line. */
  lemma {:induction false} MoveFromWinner(i: nat, pos: seq<int>, draws: seq<Draw>, t: TickResult, j: nat)
    requires i <= NumHorses && IsField(pos) && j < NumHorses
    requires MoveFrom(i, pos, draws) == Ok(t)
    ensures t.winner.Some? && t.winner.value == j ==> i <= j && Finishes(pos[j], draws[j])
    decreases NumHorses - i
  {
    if i < NumHorses {
      if !Moves(draws[i]) {
        StepStays(i, pos, draws);
        MoveFromWinner(i + 1, pos, draws, t, j);
      } else if pos[i] + 1 < FinishLine {
        StepMoves(i, pos, draws);
        MoveFromWinner(i + 1, pos[i := pos[i] + 1], draws, t, j);
        assert j != i ==> pos[i := pos[i] + 1][j] == pos[j];
      } else {
        StepWins(i, pos, draws);
      }
    }
  }

  /** The tick stops at the first horse to cross: any horse from `i` on whose
      draw would take it over the line has the winner at or before it. */
  lemma {:induction false} MoveFromFirst(i: nat, pos: seq<int>, draws: seq<Draw>, t: TickResult, j: nat)
    requires i <= NumHorses && IsField(pos) && j < NumHorses
    requires MoveFrom(i, pos, draws) == Ok(t)
    ensures i <= j < |draws| && Finishes(pos[j], draws[j]) ==> t.winner.Some? && t.winner.value <= j
    decreases NumHorses - i
  {
    if i < NumHorses {
      if !Moves(draws[i]) {
        StepStays(i, pos, draws);
        MoveFromFirst(i + 1, pos, draws, t, j);
      } else if pos[i] + 1 < FinishLine {
        StepMoves(i, pos, draws);
        MoveFromFirst(i + 1, pos[i := pos[i] + 1], draws, t, j);
        assert j != i ==> pos[i := pos[i] + 1][j] == pos[j];
      } else {
        StepWins(i, pos, draws);
      }
    }
  }

  /** One tick, as the program's loop body performs it. Each evaluated horse
      moves by exactly 0 or 1, and by 1 exactly when its draw says so; the
      horses after the winner are not touched; the winner is the first horse
      to cross. From a state where everybody is short of the line, a tick ends
      the race exactly when some horse reaches the line, the winner then stands
      exactly on it and all others are still short of it. */
  lemma TickStep(pos: seq<int>, draws: seq<Draw>, t: TickResult)
    requires IsField(pos)
    requires Tick(pos, draws) == Ok(t)
    ensures IsField(t.positions) && 1 <= Evaluated(t) <= |draws| && t.rest == draws[Evaluated(t)..]
    ensures forall j :: 0 <= j < Evaluated(t) ==> t.positions[j] == Advance(pos[j], draws[j])
    ensures forall j :: Evaluated(t) <= j < NumHorses ==> t.positions[j] == pos[j]
    ensures forall j :: 0 <= j < NumHorses ==> pos[j] <= t.positions[j] <= pos[j] + 1
    ensures t.winner.Some? ==> t.winner.value < NumHorses && Finishes(pos[t.winner.value], draws[t.winner.value])
    ensures forall j :: 0 <= j < Evaluated(t) && t.winner != Some(j) ==> !Finishes(pos[j], draws[j])
    ensures AllBelow(pos) ==> (t.winner.None? <==> AllBelow(t.positions))
    ensures AllBelow(pos) && t.winner.Some? ==>
              && t.positions[t.winner.value] == FinishLine
              && forall j :: 0 <= j < NumHorses && j != t.winner.value ==> t.positions[j] < FinishLine
  {
    forall j | 0 <= j < NumHorses
      ensures j < Evaluated(t) ==> t.positions[j] == Advance(pos[j], draws[j])
      ensures Evaluated(t) <= j ==> t.positions[j] == pos[j]
      ensures t.winner == Some(j) ==> Finishes(pos[j], draws[j])
      ensures j < Evaluated(t) && t.winner != Some(j) ==> !Finishes(pos[j], draws[j])
    {
      MoveFromAt(0, pos, draws, t, j);
      MoveFromWinner(0, pos, draws, t, j);
      MoveFromFirst(0, pos, draws, t, j);
    }
  }

  /** The tie-break: when horses `a < b` would both cross the line in the
      same tick, the tick ends at or before `a`, and `b` is never moved. */
  lemma LowestIndexWins(pos: seq<int>, draws: seq<Draw>, t: TickResult, a: nat, b: nat)
    requires IsField(pos) && Tick(pos, draws) == Ok(t)
    requires a < b < NumHorses && b < |draws|
    requires Finishes(pos[a], draws[a]) && Finishes(pos[b], draws[b])
    ensures t.winner.Some? && t.winner.value <= a
    ensures t.positions[b] == pos[b]
  {
    TickStep(pos, draws, t);
  }

  /** A finished race: the positions shown at the top of each pass of the
      loop (what the track display draws), the final positions, the winner,
      and the draws left over. */
  datatype RaceResult = RaceResult(frames: seq<seq<int>>, positions: seq<int>, winner: nat, rest: seq<Draw>)

  /** The `while (racing)` loop from the positions `pos`: tick until a tick
      reports a winner. Each tick consumes at least one draw, so the loop ends
      either with a winner or because the draws ran out. */
  function RunFrom(pos: seq<int>, draws: seq<Draw>): (r: Result<RaceResult>)
    requires IsField(pos)
    ensures r.Ok? ==> |r.value.frames| >= 1 && r.value.frames[0] == pos
    ensures r.Ok? ==> r.value.winner < NumHorses && IsField(r.value.positions)
    ensures r.Ok? ==> |r.value.rest| < |draws|
    ensures r.Err? ==> r.error == OutOfDraws
    decreases |draws|
  {
    match Tick(pos, draws)
    case Err(e) => Err(e)
    case Ok(t) =>
      if t.winner.Some? then Ok(RaceResult([pos], t.positions, t.winner.value, t.rest))
      else
        match RunFrom(t.positions, t.rest)
        case Err(e) => Err(e)
        case Ok(rr) => Ok(rr.(frames := [pos] + rr.frames))
  }

  /** Every position moves forward by 0 or 1 from `a` to `b`. */
  predicate StepsBy(a: seq<int>, b: seq<int>)
  {
    IsField(a) && IsField(b) && forall j :: 0 <= j < NumHorses ==> a[j] <= b[j] <= a[j] + 1
  }

  /** The frames of a race that needed one more tick: its own starting
      state, then the frames of the rest of the race. */
  lemma FramesCons(pos: seq<int>, rr: RaceResult, rr': RaceResult)
    requires |rr'.frames| >= 1 && rr == rr'.(frames := [pos] + rr'.frames)
    ensures |rr.frames| == |rr'.frames| + 1 && rr.frames[0] == pos
    ensures forall k :: 1 <= k < |rr.frames| ==> rr.frames[k] == rr'.frames[k - 1]
    ensures rr.frames[|rr.frames| - 1] == rr'.frames[|rr'.frames| - 1]
  {
  }

  /** How the race ends: the winner stands exactly on the finish line and
      every other horse is still short of it, the horses after the winner did
      not move in the final tick, and the draws used are one per horse for
      every full tick plus one per horse evaluated in the last. */
  lemma {:induction false} RaceFinish(pos: seq<int>, draws: seq<Draw>, rr: RaceResult)
    requires IsField(pos) && AllBelow(pos)
    requires RunFrom(pos, draws) == Ok(rr)
    ensures rr.winner < NumHorses && IsField(rr.positions)
    ensures rr.positions[rr.winner] == FinishLine
    ensures forall j :: 0 <= j < NumHorses && j != rr.winner ==> rr.positions[j] < FinishLine
    ensures StepsBy(rr.frames[|rr.frames| - 1], rr.positions)
    ensures forall j :: rr.winner < j < NumHorses ==> rr.positions[j] == rr.frames[|rr.frames| - 1][j]
    ensures |draws| - |rr.rest| == (|rr.frames| - 1) * NumHorses + rr.winner + 1
    ensures IsSuffix(rr.rest, draws)
    decreases |draws|
  {
    var t := Tick(pos, draws).value;
    TickStep(pos, draws, t);
    if t.winner.Some? {
      assert rr == RaceResult([pos], t.positions, t.winner.value, t.rest);
    } else {
      var rr' := RunFrom(t.positions, t.rest).value;
      assert rr == rr'.(frames := [pos] + rr'.frames);
      RaceFinish(t.positions, t.rest, rr');
      FramesCons(pos, rr, rr');
    }
  }

  /** The invariant of the race loop: at the top of every pass (every
      displayed frame) all horses are short of the line, and from one frame to
      the next each horse moves forward by 0 or 1. */
  lemma {:induction false} RaceFrames(pos: seq<int>, draws: seq<Draw>, rr: RaceResult)
    requires IsField(pos) && AllBelow(pos)
    requires RunFrom(pos, draws) == Ok(rr)
    ensures forall k :: 0 <= k < |rr.frames| ==> IsField(rr.frames[k]) && AllBelow(rr.frames[k])
    ensures forall k :: 0 <= k < |rr.frames| - 1 ==> StepsBy(rr.frames[k], rr.frames[k + 1])
    decreases |draws|
  {
    var t := Tick(pos, draws).value;
    TickStep(pos, draws, t);
    if t.winner.Some? {
      assert rr == RaceResult([pos], t.positions, t.winner.value, t.rest);
    } else {
      var rr' := RunFrom(t.positions, t.rest).value;
      assert rr == rr'.(frames := [pos] + rr'.frames);
      RaceFrames(t.positions, t.rest, rr');
      FramesCons(pos, rr, rr');
    }
  }

  /** Nobody goes backwards, and nobody gains more cells than there were
      ticks: from the start, the race takes at least as many ticks as the
      winner had cells to cover. */
  lemma {:induction false} RaceProgress(pos: seq<int>, draws: seq<Draw>, rr: RaceResult)
    requires IsField(pos)
    requires RunFrom(pos, draws) == Ok(rr)
    ensures IsField(rr.positions)
    ensures forall j :: 0 <= j < NumHorses ==> pos[j] <= rr.positions[j] <= pos[j] + |rr.frames|
    decreases |draws|
  {
    var t := Tick(pos, draws).value;
    TickStep(pos, draws, t);
    if t.winner.Some? {
      assert rr == RaceResult([pos], t.positions, t.winner.value, t.rest);
    } else {
      var rr' := RunFrom(t.positions, t.rest).value;
      assert rr == rr'.(frames := [pos] + rr'.frames);
      RaceProgress(t.positions, t.rest, rr');
    }
  }

  /** `r` with the displayed states `fs` put in front of its own. */
  function WithFrames(fs: seq<seq<int>>, r: Result<RaceResult>): Result<RaceResult>
  {
    match r
    case Err(e) => Err(e)
    case Ok(rr) => Ok(rr.(frames := fs + rr.frames))
  }

  lemma WithFramesAppend(fs: seq<seq<int>>, gs: seq<seq<int>>, r: Result<RaceResult>)
    ensures WithFrames(fs, WithFrames(gs, r)) == WithFrames(fs + gs, r)
  {
    if r.Ok? {
      assert fs + (gs + r.value.frames) == (fs + gs) + r.value.frames;
    }
  }

  /** One pass of the `for` loop of race.c over the horses, drawing from
      `draws`: it stops at the first horse that reaches the line (clearing
      `racing` and recording `winner`), or after the last horse. It computes
      exactly the tick `Tick` describes, and fails exactly when the draws run
      out first. */
  method TickLoop(before: seq<int>, draws: seq<Draw>)
    returns (ok: bool, positions: seq<int>, racing: bool, winner: int, rest: seq<Draw>)
    requires IsField(before)
    ensures ok <==> Tick(before, draws).Ok?
    ensures ok ==> racing || 0 <= winner < NumHorses
    ensures ok ==> Tick(before, draws) == Ok(TickResult(positions, if racing then None else Some(winner), rest))
  {
    positions := before;
    racing := true;
    winner := -1;
    rest := [];
    var i := 0;
    while i < NumHorses
      invariant 0 <= i <= NumHorses && i <= |draws| && IsField(positions) && racing
      invariant Tick(before, draws) == MoveFrom(i, positions, draws)
    {
      if i == |draws| {
        ok := false;
        return;
      }
      var d := draws[i];
      MoveFromStep(i, positions, draws);
      if Moves(d) {
        positions := positions[i := positions[i] + 1];
        if positions[i] >= FinishLine {
          racing := false;
          winner := i;
          break;
        }
      }
      i := i + 1;
    }
    rest := draws[i + (if racing then 0 else 1)..];
    ok := true;
  }

  /** The race loop of race.c written the way the program writes it: a
      `racing` flag, the track displayed at the top of each pass, one pass of
      the horse loop per tick. It computes exactly what `RunFrom` describes:
      the same frames, final positions, winner and number of draws used, and
      it fails exactly when `RunFrom` does. */
  method RaceLoop(start: seq<int>, draws: seq<Draw>)
    returns (ok: bool, winner: int, positions: seq<int>, frames: seq<seq<int>>, rest: seq<Draw>)
    requires IsField(start)
    ensures ok <==> RunFrom(start, draws).Ok?
    ensures ok ==> 0 <= winner < NumHorses &&
                   RunFrom(start, draws) == Ok(RaceResult(frames, positions, winner, rest))
  {
    positions := start;
    winner := -1;
    frames := [];
    rest := draws;
    var racing := true;
    assert WithFrames([], RunFrom(start, draws)) == RunFrom(start, draws) by {
      if RunFrom(start, draws).Ok? {
        var rr := RunFrom(start, draws).value;
        assert [] + rr.frames == rr.frames;
      }
    }
    while racing
      invariant IsField(positions) && |rest| <= |draws|
      invariant racing ==> RunFrom(start, draws) == WithFrames(frames, RunFrom(positions, rest))
      invariant !racing ==> 0 <= winner < NumHorses &&
                            RunFrom(start, draws) == Ok(RaceResult(frames, positions, winner, rest))
      decreases |rest|, racing
    {
      var before := positions;
      var framesBefore := frames;
      var tickOk, after, stillRacing, w, restAfter := TickLoop(positions, rest);
      if !tickOk {
        ok := false;
        return;
      }
      frames := frames + [before];
      positions, rest := after, restAfter;
      if stillRacing {
        WithFramesAppend(framesBefore, [before], RunFrom(positions, rest));
      } else {
        racing, winner := false, w;
      }
    }
    ok := true;
  }
}
