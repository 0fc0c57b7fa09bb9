/** The engine's behaviour on fighter values: the Fisher–Yates shuffle, the turn loop of
    one battle, a round of paired battles and the tournament of rounds. The draw source
    is an oracle `rng`, its c-th call returning `rng(c)`; every function takes the
    position of the next unread draw and reports where it leaves it. Battles take a
    `fuel` bound on their number of turns, because they need not end. */
module Tournaments {
  import opened Outcomes
  import opened StatusEffects
  import opened FighterStates
  import opened Shuffles

  /** Threshold of the draw that decides whether the active fighter tries a special. */
  const AbilityProbability: real := 0.5
  /** Threshold of the draw that decides whether fighter1 moves first. */
  const FirstMoveThreshold: real := 0.5
  /** Threshold of the draw that picks the class ability over ice arrows. */
  const ClassAbilityThreshold: real := 0.5

  datatype EngineError = OddCount | TooFewFighters | NotInitialized | OddRoster | NoChampion

  /** The size check done before any fighter is generated: parity first, then the minimum. */
  function CheckCount(count: int): (r: Outcome<EngineError>)
    ensures r == Pass <==> count % 2 == 0 && count >= 2
    ensures r == Fail(OddCount) <==> count % 2 != 0
    ensures r == Fail(TooFewFighters) <==> count % 2 == 0 && count < 2
  {
    if count % 2 != 0 then Fail(OddCount)
    else if count < 2 then Fail(TooFewFighters)
    else Pass
  }

  // ---------------------------------------------------------------- one battle

  /** A battle in progress: the two fighters, whose turn it is, and the next draw. */
  datatype Duel = Duel(one: FighterState, two: FighterState, oneActive: bool, cursor: nat)
  {
    predicate Ongoing()
    {
      one.Alive() && two.Alive()
    }

    function Active(): FighterState
    {
      if oneActive then one else two
    }

    function Passive(): FighterState
    {
      if oneActive then two else one
    }

    /** The duel with the active and the passive fighter replaced. */
    function Seat(active: FighterState, passive: FighterState): (r: Duel)
      ensures r.Active() == active && r.Passive() == passive
      ensures r.oneActive == oneActive && r.cursor == cursor
    {
      if oneActive then this.(one := active, two := passive) else this.(one := passive, two := active)
    }

    function Swapped(): (r: Duel)
      ensures r.Active() == Passive() && r.Passive() == Active()
      ensures r.one == one && r.two == two && r.cursor == cursor
    {
      this.(oneActive := !oneActive)
    }

    /** The status pass of fighter1, then of fighter2. */
    function TickBoth(): (r: Duel)
      ensures r.one == one.ProcessStatusEffects() && r.two == two.ProcessStatusEffects()
      ensures r.oneActive == oneActive && r.cursor == cursor
    {
      this.(one := one.ProcessStatusEffects(), two := two.ProcessStatusEffects())
    }
  }

  datatype Action = PlainAttack | ClassAbility | IceArrowsShot

  datatype Choice = Choice(action: Action, cursor: nat)

  /** The action of a fighter who is free to act: a special only when the first draw is
      below the threshold and one is available, and a second draw between the two only
      when both are. */
  function ChooseAction(f: FighterState, rng: Draws, c: nat): (r: Choice)
    ensures r.action != PlainAttack <==>
      rng(c) < AbilityProbability && (f.CanExecuteAbility() || f.CanUseIceArrows())
    ensures r.action == ClassAbility ==> f.CanExecuteAbility()
    ensures r.action == IceArrowsShot ==> f.CanUseIceArrows()
    ensures r.action != PlainAttack && f.CanExecuteAbility() && f.CanUseIceArrows() ==>
      r.cursor == c + 2 && (r.action == ClassAbility <==> rng(c + 1) < ClassAbilityThreshold)
    ensures !(r.action != PlainAttack && f.CanExecuteAbility() && f.CanUseIceArrows()) ==>
      r.cursor == c + 1
  {
    var wantsSpecial := rng(c) < AbilityProbability;
    var canClassAbility := f.CanExecuteAbility();
    var canIceArrows := f.CanUseIceArrows();
    if wantsSpecial && (canClassAbility || canIceArrows) then
      if canClassAbility && canIceArrows then
        if rng(c + 1) < ClassAbilityThreshold then Choice(ClassAbility, c + 2)
        else Choice(IceArrowsShot, c + 2)
      else if canClassAbility then Choice(ClassAbility, c + 1)
      else Choice(IceArrowsShot, c + 1)
    else
      Choice(PlainAttack, c + 1)
  }

  function Perform(a: Action, attacker: FighterState, target: FighterState): Exchange
  {
    match a
    case PlainAttack => PerformAttack(attacker, target)
    case ClassAbility => ExecuteAbility(attacker, target)
    case IceArrowsShot => UseIceArrows(attacker, target)
  }

  /** One pass of the battle loop: both status passes; then a stop if the passive
      fighter died, a swap if the active one died, a lost turn if it is stunned, or an
      action followed by a stop if the target died and a swap otherwise. */
  function Turn(d: Duel, rng: Draws): (r: Duel)
  {
    var t := d.TickBoth();
    if !t.Passive().Alive() then t
    else if !t.Active().Alive() then t.Swapped()
    else if t.Active().HasStatus(Stun) then
      t.Seat(t.Active().RemoveStatus(Stun), t.Passive()).Swapped()
    else
      var choice := ChooseAction(t.Active(), rng, t.cursor);
      var x := Perform(choice.action, t.Active(), t.Passive());
      var acted := t.Seat(x.attacker, x.target).(cursor := choice.cursor);
      if !x.target.Alive() then acted else acted.Swapped()
  }

  /** The battle loop run for at most `fuel` passes; `None` when it has not ended by then.
      The loop is split over three functions — the loop test, the fuel test, and one pass
      followed by the rest of the loop — so that a `Run` term mentions the next `Turn`
      only two unfoldings down; `RunStep` states the one-pass equation. */
  function Run(d: Duel, rng: Draws, fuel: nat): (r: Option<Duel>)
    ensures r.Some? ==> !r.value.Ongoing()
    decreases fuel, 2
  {
    if !d.Ongoing() then Some(d) else RunPass(d, rng, fuel)
  }

  /** A battle still going on with `fuel` passes left. */
  function RunPass(d: Duel, rng: Draws, fuel: nat): (r: Option<Duel>)
    ensures r.Some? ==> !r.value.Ongoing()
    decreases fuel, 1
  {
    if fuel == 0 then None else RunAfterTurn(d, rng, fuel)
  }

  /** One pass of the loop, then the rest of the loop with the passes left. */
  function RunAfterTurn(d: Duel, rng: Draws, fuel: nat): (r: Option<Duel>)
    requires 0 < fuel
    ensures r.Some? ==> !r.value.Ongoing()
    decreases fuel, 0
  {
    Run(Turn(d, rng), rng, fuel - 1)
  }

  /** The one-pass equation of the loop: an unfolding helper for the engine's loop
      invariant and the inductions over battles, not a result in itself. */
  lemma RunStep(d: Duel, rng: Draws, fuel: nat)
    requires d.Ongoing() && 0 < fuel
    ensures Run(d, rng, fuel) == Run(Turn(d, rng), rng, fuel - 1)
  {
    assert RunPass(d, rng, fuel) == RunAfterTurn(d, rng, fuel);
  }

  /** The duel at the start of the pass that ended a finished battle: both fighters were
      still alive then, and that one pass produced the final duel. */
  function LastTurn(d: Duel, rng: Draws, fuel: nat): (e: Duel)
    requires d.Ongoing() && Run(d, rng, fuel).Some?
    ensures e.Ongoing() && Run(d, rng, fuel) == Some(Turn(e, rng))
    decreases fuel
  {
    assert RunPass(d, rng, fuel).Some?;
    RunStep(d, rng, fuel);
    if !Turn(d, rng).Ongoing() then d else LastTurn(Turn(d, rng), rng, fuel - 1)
  }

  /** The opening of a battle: fighter1 acts first exactly when the first draw is low. */
  function Opening(one: FighterState, two: FighterState, rng: Draws, c: nat): (d: Duel)
    ensures d.one == one && d.two == two && d.cursor == c + 1
    ensures d.oneActive <==> rng(c) < FirstMoveThreshold
  {
    Duel(one, two, rng(c) < FirstMoveThreshold, c + 1)
  }

  function Battle(one: FighterState, two: FighterState, rng: Draws, c: nat, fuel: nat): Option<Duel>
  {
    Run(Opening(one, two, rng, c), rng, fuel)
  }

  /** The fighter named winner once the loop has ended: fighter1 if alive, else fighter2. */
  function Winner(d: Duel): (w: FighterState)
    ensures d.one.Alive() ==> w == d.one
    ensures !d.one.Alive() ==> w == d.two
  {
    if d.one.Alive() then d.one else d.two
  }

  // ---------------------------------------------------------------- rounds

  /** `order` lists distinct positions of a roster of `n`, an even number of them. */
  ghost predicate Pairing(order: seq<nat>, n: nat)
  {
    && |order| % 2 == 0
    && (forall k :: 0 <= k < |order| ==> order[k] < n)
    && (forall a, b :: 0 <= a < b < |order| ==> order[a] != order[b])
  }

  datatype Played = Played(roster: seq<FighterState>, cursor: nat)

  /** Position `k` is not among the fighters of pairs `p`, `p + 1`, …. */
  ghost predicate OutsidePairsFrom(k: nat, order: seq<nat>, p: nat)
  {
    forall m :: 2 * p <= m < |order| ==> order[m] != k
  }

  /** No pair from `p` on has both of its fighters alive in `r`. */
  ghost predicate SettledFrom(r: seq<FighterState>, order: seq<nat>, p: nat)
    requires Pairing(order, |r|)
  {
    forall q :: p <= q < |order| / 2 ==> !(r[order[2 * q]].Alive() && r[order[2 * q + 1]].Alive())
  }

  /** The battles of pairs `p`, `p + 1`, … in order, pair `q` being the fighters at
      positions `order[2q]` and `order[2q + 1]`; each result is written back. */
  function PlayPairs(vals: seq<FighterState>, order: seq<nat>, p: nat, rng: Draws, c: nat, fuel: nat): (r: Option<Played>)
    requires Pairing(order, |vals|) && 2 * p <= |order|
    ensures r.Some? ==> |r.value.roster| == |vals|
    decreases |order| - 2 * p
  {
    if 2 * p == |order| then Some(Played(vals, c))
    else
      var i, j := order[2 * p], order[2 * p + 1];
      match Battle(vals[i], vals[j], rng, c, fuel)
      case None => None
      case Some(d) =>
        PlayPairs(vals[i := d.one][j := d.two], order, p + 1, rng, d.cursor, fuel)
  }

  /** A round with pairs left that finishes plays the next pair's battle to its end first. */
  lemma PlayPairsNext(vals: seq<FighterState>, order: seq<nat>, p: nat, rng: Draws, c: nat, fuel: nat)
    requires Pairing(order, |vals|) && 2 * p < |order|
    requires PlayPairs(vals, order, p, rng, c, fuel).Some?
    ensures Battle(vals[order[2 * p]], vals[order[2 * p + 1]], rng, c, fuel).Some?
    ensures var d := Battle(vals[order[2 * p]], vals[order[2 * p + 1]], rng, c, fuel).value;
      PlayPairs(vals, order, p, rng, c, fuel)
        == PlayPairs(vals[order[2 * p] := d.one][order[2 * p + 1] := d.two], order, p + 1, rng, d.cursor, fuel)
  {
  }

  /** The battles leave the fighters outside the remaining pairs as they were, and no
      remaining pair with both of its fighters alive. */
  lemma {:induction false} PlayPairsLaws(vals: seq<FighterState>, order: seq<nat>, p: nat, rng: Draws, c: nat, fuel: nat)
    requires Pairing(order, |vals|) && 2 * p <= |order|
    requires PlayPairs(vals, order, p, rng, c, fuel).Some?
    ensures KeptOutside(vals, PlayPairs(vals, order, p, rng, c, fuel).value.roster, order, p)
    ensures SettledFrom(PlayPairs(vals, order, p, rng, c, fuel).value.roster, order, p)
    decreases |order| - 2 * p
  {
    if 2 * p < |order| {
      var i, j := order[2 * p], order[2 * p + 1];
      var d := Battle(vals[i], vals[j], rng, c, fuel).value;
      var next := vals[i := d.one][j := d.two];
      assert PlayPairs(vals, order, p, rng, c, fuel) == PlayPairs(next, order, p + 1, rng, d.cursor, fuel);
      PlayPairsLaws(next, order, p + 1, rng, d.cursor, fuel);
      var r := PlayPairs(next, order, p + 1, rng, d.cursor, fuel).value.roster;
      assert OutsidePairsFrom(i, order, p + 1) && OutsidePairsFrom(j, order, p + 1);
      assert r[i] == d.one && r[j] == d.two;
      forall k | 0 <= k < |vals| && OutsidePairsFrom(k, order, p)
        ensures r[k] == vals[k]
      {
        assert k != i && k != j;
      }
    }
  }

  /** The positions outside pairs `p`, `p + 1`, … hold in `r` what they held in `vals`. */
  ghost predicate KeptOutside(vals: seq<FighterState>, r: seq<FighterState>, order: seq<nat>, p: nat)
  {
    |r| == |vals| && forall k :: 0 <= k < |vals| && OutsidePairsFrom(k, order, p) ==> r[k] == vals[k]
  }

  // ---------------------------------------------------------------- rosters

  function Living(f: FighterState): bool
  {
    f.Alive()
  }

  /** The number of fighters of a roster still alive. */
  function AliveCount(s: seq<FighterState>): (n: nat)
    ensures n <= |s|
  {
    Count(s, Living)
  }

  /** The round's filter: the alive fighters, in roster order. */
  function AliveFighters(s: seq<FighterState>): (r: seq<FighterState>)
    ensures |r| == AliveCount(s)
    ensures forall i :: 0 <= i < |r| ==> r[i].Alive()
    ensures forall f :: f in r <==> f in s && f.Alive()
  {
    if s == [] then []
    else
      assert s[..|s| - 1] + [s[|s| - 1]] == s;
      AliveFighters(s[..|s| - 1]) + (if s[|s| - 1].Alive() then [s[|s| - 1]] else [])
  }

  /** The round's filter works fighter by fighter: a single fighter is kept exactly when
      it is alive, and the filter of a concatenation is the concatenation of the filters,
      so the survivors keep their roster order and their multiplicity. */
  lemma {:induction false} AliveFightersAppend(a: seq<FighterState>, b: seq<FighterState>)
    ensures AliveFighters(a + b) == AliveFighters(a) + AliveFighters(b)
    decreases |b|
  {
    if b == [] {
      assert a + b == a;
    } else {
      var n := |b| - 1;
      var last := if b[n].Alive() then [b[n]] else [];
      assert (a + b)[..|a + b| - 1] == a + b[..n];
      assert (a + b)[|a + b| - 1] == b[n];
      assert AliveFighters(a + b) == AliveFighters(a + b[..n]) + last;
      assert AliveFighters(b) == AliveFighters(b[..n]) + last;
      AliveFightersAppend(a, b[..n]);
    }
  }

  lemma AliveFightersSingle(f: FighterState)
    ensures AliveFighters([f]) == if f.Alive() then [f] else []
  {
    assert [f][..0] == [];
  }

  /** The round's reset of every remaining fighter. */
  function ResetAll(s: seq<FighterState>): (r: seq<FighterState>)
    ensures |r| == |s|
    ensures forall i :: 0 <= i < |s| ==> r[i] == s[i].ResetForNewBattle()
  {
    seq(|s|, i requires 0 <= i < |s| => s[i].ResetForNewBattle())
  }

  /** Some fighter of every pair of the round is alive. */
  ghost predicate EveryPairHasSurvivor(r: seq<FighterState>, order: seq<nat>)
    requires Pairing(order, |r|)
  {
    forall q :: 0 <= q < |order| / 2 ==> r[order[2 * q]].Alive() || r[order[2 * q + 1]].Alive()
  }

  /** When no pair of a shuffled roster has both fighters alive, at most half of it is
      alive, because the pairs cover the roster once; exactly half when, besides, every
      pair has a survivor. */
  lemma RoundBound(r: seq<FighterState>, order: seq<nat>, rng: Draws, c: nat)
    requires UnitDraws(rng) && |r| % 2 == 0
    requires order == Shuffle(Range(|r|), rng, c) && Pairing(order, |r|)
    requires SettledFrom(r, order, 0)
    ensures AliveCount(r) <= |r| / 2
    ensures EveryPairHasSurvivor(r, order) ==> AliveCount(r) == |r| / 2
  {
    var n := |r|;
    CountSelectShuffle(r, order, rng, c, Living);
    var t := Select(r, order);
    forall q | 0 <= q < n / 2
      ensures t[2 * q] == r[order[2 * q]] && t[2 * q + 1] == r[order[2 * q + 1]]
    {
    }
    CountPairs(t, n / 2, Living);
  }

  // ---------------------------------------------------------------- the tournament

  /** The engine between rounds: the roster, the next draw and the round counter. */
  datatype Tourney = Tourney(roster: seq<FighterState>, cursor: nat, round: nat)

  /** The battles of one round: the positions of the roster are shuffled and the pairs
      of consecutive shuffled positions fight in order. */
  function RoundBattles(roster: seq<FighterState>, rng: Draws, c: nat, fuel: nat): (r: Option<Played>)
    requires UnitDraws(rng) && |roster| % 2 == 0
    ensures r.Some? ==> |r.value.roster| == |roster|
  {
    var n := |roster|;
    ShuffledRange(n, rng, c);
    PlayPairs(roster, Shuffle(Range(n), rng, c), 0, rng, c + ShuffleDraws(n), fuel)
  }

  /** At most half of the fighters come out of a round's battles alive, since each pair
      leaves at most one. */
  lemma RoundHalves(roster: seq<FighterState>, rng: Draws, c: nat, fuel: nat)
    requires UnitDraws(rng) && |roster| % 2 == 0
    requires RoundBattles(roster, rng, c, fuel).Some?
    ensures AliveCount(RoundBattles(roster, rng, c, fuel).value.roster) <= |roster| / 2
  {
    var n := |roster|;
    ShuffledRange(n, rng, c);
    var order := Shuffle(Range(n), rng, c);
    PlayPairsLaws(roster, order, 0, rng, c + ShuffleDraws(n), fuel);
    RoundBound(RoundBattles(roster, rng, c, fuel).value.roster, order, rng, c);
  }

  /** The battles of a round are the pairs of the shuffled positions playing in order. */
  lemma RoundBattlesPairs(roster: seq<FighterState>, rng: Draws, c: nat, fuel: nat)
    requires UnitDraws(rng) && |roster| % 2 == 0
    ensures && |Shuffle(Range(|roster|), rng, c)| == |roster|
            && Pairing(Shuffle(Range(|roster|), rng, c), |roster|)
            && RoundBattles(roster, rng, c, fuel)
               == PlayPairs(roster, Shuffle(Range(|roster|), rng, c), 0, rng, c + ShuffleDraws(|roster|), fuel)
  {
    ShuffledRange(|roster|, rng, c);
  }

  /** One round: the counter goes up, the pairs fight, then only the alive fighters stay,
      each reset, in roster order. */
  function PlayRound(t: Tourney, rng: Draws, fuel: nat): (r: Option<Tourney>)
    requires UnitDraws(rng) && |t.roster| % 2 == 0
    ensures r.Some? ==> r.value.round == t.round + 1
    ensures r.Some? ==> |r.value.roster| <= |t.roster| / 2
    ensures r.Some? ==> forall i :: 0 <= i < |r.value.roster| ==> r.value.roster[i].Alive()
  {
    match RoundBattles(t.roster, rng, t.cursor, fuel)
    case None => None
    case Some(played) =>
      RoundHalves(t.roster, rng, t.cursor, fuel);
      Some(Tourney(ResetAll(AliveFighters(played.roster)), played.cursor, t.round + 1))
  }

  /** Rounds while more than one fighter remains. A roster that has become odd cannot be
      paired, and one that has emptied leaves no champion. A champion crowned after at
      least one round is alive, since every round keeps only alive fighters. */
  function Rounds(t: Tourney, rng: Draws, fuel: nat): (r: Option<Result<Tourney, EngineError>>)
    requires UnitDraws(rng)
    ensures r.Some? && r.value.Success? ==> |r.value.value.roster| == 1 && r.value.value.round >= t.round
    ensures r.Some? && r.value.Success? && |t.roster| > 1 ==> r.value.value.roster[0].Alive()
    ensures r.Some? && r.value.Failure? ==> r.value.error == OddRoster || r.value.error == NoChampion
    decreases |t.roster|, 1
  {
    if |t.roster| == 1 then Some(Success(t))
    else if |t.roster| == 0 then Some(Failure(NoChampion))
    else if |t.roster| % 2 != 0 then Some(Failure(OddRoster))
    else NextRounds(t, rng, fuel)
  }

  /** The next round of an even roster of two or more, then the rounds after it; kept
      apart from `Rounds` so that a `Rounds` term mentions the round only one unfolding
      down. */
  function NextRounds(t: Tourney, rng: Draws, fuel: nat): (r: Option<Result<Tourney, EngineError>>)
    requires UnitDraws(rng) && |t.roster| > 1 && |t.roster| % 2 == 0
    ensures r.Some? && r.value.Success? ==> |r.value.value.roster| == 1 && r.value.value.round >= t.round
    ensures r.Some? && r.value.Success? ==> r.value.value.roster[0].Alive()
    ensures r.Some? && r.value.Failure? ==> r.value.error == OddRoster || r.value.error == NoChampion
    decreases |t.roster|, 0
  {
    match PlayRound(t, rng, fuel)
    case None => None
    case Some(next) => Rounds(next, rng, fuel)
  }

  /** A tournament that has not ended and will not meet an odd roster plays its next round. */
  lemma RoundsStep(t: Tourney, rng: Draws, fuel: nat)
    requires UnitDraws(rng) && |t.roster| > 1
    requires Rounds(t, rng, fuel).Some? && Rounds(t, rng, fuel).value != Failure(OddRoster)
    ensures |t.roster| % 2 == 0 && PlayRound(t, rng, fuel).Some?
    ensures |PlayRound(t, rng, fuel).value.roster| < |t.roster|
    ensures Rounds(t, rng, fuel) == Rounds(PlayRound(t, rng, fuel).value, rng, fuel)
  {
  }

  /** The whole tournament: an empty roster is refused before any round, and the champion
      of a roster of two or more is alive. */
  function Tournament(t: Tourney, rng: Draws, fuel: nat): (r: Option<Result<Tourney, EngineError>>)
    requires UnitDraws(rng)
    ensures |t.roster| == 0 ==> r == Some(Failure(NotInitialized))
    ensures r.Some? && r.value.Success? ==> |r.value.value.roster| == 1
    ensures r.Some? && r.value.Success? && |t.roster| > 1 ==> r.value.value.roster[0].Alive()
  {
    if |t.roster| == 0 then Some(Failure(NotInitialized)) else Rounds(t, rng, fuel)
  }
}
