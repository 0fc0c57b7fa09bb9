/** The tournament engine as an object: its roster of fighters, its round counter and its
    position in the draw source are fields its methods update in place. Every method is
    proved against the matching function of `Tournaments`. */
module Engine {
  import opened Outcomes
  import opened StatusEffects
  import opened FighterStates
  import opened Fighters
  import opened Shuffles
  import opened Tournaments

  /** Draws the fighter generator reads per fighter: class, name, health and strength. */
  const GeneratorDrawsPerFighter: nat := 4

  class GameEngine {
    var fighters: seq<Fighter>
    var roundIndex: nat
    const abilityProbability: real := AbilityProbability
    const rng: Draws
    /** The number of draws read so far. */
    var cursor: nat

    /** The roster holds each fighter once. The fighters' own invariant
        (`FighterState.Valid`) is not repeated here: `AdvanceRound` and `RunTournament`
        ensure that `State()` equals the function model, and `TournamentLaws.PlayRoundKeepsValid`
        and `TournamentLaws.RoundsKeepValid` prove that model keeps every fighter valid. */
    ghost predicate Valid()
      reads this
    {
      Distinct(fighters)
    }

    function Roster(): seq<FighterState>
      reads this, set f | f in fighters
    {
      ValuesOf(fighters)
    }

    function State(): Tourney
      reads this, set f | f in fighters
    {
      Tourney(Roster(), cursor, roundIndex)
    }

    constructor (rng: Draws)
      ensures fighters == [] && roundIndex == 0 && cursor == 0
      ensures this.rng == rng
    {
      fighters := [];
      roundIndex := 0;
      this.rng := rng;
      cursor := 0;
    }

    /** One call of `rng()`. */
    method NextDraw() returns (r: real)
      modifies this
      ensures r == rng(old(cursor)) && cursor == old(cursor) + 1
      ensures fighters == old(fighters) && roundIndex == old(roundIndex)
    {
      r := rng(cursor);
      cursor := cursor + 1;
    }

    /** The size check, then the roster the generator built from `count * 4` draws. */
    method InitializeTournament(count: int, generated: seq<Fighter>) returns (outcome: Outcome<EngineError>)
      requires CheckCount(count).Pass? ==> |generated| == count && Distinct(generated)
      modifies this
      ensures outcome == CheckCount(count)
      ensures outcome.Fail? ==> fighters == old(fighters) && cursor == old(cursor) && roundIndex == old(roundIndex)
      ensures outcome.Pass? ==> fighters == generated && roundIndex == old(roundIndex)
      ensures outcome.Pass? ==> cursor == old(cursor) + GeneratorDrawsPerFighter * count
    {
      if count % 2 != 0 {
        return Fail(OddCount);
      }
      if count < 2 {
        return Fail(TooFewFighters);
      }
      cursor := cursor + GeneratorDrawsPerFighter * count;
      fighters := generated;
      outcome := Pass;
    }

    /** A status pass on one fighter; the engine only narrates its outcome. */
    method HandleStatusEffects(fighter: Fighter)
      modifies fighter
      ensures fighter.Value() == old(fighter.Value()).ProcessStatusEffects()
    {
      var statusDamage := fighter.ProcessStatusEffects();
    }

    /** The action of a fighter free to act: the special-or-attack draw, then between the
        class ability and ice arrows a second draw only when both are available. */
    method Act(active: Fighter, passive: Fighter) returns (damageOutput: int)
      requires active != passive
      modifies this, active, passive
      ensures var choice := ChooseAction(old(active.Value()), rng, old(cursor));
        var x := Perform(choice.action, old(active.Value()), old(passive.Value()));
        && active.Value() == x.attacker && passive.Value() == x.target
        && damageOutput == x.damage && cursor == choice.cursor
      ensures fighters == old(fighters) && roundIndex == old(roundIndex)
    {
      var draw := NextDraw();
      var wantsSpecial := draw < abilityProbability;
      var canClassAbility := active.CanExecuteAbility();
      var canIceArrows := active.CanUseIceArrows();
      if wantsSpecial && (canClassAbility || canIceArrows) {
        var useClassAbility := canClassAbility;
        if canClassAbility && canIceArrows {
          var second := NextDraw();
          useClassAbility := second < ClassAbilityThreshold;
        }
        if useClassAbility {
          damageOutput := active.ExecuteAbility(passive);
        } else {
          damageOutput := active.UseIceArrows(passive);
        }
      } else {
        damageOutput := active.PerformAttack(passive);
      }
    }
  
    /** One pass of the battle loop, which reports whether the loop breaks. Both fighters
        take their status pass; the loop then breaks if the passive fighter died, swaps
        roles if the active one died, skips a stunned fighter's turn removing one stun,
        and otherwise the active fighter acts, the loop breaking if its target died. */
    method PlayTurn(fighter1: Fighter, fighter2: Fighter, activeFighter: Fighter, passiveFighter: Fighter)
      returns (nextActive: Fighter, nextPassive: Fighter, stop: bool)
      requires fighter1 != fighter2
      requires (activeFighter == fighter1 && passiveFighter == fighter2) || (activeFighter == fighter2 && passiveFighter == fighter1)
      modifies this, fighter1, fighter2
      ensures (nextActive == fighter1 && nextPassive == fighter2) || (nextActive == fighter2 && nextPassive == fighter1)
      ensures Duel(fighter1.Value(), fighter2.Value(), nextActive == fighter1, cursor)
        == Turn(Duel(old(fighter1.Value()), old(fighter2.Value()), activeFighter == fighter1, old(cursor)), rng)
      ensures stop ==> !(fighter1.IsAlive() && fighter2.IsAlive())
      ensures fighters == old(fighters) && roundIndex == old(roundIndex)
    {
      nextActive, nextPassive, stop := activeFighter, passiveFighter, false;
      HandleStatusEffects(fighter1);
      HandleStatusEffects(fighter2);
      if !passiveFighter.IsAlive() {
        stop := true;
        return;
      }
      if !activeFighter.IsAlive() {
        nextActive, nextPassive := passiveFighter, activeFighter;
        return;
      }
      if activeFighter.HasStatus(Stun) {
        activeFighter.RemoveStatus(Stun);
        nextActive, nextPassive := passiveFighter, activeFighter;
        return;
      }
      var damageOutput := Act(activeFighter, passiveFighter);
      if !passiveFighter.IsAlive() {
        stop := true;
        return;
      }
      nextActive, nextPassive := passiveFighter, activeFighter;
    }

    /** One pass of a battle still going on, stated as the step it makes in `Run`: the
        battle from the new state with one pass fewer ends as the battle from the old. */
    method PlayCountedTurn(fighter1: Fighter, fighter2: Fighter, activeFighter: Fighter, passiveFighter: Fighter, ghost left: nat)
      returns (nextActive: Fighter, nextPassive: Fighter, stop: bool)
      requires fighter1 != fighter2
      requires (activeFighter == fighter1 && passiveFighter == fighter2) || (activeFighter == fighter2 && passiveFighter == fighter1)
      requires fighter1.IsAlive() && fighter2.IsAlive() && 0 < left
      modifies this, fighter1, fighter2
      ensures (nextActive == fighter1 && nextPassive == fighter2) || (nextActive == fighter2 && nextPassive == fighter1)
      ensures Run(Duel(fighter1.Value(), fighter2.Value(), nextActive == fighter1, cursor), rng, left - 1)
        == Run(Duel(old(fighter1.Value()), old(fighter2.Value()), activeFighter == fighter1, old(cursor)), rng, left)
      ensures stop ==> !(fighter1.IsAlive() && fighter2.IsAlive())
      ensures fighters == old(fighters) && roundIndex == old(roundIndex)
    {
      RunStep(Duel(fighter1.Value(), fighter2.Value(), activeFighter == fighter1, cursor), rng, left);
      nextActive, nextPassive, stop := PlayTurn(fighter1, fighter2, activeFighter, passiveFighter);
    }

    /** One battle. fighter1 acts first when the first draw is low; the loop runs while
        both are alive; the fighter named winner is fighter1 if alive, else fighter2. */
    method RunBattle(fighter1: Fighter, fighter2: Fighter, ghost fuel: nat) returns (winner: Fighter)
      requires fighter1 != fighter2
      requires Battle(fighter1.Value(), fighter2.Value(), rng, cursor, fuel).Some?
      modifies this, fighter1, fighter2
      ensures var d := Battle(old(fighter1.Value()), old(fighter2.Value()), rng, old(cursor), fuel).value;
        fighter1.Value() == d.one && fighter2.Value() == d.two && cursor == d.cursor
      ensures winner == if fighter1.IsAlive() then fighter1 else fighter2
      ensures fighters == old(fighters) && roundIndex == old(roundIndex)
    {
      ghost var goal := Battle(fighter1.Value(), fighter2.Value(), rng, cursor, fuel);
      var first := NextDraw();
      var activeFighter := if first < FirstMoveThreshold then fighter1 else fighter2;
      var passiveFighter := if activeFighter == fighter1 then fighter2 else fighter1;
      ghost var left := fuel;
      while fighter1.IsAlive() && fighter2.IsAlive()
        invariant (activeFighter == fighter1 && passiveFighter == fighter2) || (activeFighter == fighter2 && passiveFighter == fighter1)
        invariant Run(Duel(fighter1.Value(), fighter2.Value(), activeFighter == fighter1, cursor), rng, left) == goal
        invariant fighters == old(fighters) && roundIndex == old(roundIndex)
        decreases left
      {
        var stop;
        activeFighter, passiveFighter, stop := PlayCountedTurn(fighter1, fighter2, activeFighter, passiveFighter, left);
        left := left - 1;
        if stop {
          break;
        }
      }
      winner := if fighter1.IsAlive() then fighter1 else fighter2;
    }
  
    /** One round: the roster is shuffled into a fresh list, cut into consecutive pairs,
        and the pairs fight in order; the roster itself is left as it was. */
    method ProcessRound(ghost fuel: nat)
      requires Valid() && UnitDraws(rng) && |fighters| % 2 == 0
      requires RoundBattles(Roster(), rng, cursor, fuel).Some?
      modifies this, set f | f in fighters
      ensures fighters == old(fighters) && roundIndex == old(roundIndex)
      ensures Roster() == RoundBattles(old(Roster()), rng, old(cursor), fuel).value.roster
      ensures cursor == RoundBattles(old(Roster()), rng, old(cursor), fuel).value.cursor
    {
      ghost var vals, start := Roster(), cursor;
      assert forall k :: 0 <= k < |fighters| ==> fighters[k].Value() == vals[k];
      ghost var order := Shuffle(Range(|vals|), rng, cursor);
      RoundBattlesPairs(vals, rng, cursor, fuel);
      ghost var played := RoundBattles(vals, rng, start, fuel).value;
      var battlePairs := DrawPairs(order);
      PlayBattles(battlePairs, order, vals, fuel, played);
      ValuesOfPointwise(fighters, played.roster);
    }

    /** The shuffled pairs of the roster, which read the shuffle's draws; pair `q` is the
        fighters at the shuffled positions `2q` and `2q + 1`. */
    method DrawPairs(ghost order: seq<nat>) returns (battlePairs: seq<(Fighter, Fighter)>)
      requires UnitDraws(rng) && |fighters| % 2 == 0 && order == Shuffle(Range(|fighters|), rng, cursor)
      modifies this
      ensures fighters == old(fighters) && roundIndex == old(roundIndex)
      ensures cursor == old(cursor) + ShuffleDraws(|fighters|)
      ensures |order| == |fighters| == 2 * |battlePairs| && Bounded(order, |fighters|)
      ensures forall q :: 0 <= q < |battlePairs| ==> battlePairs[q] == (fighters[order[2 * q]], fighters[order[2 * q + 1]])
    {
      var next;
      battlePairs, next := ShuffledPairs(fighters, rng, cursor, order);
      cursor := next;
    }

    /** The battles of the pairs in order, pair `q` being the fighters at positions
        `order[2q]` and `order[2q + 1]` of the roster. */
    method PlayBattles(battlePairs: seq<(Fighter, Fighter)>, ghost order: seq<nat>, ghost start: seq<FighterState>,
                       ghost fuel: nat, ghost played: Played)
      requires Valid() && |start| == |fighters| && Pairing(order, |fighters|) && |order| == 2 * |battlePairs|
      requires forall k :: 0 <= k < |fighters| ==> fighters[k].Value() == start[k]
      requires forall q :: 0 <= q < |battlePairs| ==> battlePairs[q] == (fighters[order[2 * q]], fighters[order[2 * q + 1]])
      requires PlayPairs(start, order, 0, rng, cursor, fuel) == Some(played)
      modifies this, set f | f in fighters
      ensures fighters == old(fighters) && roundIndex == old(roundIndex)
      ensures forall k :: 0 <= k < |fighters| ==> fighters[k].Value() == played.roster[k]
      ensures cursor == played.cursor
    {
      var n := |fighters|;
      ghost var vals := start;
      ghost var goal := PlayPairs(vals, order, 0, rng, cursor, fuel);
      var p := 0;
      while p < |battlePairs|
        invariant p <= |battlePairs|
        invariant fighters == old(fighters) && roundIndex == old(roundIndex)
        invariant |vals| == n && forall k :: 0 <= k < n ==> fighters[k].Value() == vals[k]
        invariant PlayPairs(vals, order, p, rng, cursor, fuel) == goal
      {
        ghost var a, b := order[2 * p], order[2 * p + 1];
        PlayPairsNext(vals, order, p, rng, cursor, fuel);
        ghost var d := Battle(vals[a], vals[b], rng, cursor, fuel).value;
        PlayPair(battlePairs[p].0, battlePairs[p].1, a, b, vals, fuel);
        vals := vals[a := d.one][b := d.two];
        p := p + 1;
      }
    }

    /** The battle of the fighters at positions `a` and `b`, whose values are written back
        there; every other fighter of the roster is left alone. */
    method PlayPair(fighter1: Fighter, fighter2: Fighter, ghost a: nat, ghost b: nat, ghost vals: seq<FighterState>, ghost fuel: nat)
      requires Valid() && |vals| == |fighters| && a < |fighters| && b < |fighters| && a != b
      requires fighter1 == fighters[a] && fighter2 == fighters[b]
      requires forall k :: 0 <= k < |fighters| ==> fighters[k].Value() == vals[k]
      requires Battle(vals[a], vals[b], rng, cursor, fuel).Some?
      modifies this, fighter1, fighter2
      ensures fighters == old(fighters) && roundIndex == old(roundIndex)
      ensures var d := Battle(vals[a], vals[b], rng, old(cursor), fuel).value;
        && cursor == d.cursor
        && forall k :: 0 <= k < |fighters| ==> fighters[k].Value() == vals[a := d.one][b := d.two][k]
    {
      ghost var d := Battle(vals[a], vals[b], rng, cursor, fuel).value;
      var winner := RunBattle(fighter1, fighter2, fuel);
      forall k | 0 <= k < |fighters|
        ensures fighters[k].Value() == vals[a := d.one][b := d.two][k]
      {
        if k != a && k != b {
          assert fighters[k] != fighter1 && fighters[k] != fighter2;
        }
      }
    }

    /** One pass of the tournament loop: the counter goes up, the round is fought, the
        dead are dropped and the rest are reset for the next round. */
    method AdvanceRound(ghost fuel: nat)
      requires Valid() && UnitDraws(rng) && |fighters| % 2 == 0
      requires PlayRound(State(), rng, fuel).Some?
      modifies this, set f | f in fighters
      ensures Valid() && forall f :: f in fighters ==> f in old(fighters)
      ensures State() == PlayRound(old(State()), rng, fuel).value
    {
      ghost var before := Roster();
      ghost var played := RoundBattles(before, rng, cursor, fuel).value;
      roundIndex := roundIndex + 1;
      assert Roster() == before;
      ProcessRound(fuel);
      assert Roster() == played.roster;
      KeepSurvivors();
    }

    /** The alive fighters stay, in roster order, each reset for the next battle. */
    method KeepSurvivors()
      requires Valid()
      modifies this, set f | f in fighters
      ensures Valid() && forall f :: f in fighters ==> f in old(fighters)
      ensures Roster() == ResetAll(AliveFighters(old(Roster())))
      ensures cursor == old(cursor) && roundIndex == old(roundIndex)
    {
      DropDefeated();
      ResetRoster();
    }

    /** The filter that keeps only the alive fighters, in roster order. */
    method DropDefeated()
      requires Valid()
      modifies this
      ensures Valid() && forall o: object :: o in fighters ==> o in old(fighters)
      ensures Roster() == AliveFighters(old(Roster()))
      ensures cursor == old(cursor) && roundIndex == old(roundIndex)
    {
      SurvivorsValues(fighters);
      fighters := Survivors(fighters);
    }

    /** The reset of every fighter of the roster for the next battle. */
    method ResetRoster()
      requires Valid()
      modifies set f | f in fighters
      ensures Roster() == ResetAll(old(Roster()))
    {
      ghost var before := Roster();
      var k := 0;
      while k < |fighters|
        invariant k <= |fighters|
        invariant forall m :: 0 <= m < k ==> fighters[m].Value() == before[m].ResetForNewBattle()
        invariant forall m :: k <= m < |fighters| ==> fighters[m].Value() == before[m]
      {
        fighters[k].ResetForNewBattle();
        assert forall m :: 0 <= m < |fighters| && m != k ==> fighters[m] != fighters[k];
        k := k + 1;
      }
      ValuesOfPointwise(fighters, ResetAll(before));
    }

    /** Rounds while more than one fighter remains; the champion is the last one left, and
        alive when the roster started with two or more. */
    method RunTournament(ghost fuel: nat) returns (result: Result<Fighter, EngineError>)
      requires Valid() && UnitDraws(rng)
      requires Tournament(State(), rng, fuel).Some?
      requires Tournament(State(), rng, fuel).value != Failure(OddRoster)
      modifies this, set f | f in fighters
      ensures result.Failure? <==> Tournament(old(State()), rng, fuel).value.Failure?
      ensures result.Failure? ==> result.error == Tournament(old(State()), rng, fuel).value.error
      ensures result.Success? ==> State() == Tournament(old(State()), rng, fuel).value.value
      ensures result.Success? ==> fighters == [result.value]
      ensures result.Success? && |old(fighters)| > 1 ==> result.value.IsAlive()
    {
      if |fighters| == 0 {
        return Failure(NotInitialized);
      }
      ghost var goal := Rounds(State(), rng, fuel);
      while |fighters| > 1
        invariant Valid() && goal == Rounds(State(), rng, fuel)
        invariant forall f :: f in fighters ==> f in old(fighters)
        decreases |fighters|
      {
        RoundsStep(State(), rng, fuel);
        AdvanceRound(fuel);
      }
      if |fighters| == 1 {
        result := Success(fighters[0]);
      } else {
        result := Failure(NoChampion);
      }
    }

    /** The number of fighters of the roster still alive. */
    function GetAliveCount(): (n: nat)
      reads this, set f | f in fighters
      ensures n == AliveCount(Roster())
    {
      SurvivorsValues(fighters);
      |Survivors(fighters)|
    }

    function GetCurrentRound(): nat
      reads this
    {
      roundIndex
    }
  }

  /** The round's draw of pairs: a shuffled copy of the roster cut into consecutive pairs,
      pair `q` being the fighters at the shuffled positions `2q` and `2q + 1`. */
  method ShuffledPairs(fs: seq<Fighter>, rng: Draws, c: nat, ghost order: seq<nat>)
    returns (battlePairs: seq<(Fighter, Fighter)>, next: nat)
    requires UnitDraws(rng) && |fs| % 2 == 0 && order == Shuffle(Range(|fs|), rng, c)
    ensures |order| == |fs| == 2 * |battlePairs| && Bounded(order, |fs|)
    ensures forall q :: 0 <= q < |battlePairs| ==> battlePairs[q] == (fs[order[2 * q]], fs[order[2 * q + 1]])
    ensures next == c + ShuffleDraws(|fs|)
  {
    ShuffleIsSelect(fs, rng, c);
    var mixedFighters;
    mixedFighters, next := RandomizeArray(fs, rng, c);
    battlePairs := Pairs(mixedFighters);
    forall q | 0 <= q < |battlePairs|
      ensures battlePairs[q] == (fs[order[2 * q]], fs[order[2 * q + 1]])
    {
      assert battlePairs[q] == (mixedFighters[2 * q], mixedFighters[2 * q + 1]);
    }
  }

  /** The consecutive pairs of a list of even length. */
  method Pairs(mixed: seq<Fighter>) returns (battlePairs: seq<(Fighter, Fighter)>)
    requires |mixed| % 2 == 0
    ensures |battlePairs| == |mixed| / 2
    ensures forall q :: 0 <= q < |battlePairs| ==> battlePairs[q] == (mixed[2 * q], mixed[2 * q + 1])
  {
    battlePairs := [];
    var i := 0;
    while i < |mixed|
      invariant i == 2 * |battlePairs| <= |mixed|
      invariant forall q :: 0 <= q < |battlePairs| ==> battlePairs[q] == (mixed[2 * q], mixed[2 * q + 1])
    {
      battlePairs := battlePairs + [(mixed[i], mixed[i + 1])];
      i := i + 2;
    }
  }

  /** The roster's filter on object references: the alive fighters, in roster order. */
  function Survivors(fs: seq<Fighter>): (r: seq<Fighter>)
    reads set f | f in fs
    ensures forall f :: f in r ==> f in fs
    ensures Distinct(fs) ==> Distinct(r)
  {
    if fs == [] then []
    else
      var init, last := fs[..|fs| - 1], fs[|fs| - 1];
      var rest := Survivors(init);
      assert Distinct(fs) ==> Distinct(init) && last !in init by {
        if Distinct(fs) {
          assert forall k :: 0 <= k < |init| ==> init[k] == fs[k];
        }
      }
      rest + (if last.IsAlive() then [last] else [])
  }

  lemma ValuesOfAppend(a: seq<Fighter>, b: seq<Fighter>)
    ensures ValuesOf(a + b) == ValuesOf(a) + ValuesOf(b)
  {
    var l, r := ValuesOf(a + b), ValuesOf(a) + ValuesOf(b);
    assert |l| == |r|;
    forall k | 0 <= k < |l|
      ensures l[k] == r[k]
    {
      if k < |a| {
        assert (a + b)[k] == a[k];
      } else {
        assert (a + b)[k] == b[k - |a|];
      }
    }
  }

  /** The filter on references agrees with the filter on fighter values. */
  lemma {:induction false} SurvivorsValues(fs: seq<Fighter>)
    ensures ValuesOf(Survivors(fs)) == AliveFighters(ValuesOf(fs))
  {
    if fs != [] {
      var init, last := fs[..|fs| - 1], fs[|fs| - 1];
      var tail := if last.IsAlive() then [last] else [];
      SurvivorsValues(init);
      ValuesOfAppend(Survivors(init), tail);
      var vs := ValuesOf(fs);
      assert vs[..|fs| - 1] == ValuesOf(init);
      assert vs[..|vs| - 1] + [vs[|vs| - 1]] == vs;
      assert ValuesOf(tail) == if vs[|vs| - 1].Alive() then [vs[|vs| - 1]] else [];
    }
  }
}
