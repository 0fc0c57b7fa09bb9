/** Properties of the engine's rules: what one turn does, how whole battles end under
    particular draw sources, and how rounds shrink the roster. */
module TournamentLaws {
  import opened Outcomes
  import opened StatusEffects
  import opened FighterStates
  import opened FighterLaws
  import opened Shuffles
  import opened Tournaments

  // ---------------------------------------------------------------- one turn

  /** A stunned active fighter loses exactly one stun and its turn: no draw is read, the
      other fighter is not touched after the status pass, and the roles swap. */
  lemma StunnedTurn(d: Duel, rng: Draws)
    requires d.TickBoth().Ongoing() && d.TickBoth().Active().HasStatus(Stun)
    ensures Turn(d, rng).cursor == d.cursor && Turn(d, rng).oneActive == !d.oneActive
    ensures Turn(d, rng).Active() == d.TickBoth().Passive()
    ensures Turn(d, rng).Passive() == d.TickBoth().Active().(statuses := Turn(d, rng).Passive().statuses)
    ensures CountActive(Turn(d, rng).Passive().statuses, Stun) == CountActive(d.TickBoth().Active().statuses, Stun) - 1
    ensures forall k :: k != Stun ==>
      CountActive(Turn(d, rng).Passive().statuses, k) == CountActive(d.TickBoth().Active().statuses, k)
  {
    RemoveStatusLaws(d.TickBoth().Active(), Stun);
  }

  /** No draw of the source falls below one half (the constant one-half source, say). */
  ghost predicate NoLowDraws(rng: Draws)
  {
    forall k :: rng(k) >= AbilityProbability
  }

  /** Under such a source a fighter free to act only ever makes a plain attack: one draw is
      read, the attacker is unchanged, the target loses the attacker's strength (floored at
      zero), and the roles swap exactly when the target survives. */
  lemma HighDrawsAttack(d: Duel, rng: Draws)
    requires NoLowDraws(rng) && d.TickBoth().Ongoing() && !d.TickBoth().Active().HasStatus(Stun)
    ensures Turn(d, rng).cursor == d.cursor + 1
    ensures d.oneActive ==>
      Turn(d, rng).one == d.TickBoth().one && Turn(d, rng).two == d.TickBoth().two.SufferDamage(d.one.strength)
    ensures !d.oneActive ==>
      Turn(d, rng).two == d.TickBoth().two && Turn(d, rng).one == d.TickBoth().one.SufferDamage(d.two.strength)
    ensures Turn(d, rng).oneActive <==> (d.oneActive <==> !Turn(d, rng).Ongoing())
  {
    var t := d.TickBoth();
    var choice := ChooseAction(t.Active(), rng, t.cursor);
    assert rng(t.cursor) >= AbilityProbability;
    assert choice.action == PlainAttack && choice.cursor == t.cursor + 1;
  }

  /** A turn that leaves both fighters dead had both die in its status pass: an action
      never harms the fighter who performs it. */
  lemma DoubleKnockOutIsTick(d: Duel, rng: Draws)
    requires d.Ongoing()
    requires !Turn(d, rng).one.Alive() && !Turn(d, rng).two.Alive()
    ensures !d.TickBoth().one.Alive() && !d.TickBoth().two.Alive()
  {
  }

  /** The fighter named winner of a finished battle is alive unless both fighters died
      in the status pass of the last turn; it is dead exactly when both are. */
  lemma BattleWinner(d: Duel, rng: Draws, fuel: nat)
    requires d.Ongoing() && Run(d, rng, fuel).Some?
    ensures var r := Run(d, rng, fuel).value;
      !Winner(r).Alive() <==> !r.one.Alive() && !r.two.Alive()
    ensures var e := LastTurn(d, rng, fuel);
      Winner(Run(d, rng, fuel).value).Alive() || (!e.TickBoth().one.Alive() && !e.TickBoth().two.Alive())
  {
    var e := LastTurn(d, rng, fuel);
    if !Winner(Run(d, rng, fuel).value).Alive() {
      DoubleKnockOutIsTick(e, rng);
    }
  }

  // ---------------------------------------------------------------- the fighter invariant

  /** Every fighter of a roster keeps the fighter invariant. */
  ghost predicate AllValid(s: seq<FighterState>)
  {
    forall i :: 0 <= i < |s| ==> s[i].Valid()
  }

  /** Both fighters of a duel keep the fighter invariant. */
  ghost predicate DuelValid(d: Duel)
  {
    d.one.Valid() && d.two.Valid()
  }

  /** Every action keeps both fighters valid. */
  lemma PerformKeepsValid(a: Action, attacker: FighterState, target: FighterState)
    requires attacker.Valid() && target.Valid()
    ensures Perform(a, attacker, target).attacker.Valid() && Perform(a, attacker, target).target.Valid()
  {
    match a
    case PlainAttack => PerformAttackKeepsValid(attacker, target);
    case ClassAbility => ExecuteAbilityKeepsValid(attacker, target);
    case IceArrowsShot => UseIceArrowsKeepsValid(attacker, target);
  }

  /** Seating two valid fighters gives a valid duel. */
  lemma SeatKeepsValid(d: Duel, active: FighterState, passive: FighterState)
    requires active.Valid() && passive.Valid()
    ensures DuelValid(d.Seat(active, passive)) && DuelValid(d.Seat(active, passive).Swapped())
  {
  }

  /** One pass of the battle loop keeps both fighters valid: the status passes, the lost
      turn of a stunned fighter and every action keep the invariant. */
  lemma TurnKeepsValid(d: Duel, rng: Draws)
    requires DuelValid(d)
    ensures DuelValid(Turn(d, rng))
  {
    var t := d.TickBoth();
    ProcessStatusEffectsKeepsValid(d.one);
    ProcessStatusEffectsKeepsValid(d.two);
    SeatKeepsValid(t, t.Active(), t.Passive());
    assert t == t.Seat(t.Active(), t.Passive());
    if t.Passive().Alive() && t.Active().Alive() {
      if t.Active().HasStatus(Stun) {
        RemoveStatusLaws(t.Active(), Stun);
        SeatKeepsValid(t, t.Active().RemoveStatus(Stun), t.Passive());
      } else {
        var choice := ChooseAction(t.Active(), rng, t.cursor);
        var x := Perform(choice.action, t.Active(), t.Passive());
        PerformKeepsValid(choice.action, t.Active(), t.Passive());
        SeatKeepsValid(t, x.attacker, x.target);
        var acted := t.Seat(x.attacker, x.target).(cursor := choice.cursor);
        assert DuelValid(acted) && DuelValid(acted.Swapped());
      }
    }
  }

  /** `e` is a valid duel from which the battle goes on as it does from `d` with one pass
      fewer. */
  ghost predicate ValidAfterTurn(d: Duel, e: Duel, rng: Draws, fuel: nat)
    requires 0 < fuel
  {
    DuelValid(e) && Run(d, rng, fuel) == Run(e, rng, fuel - 1)
  }

  lemma ValidTurnStep(d: Duel, rng: Draws, fuel: nat)
    requires DuelValid(d) && d.Ongoing() && Run(d, rng, fuel).Some?
    ensures 0 < fuel && exists e :: ValidAfterTurn(d, e, rng, fuel)
  {
    assert RunPass(d, rng, fuel).Some?;
    RunStep(d, rng, fuel);
    TurnKeepsValid(d, rng);
    assert ValidAfterTurn(d, Turn(d, rng), rng, fuel);
  }

  /** A finished battle leaves both fighters valid. */
  lemma {:induction false} RunKeepsValid(d: Duel, rng: Draws, fuel: nat)
    requires DuelValid(d) && Run(d, rng, fuel).Some?
    ensures DuelValid(Run(d, rng, fuel).value)
    decreases fuel
  {
    if d.Ongoing() {
      ValidTurnStep(d, rng, fuel);
      var e :| ValidAfterTurn(d, e, rng, fuel);
      RunKeepsValid(e, rng, fuel - 1);
    }
  }

  /** `next` is a valid roster from which the battles go on as they do from `vals`, with
      pair `p` played. */
  ghost predicate ValidAfterPair(vals: seq<FighterState>, next: seq<FighterState>, order: seq<nat>, p: nat,
                                 rng: Draws, c: nat, c': nat, fuel: nat)
    requires Pairing(order, |vals|) && 2 * p < |order|
  {
    && |next| == |vals| && AllValid(next)
    && PlayPairs(vals, order, p, rng, c, fuel) == PlayPairs(next, order, p + 1, rng, c', fuel)
  }

  lemma ValidPairStep(vals: seq<FighterState>, order: seq<nat>, p: nat, rng: Draws, c: nat, fuel: nat)
    requires Pairing(order, |vals|) && 2 * p < |order| && AllValid(vals)
    requires PlayPairs(vals, order, p, rng, c, fuel).Some?
    ensures exists next, c' :: ValidAfterPair(vals, next, order, p, rng, c, c', fuel)
  {
    var i, j := order[2 * p], order[2 * p + 1];
    PlayPairsNext(vals, order, p, rng, c, fuel);
    var d := Battle(vals[i], vals[j], rng, c, fuel).value;
    RunKeepsValid(Opening(vals[i], vals[j], rng, c), rng, fuel);
    var next := vals[i := d.one][j := d.two];
    assert ValidAfterPair(vals, next, order, p, rng, c, d.cursor, fuel);
  }

  /** The battles of a round keep every fighter of the roster valid. */
  lemma {:induction false} PlayPairsKeepsValid(vals: seq<FighterState>, order: seq<nat>, p: nat, rng: Draws, c: nat, fuel: nat)
    requires Pairing(order, |vals|) && 2 * p <= |order| && AllValid(vals)
    requires PlayPairs(vals, order, p, rng, c, fuel).Some?
    ensures AllValid(PlayPairs(vals, order, p, rng, c, fuel).value.roster)
    decreases |order| - 2 * p
  {
    if 2 * p < |order| {
      ValidPairStep(vals, order, p, rng, c, fuel);
      var next: seq<FighterState>, c': nat :| ValidAfterPair(vals, next, order, p, rng, c, c', fuel);
      PlayPairsKeepsValid(next, order, p + 1, rng, c', fuel);
    }
  }

  /** A round keeps every fighter valid: battles keep the invariant and the reset fighters
      that stay have their health in range. */
  lemma PlayRoundKeepsValid(t: Tourney, rng: Draws, fuel: nat)
    requires UnitDraws(rng) && |t.roster| % 2 == 0 && AllValid(t.roster)
    requires PlayRound(t, rng, fuel).Some?
    ensures AllValid(PlayRound(t, rng, fuel).value.roster)
  {
    PlayRoundRoster(t, rng, fuel);
    RoundBattlesKeepValid(t.roster, rng, t.cursor, fuel);
    ResetSurvivorsValid(RoundBattles(t.roster, rng, t.cursor, fuel).value.roster);
  }

  /** A finished round is its battles, then the filter and the reset. */
  lemma PlayRoundRoster(t: Tourney, rng: Draws, fuel: nat)
    requires UnitDraws(rng) && |t.roster| % 2 == 0 && PlayRound(t, rng, fuel).Some?
    ensures RoundBattles(t.roster, rng, t.cursor, fuel).Some?
    ensures PlayRound(t, rng, fuel).value.roster
      == ResetAll(AliveFighters(RoundBattles(t.roster, rng, t.cursor, fuel).value.roster))
  {
  }

  /** The battles of a round keep every fighter valid. */
  lemma RoundBattlesKeepValid(roster: seq<FighterState>, rng: Draws, c: nat, fuel: nat)
    requires UnitDraws(rng) && |roster| % 2 == 0 && AllValid(roster)
    requires RoundBattles(roster, rng, c, fuel).Some?
    ensures AllValid(RoundBattles(roster, rng, c, fuel).value.roster)
  {
    var n := |roster|;
    RoundBattlesPairs(roster, rng, c, fuel);
    PlayPairsKeepsValid(roster, Shuffle(Range(n), rng, c), 0, rng, c + ShuffleDraws(n), fuel);
  }

  /** The fighters a round keeps, once reset, are valid when the roster was. */
  lemma ResetSurvivorsValid(played: seq<FighterState>)
    requires AllValid(played)
    ensures AllValid(ResetAll(AliveFighters(played)))
  {
    var kept := AliveFighters(played);
    forall i | 0 <= i < |kept|
      ensures kept[i].ResetForNewBattle().Valid()
    {
      assert kept[i] in played;
      ResetLaws(kept[i]);
    }
  }

  /** A whole tournament keeps every fighter valid, the champion included. */
  lemma {:induction false} RoundsKeepValid(t: Tourney, rng: Draws, fuel: nat)
    requires UnitDraws(rng) && AllValid(t.roster)
    requires Rounds(t, rng, fuel).Some? && Rounds(t, rng, fuel).value.Success?
    ensures AllValid(Rounds(t, rng, fuel).value.value.roster)
    decreases |t.roster|
  {
    if |t.roster| > 1 {
      RoundsStep(t, rng, fuel);
      PlayRoundKeepsValid(t, rng, fuel);
      RoundsKeepValid(PlayRound(t, rng, fuel).value, rng, fuel);
    }
  }

  /** A fighter of the given health with a burn in force. */
  function Burning(hp: int): (f: FighterState)
    ensures f.hp == hp && f.statuses == [Effect(Burn, BurnTurns, BurnDamage, true)]
  {
    FighterState(hp, 10, 3, [Effect(Burn, BurnTurns, BurnDamage, true)], 0, Sorcerer)
  }

  /** Both fighters burn to death in the first status pass, whatever the draws: the loop
      stops with both dead, and fighter2 is named winner although dead. */
  lemma DoubleKnockOut(rng: Draws, c: nat, fuel: nat)
    requires 0 < fuel
    ensures Battle(Burning(1), Burning(2), rng, c, fuel).Some?
    ensures !Battle(Burning(1), Burning(2), rng, c, fuel).value.one.Alive()
    ensures !Battle(Burning(1), Burning(2), rng, c, fuel).value.two.Alive()
    ensures Winner(Battle(Burning(1), Burning(2), rng, c, fuel).value) == Battle(Burning(1), Burning(2), rng, c, fuel).value.two
  {
    var d := Opening(Burning(1), Burning(2), rng, c);
    assert DamageSum(Burning(1).statuses) == BurnDamage by {
      assert Burning(1).statuses[..0] == [];
    }
    assert DamageSum(Burning(2).statuses) == BurnDamage by {
      assert Burning(2).statuses[..0] == [];
    }
    assert !d.TickBoth().one.Alive() && !d.TickBoth().two.Alive();
    RunStep(d, rng, fuel);
    assert Turn(d, rng) == d.TickBoth();
  }

  // ---------------------------------------------------------------- two Sorcerers

  /** Every draw of the source is below one half. */
  ghost predicate LowDraws(rng: Draws)
  {
    forall k :: rng(k) < AbilityProbability
  }

  /** A list holding nothing but stuns in force. */
  ghost predicate OnlyStuns(s: seq<Effect>)
  {
    forall i :: 0 <= i < |s| ==> s[i].kind == Stun && s[i].isActive
  }

  lemma {:induction false} StunsTickToThemselves(s: seq<Effect>)
    requires OnlyStuns(s)
    ensures ActiveOnly(Ticked(s)) == s && DamageSum(s) == 0
  {
    assert Ticked(s) == s;
    if s != [] {
      var init := s[..|s| - 1];
      assert OnlyStuns(init);
      StunsTickToThemselves(init);
      assert init + [s[|s| - 1]] == s;
    }
  }

  /** Two live Sorcerers carrying nothing but stuns. */
  ghost predicate StunLock(d: Duel)
  {
    && d.one.variant.Sorcerer? && d.two.variant.Sorcerer?
    && d.one.Alive() && d.two.Alive()
    && OnlyStuns(d.one.statuses) && OnlyStuns(d.two.statuses)
  }

  /** Shedding a stun leaves nothing but stuns. */
  lemma ShedStun(f: FighterState)
    requires OnlyStuns(f.statuses)
    ensures OnlyStuns(f.RemoveStatus(Stun).statuses)
  {
    if f.statuses != [] {
      assert FirstActive(f.statuses, Stun) == Some(0);
      assert f.RemoveStatus(Stun).statuses == f.statuses[1..];
    }
  }

  lemma StunAppended(s: seq<Effect>, e: Effect)
    requires OnlyStuns(s) && e.kind == Stun && e.isActive
    ensures OnlyStuns(s + [e])
  {
    forall i | 0 <= i < |s + [e]|
      ensures (s + [e])[i].kind == Stun && (s + [e])[i].isActive
    {
      if i < |s| {
        assert (s + [e])[i] == s[i];
      }
    }
  }

  /** With every draw low, a Sorcerer free to act casts its stun. */
  lemma LowDrawsCharm(a: FighterState, rng: Draws, c: nat)
    requires LowDraws(rng) && a.variant.Sorcerer?
    ensures ChooseAction(a, rng, c).action == ClassAbility
  {
    assert rng(c) < AbilityProbability;
    assert rng(c + 1) < ClassAbilityThreshold;
  }

  /** A stunned Sorcerer of the lock only sheds its stun. */
  lemma StunnedSorcererTurn(d: Duel, rng: Draws)
    requires StunLock(d) && d.TickBoth() == d && d.Active().HasStatus(Stun)
    ensures StunLock(Turn(d, rng))
  {
    ShedStun(d.Active());
    var r := d.Seat(d.Active().RemoveStatus(Stun), d.Passive()).Swapped();
    assert Turn(d, rng) == r;
  }

  /** A free Sorcerer of the lock stuns the other one, who stays alive. */
  lemma CharmingSorcererTurn(d: Duel, rng: Draws)
    requires LowDraws(rng) && StunLock(d) && d.TickBoth() == d && !d.Active().HasStatus(Stun)
    ensures StunLock(Turn(d, rng))
  {
    var a, p := d.Active(), d.Passive();
    var choice := ChooseAction(a, rng, d.cursor);
    LowDrawsCharm(a, rng, d.cursor);
    var x := ExecuteAbility(a, p);
    assert x.attacker == a && x.target == p.ApplyStatus(Effect(Stun, StunTurns, 0, true));
    StunAppended(p.statuses, Effect(Stun, StunTurns, 0, true));
    var r := d.Seat(x.attacker, x.target).(cursor := choice.cursor).Swapped();
    assert Turn(d, rng) == r;
  }

  /** With every draw low, a Sorcerer free to act always casts its stun, and a stunned one
      only sheds it, so nobody is ever hurt. */
  lemma StunLockTurn(d: Duel, rng: Draws)
    requires LowDraws(rng) && StunLock(d)
    ensures StunLock(Turn(d, rng))
  {
    StunsTickToThemselves(d.one.statuses);
    StunsTickToThemselves(d.two.statuses);
    assert d.TickBoth() == d;
    if d.Active().HasStatus(Stun) {
      StunnedSorcererTurn(d, rng);
    } else {
      CharmingSorcererTurn(d, rng);
    }
  }

  /** One pass of the lock leads to the lock again. */
  lemma StunLockStep(d: Duel, rng: Draws, fuel: nat)
    requires LowDraws(rng) && StunLock(d) && 0 < fuel
    ensures exists e :: StunLock(e) && Run(d, rng, fuel) == Run(e, rng, fuel - 1)
  {
    RunStep(d, rng, fuel);
    StunLockTurn(d, rng);
  }

  /** Two Sorcerers under such a source stun each other forever: no fuel is enough. */
  lemma {:induction false} StunLockNeverEnds(d: Duel, rng: Draws, fuel: nat)
    requires LowDraws(rng) && StunLock(d)
    ensures Run(d, rng, fuel) == None
    decreases fuel
  {
    if fuel == 0 {
      assert Run(d, rng, fuel) == RunPass(d, rng, fuel);
    } else {
      StunLockStep(d, rng, fuel);
      var e :| StunLock(e) && Run(d, rng, fuel) == Run(e, rng, fuel - 1);
      StunLockNeverEnds(e, rng, fuel - 1);
    }
  }

  /** The battle of two live Sorcerers without effects does not end when every draw is low. */
  lemma SorcererStalemate(one: FighterState, two: FighterState, rng: Draws, c: nat, fuel: nat)
    requires LowDraws(rng)
    requires one.variant.Sorcerer? && two.variant.Sorcerer? && one.Alive() && two.Alive()
    requires one.statuses == [] && two.statuses == []
    ensures Battle(one, two, rng, c, fuel) == None
  {
    StunLockNeverEnds(Opening(one, two, rng, c), rng, fuel);
  }

  // ---------------------------------------------------------------- plain battles

  /** A fighter that can only trade plain blows: no effects on it and a positive strength. */
  ghost predicate Plain(f: FighterState)
  {
    f.statuses == [] && f.strength > 0
  }

  /** Two such fighters, at least one of them alive. */
  ghost predicate PlainDuel(d: Duel)
  {
    Plain(d.one) && Plain(d.two) && (d.one.Alive() || d.two.Alive())
  }

  /** A plain turn changes nothing but health, and the total health drops. */
  lemma PlainTurn(d: Duel, rng: Draws)
    requires NoLowDraws(rng) && PlainDuel(d) && d.Ongoing()
    ensures PlainDuel(Turn(d, rng))
    ensures Turn(d, rng).one == d.one.(hp := Turn(d, rng).one.hp) && Turn(d, rng).one.hp <= d.one.hp
    ensures Turn(d, rng).two == d.two.(hp := Turn(d, rng).two.hp) && Turn(d, rng).two.hp <= d.two.hp
    ensures Turn(d, rng).one.hp + Turn(d, rng).two.hp < d.one.hp + d.two.hp
  {
    assert d.TickBoth() == d;
    HighDrawsAttack(d, rng);
  }

  /** Plain fighters always finish within more passes than their total health, with
      exactly one of them alive, and nothing but their health changed. */
  lemma {:induction false} PlainRunEnds(d: Duel, rng: Draws, fuel: nat)
    requires NoLowDraws(rng) && PlainDuel(d) && d.one.hp + d.two.hp < fuel
    ensures Run(d, rng, fuel).Some?
    ensures Run(d, rng, fuel).value.one.Alive() != Run(d, rng, fuel).value.two.Alive()
    ensures Run(d, rng, fuel).value.one == d.one.(hp := Run(d, rng, fuel).value.one.hp)
    ensures Run(d, rng, fuel).value.two == d.two.(hp := Run(d, rng, fuel).value.two.hp)
    ensures Run(d, rng, fuel).value.one.hp <= d.one.hp && Run(d, rng, fuel).value.two.hp <= d.two.hp
    decreases fuel
  {
    if d.Ongoing() {
      RunStep(d, rng, fuel);
      PlainTurn(d, rng);
      PlainRunEnds(Turn(d, rng), rng, fuel - 1);
    }
  }

  /** The battle of two live plain fighters ends, given more passes than their total health,
      with exactly one alive, who is the winner; fighter2 moves first. */
  lemma PlainBattle(one: FighterState, two: FighterState, rng: Draws, c: nat, fuel: nat)
    requires NoLowDraws(rng) && Plain(one) && Plain(two) && one.Alive() && two.Alive()
    requires one.hp + two.hp < fuel
    ensures !Opening(one, two, rng, c).oneActive
    ensures Battle(one, two, rng, c, fuel).Some?
    ensures Battle(one, two, rng, c, fuel).value.one.Alive() != Battle(one, two, rng, c, fuel).value.two.Alive()
    ensures Winner(Battle(one, two, rng, c, fuel).value).Alive()
    ensures Battle(one, two, rng, c, fuel).value.one == one.(hp := Battle(one, two, rng, c, fuel).value.one.hp)
    ensures Battle(one, two, rng, c, fuel).value.two == two.(hp := Battle(one, two, rng, c, fuel).value.two.hp)
    ensures Battle(one, two, rng, c, fuel).value.one.hp <= one.hp && Battle(one, two, rng, c, fuel).value.two.hp <= two.hp
  {
    assert rng(c) >= FirstMoveThreshold;
    PlainRunEnds(Opening(one, two, rng, c), rng, fuel);
  }

  // ---------------------------------------------------------------- plain rounds

  /** Every fighter of the roster is plain and has at most `h` health. */
  ghost predicate PlainUpTo(s: seq<FighterState>, h: int)
  {
    forall k :: 0 <= k < |s| ==> Plain(s[k]) && s[k].hp <= h
  }

  ghost predicate AllAlive(s: seq<FighterState>)
  {
    forall k :: 0 <= k < |s| ==> s[k].Alive()
  }

  /** Some fighter of every pair from `p` on is alive. */
  ghost predicate SurvivorFrom(r: seq<FighterState>, order: seq<nat>, p: nat)
    requires Pairing(order, |r|)
  {
    forall q :: p <= q < |order| / 2 ==> r[order[2 * q]].Alive() || r[order[2 * q + 1]].Alive()
  }

  /** Plain battles of pairs whose fighters are still all alive each leave exactly one
      survivor, given more passes than twice the health bound. */
  lemma {:induction false} PlainPairs(vals: seq<FighterState>, order: seq<nat>, p: nat, rng: Draws, c: nat, fuel: nat, h: int)
    requires Pairing(order, |vals|) && 2 * p <= |order|
    requires NoLowDraws(rng) && PlainUpTo(vals, h) && 2 * h < fuel
    requires forall m :: 2 * p <= m < |order| ==> vals[order[m]].Alive()
    ensures PlayPairs(vals, order, p, rng, c, fuel).Some?
    ensures PlainUpTo(PlayPairs(vals, order, p, rng, c, fuel).value.roster, h)
    ensures SurvivorFrom(PlayPairs(vals, order, p, rng, c, fuel).value.roster, order, p)
    decreases |order| - 2 * p, 1
  {
    if 2 * p < |order| {
      PlainPairStep(vals, order, p, rng, c, fuel, h);
      var next: seq<FighterState>, c': nat :| PairStep(vals, next, order, p, rng, c, c', fuel, h);
      PlainPairsAfter(vals, next, order, p, rng, c', fuel, h);
    }
  }

  /** The pairs after pair `p`, once it has been played, each leave one survivor too. */
  lemma {:induction false} PlainPairsAfter(vals: seq<FighterState>, next: seq<FighterState>, order: seq<nat>, p: nat,
                                           rng: Draws, c': nat, fuel: nat, h: int)
    requires Pairing(order, |vals|) && 2 * p < |order| && PairPlayed(vals, next, order, p, h)
    requires NoLowDraws(rng) && 2 * h < fuel
    requires forall m :: 2 * p <= m < |order| ==> vals[order[m]].Alive()
    ensures Pairing(order, |next|) && PlayPairs(next, order, p + 1, rng, c', fuel).Some?
    ensures PlainUpTo(PlayPairs(next, order, p + 1, rng, c', fuel).value.roster, h)
    ensures SurvivorFrom(PlayPairs(next, order, p + 1, rng, c', fuel).value.roster, order, p)
    decreases |order| - 2 * p, 0
  {
    PendingStayAlive(vals, next, order, p, h);
    PlainPairs(next, order, p + 1, rng, c', fuel, h);
    PlayPairsLaws(next, order, p + 1, rng, c', fuel);
    SurvivorExtends(vals, next, PlayPairs(next, order, p + 1, rng, c', fuel).value.roster, order, p, h);
  }

  /** The fighters of the later pairs are untouched by the battle of pair `p`. */
  lemma PendingStayAlive(vals: seq<FighterState>, next: seq<FighterState>, order: seq<nat>, p: nat, h: int)
    requires Pairing(order, |vals|) && 2 * p < |order| && PairPlayed(vals, next, order, p, h)
    requires forall m :: 2 * p <= m < |order| ==> vals[order[m]].Alive()
    ensures forall m :: 2 * (p + 1) <= m < |order| ==> next[order[m]].Alive()
  {
    forall m | 2 * (p + 1) <= m < |order|
      ensures next[order[m]].Alive()
    {
      assert order[m] != order[2 * p] && order[m] != order[2 * p + 1];
    }
  }

  /** The later battles keep the survivor that pair `p` left, so every pair from `p` on
      has one. */
  lemma SurvivorExtends(vals: seq<FighterState>, next: seq<FighterState>, r: seq<FighterState>,
                        order: seq<nat>, p: nat, h: int)
    requires Pairing(order, |vals|) && 2 * p < |order| && PairPlayed(vals, next, order, p, h)
    requires KeptOutside(next, r, order, p + 1) && SurvivorFrom(r, order, p + 1)
    ensures SurvivorFrom(r, order, p)
  {
    assert OutsidePairsFrom(order[2 * p], order, p + 1) && OutsidePairsFrom(order[2 * p + 1], order, p + 1);
  }

  /** `next` is `vals` after the plain battle of pair `p`: exactly one of the pair alive,
      every fighter still plain within the bound, and the other positions untouched. */
  ghost predicate PairPlayed(vals: seq<FighterState>, next: seq<FighterState>, order: seq<nat>, p: nat, h: int)
    requires Pairing(order, |vals|) && 2 * p < |order|
  {
    && |next| == |vals| && PlainUpTo(next, h)
    && next[order[2 * p]].Alive() != next[order[2 * p + 1]].Alive()
    && forall k :: 0 <= k < |vals| && k != order[2 * p] && k != order[2 * p + 1] ==> next[k] == vals[k]
  }

  lemma PlainPairStep(vals: seq<FighterState>, order: seq<nat>, p: nat, rng: Draws, c: nat, fuel: nat, h: int)
    requires Pairing(order, |vals|) && 2 * p < |order|
    requires NoLowDraws(rng) && PlainUpTo(vals, h) && 2 * h < fuel
    requires vals[order[2 * p]].Alive() && vals[order[2 * p + 1]].Alive()
    ensures exists next: seq<FighterState>, c': nat :: PairStep(vals, next, order, p, rng, c, c', fuel, h)
  {
    var i, j := order[2 * p], order[2 * p + 1];
    PlainBattle(vals[i], vals[j], rng, c, fuel);
    var d := Battle(vals[i], vals[j], rng, c, fuel).value;
    var next := vals[i := d.one][j := d.two];
    assert PairPlayed(vals, next, order, p, h);
    assert PlayPairs(vals, order, p, rng, c, fuel) == PlayPairs(next, order, p + 1, rng, d.cursor, fuel);
    assert PairStep(vals, next, order, p, rng, c, d.cursor, fuel, h);
  }

  /** The first pair's battle takes `vals` to `next` and the draws from `c` to `c'`. */
  ghost predicate PairStep(vals: seq<FighterState>, next: seq<FighterState>, order: seq<nat>, p: nat,
                           rng: Draws, c: nat, c': nat, fuel: nat, h: int)
    requires Pairing(order, |vals|) && 2 * p < |order|
  {
    && PairPlayed(vals, next, order, p, h)
    && PlayPairs(vals, order, p, rng, c, fuel) == PlayPairs(next, order, p + 1, rng, c', fuel)
  }

  /** The alive fighters of a plain roster, reset, form a plain roster. */
  lemma PlainSurvivors(r: seq<FighterState>, h: int)
    requires PlainUpTo(r, h)
    ensures PlainUpTo(ResetAll(AliveFighters(r)), h) && AllAlive(ResetAll(AliveFighters(r)))
  {
    var a := AliveFighters(r);
    forall k | 0 <= k < |a|
      ensures Plain(a[k]) && a[k].hp <= h
    {
      assert a[k] in r;
    }
  }

  /** A round of plain fighters, all alive, halves the roster exactly, since every battle
      leaves one survivor; the survivors are plain and alive again. */
  lemma PlainRound(t: Tourney, rng: Draws, fuel: nat, h: int)
    requires UnitDraws(rng) && NoLowDraws(rng) && |t.roster| % 2 == 0
    requires PlainUpTo(t.roster, h) && AllAlive(t.roster) && 2 * h < fuel
    ensures PlayRound(t, rng, fuel).Some?
    ensures |PlayRound(t, rng, fuel).value.roster| == |t.roster| / 2
    ensures PlainUpTo(PlayRound(t, rng, fuel).value.roster, h) && AllAlive(PlayRound(t, rng, fuel).value.roster)
  {
    var n := |t.roster|;
    RoundBattlesPairs(t.roster, rng, t.cursor, fuel);
    var order := Shuffle(Range(n), rng, t.cursor);
    var c := t.cursor + ShuffleDraws(n);
    PlainPairs(t.roster, order, 0, rng, c, fuel, h);
    PlayPairsLaws(t.roster, order, 0, rng, c, fuel);
    var played := PlayPairs(t.roster, order, 0, rng, c, fuel).value;
    var r := played.roster;
    assert EveryPairHasSurvivor(r, order);
    RoundBound(r, order, rng, t.cursor);
    PlainSurvivors(r, h);
    assert RoundBattles(t.roster, rng, t.cursor, fuel) == Some(played);
    assert PlayRound(t, rng, fuel) == Some(Tourney(ResetAll(AliveFighters(r)), played.cursor, t.round + 1));
  }

  /** A roster of two or more that can be paired and finishes its round goes on to the next. */
  lemma RoundsOnce(t: Tourney, rng: Draws, fuel: nat)
    requires UnitDraws(rng) && |t.roster| > 1 && |t.roster| % 2 == 0 && PlayRound(t, rng, fuel).Some?
    ensures Rounds(t, rng, fuel) == Rounds(PlayRound(t, rng, fuel).value, rng, fuel)
  {
  }

  /** `next` is what a round of the plain roster of `t` leaves: half of it, plain and
      alive, one round later, and the rest of the tournament is played from there. */
  ghost predicate PlainNext(t: Tourney, next: Tourney, rng: Draws, fuel: nat, h: int)
    requires UnitDraws(rng)
  {
    && |t.roster| == 2 * |next.roster| && next.round == t.round + 1
    && PlainUpTo(next.roster, h) && AllAlive(next.roster)
    && Rounds(t, rng, fuel) == Rounds(next, rng, fuel)
  }

  lemma PlainStep(t: Tourney, rng: Draws, fuel: nat, h: int)
    requires UnitDraws(rng) && NoLowDraws(rng) && |t.roster| > 1 && |t.roster| % 2 == 0
    requires PlainUpTo(t.roster, h) && AllAlive(t.roster) && 2 * h < fuel
    ensures exists next :: PlainNext(t, next, rng, fuel, h)
  {
    PlainRound(t, rng, fuel, h);
    RoundsOnce(t, rng, fuel);
    assert PlainNext(t, PlayRound(t, rng, fuel).value, rng, fuel, h);
  }

  function Pow2(k: nat): (n: nat)
    ensures n >= 1
  {
    if k == 0 then 1 else 2 * Pow2(k - 1)
  }

  /** The outcome of a tournament: a single live champion, found in the given round. */
  ghost predicate CrownedIn(r: Option<Result<Tourney, EngineError>>, round: nat)
  {
    && r.Some? && r.value.Success?
    && r.value.value.round == round
    && |r.value.value.roster| == 1 && r.value.value.roster[0].Alive()
  }

  /** A roster of 2^k plain live fighters produces a champion after exactly k rounds. */
  lemma {:induction false} PowerOfTwoChampion(t: Tourney, rng: Draws, fuel: nat, h: int, k: nat)
    requires UnitDraws(rng) && NoLowDraws(rng) && |t.roster| == Pow2(k)
    requires PlainUpTo(t.roster, h) && AllAlive(t.roster) && 2 * h < fuel
    ensures CrownedIn(Rounds(t, rng, fuel), t.round + k)
    decreases k
  {
    if k == 0 {
      assert Rounds(t, rng, fuel) == Some(Success(t));
      assert t.roster[0].Alive();
    } else {
      assert |t.roster| == 2 * Pow2(k - 1);
      PlainStep(t, rng, fuel, h);
      var next :| PlainNext(t, next, rng, fuel, h);
      PowerOfTwoChampion(next, rng, fuel, h, k - 1);
    }
  }

  lemma Pow2Times(k: nat, m: nat)
    requires k > 0
    ensures Pow2(k) * m == 2 * (Pow2(k - 1) * m)
  {
  }

  lemma OddNow(t: Tourney, rng: Draws, fuel: nat)
    requires UnitDraws(rng) && |t.roster| % 2 == 1 && |t.roster| > 1
    ensures Rounds(t, rng, fuel) == Some(Failure(OddRoster))
  {
  }

  /** A roster of 2^k * m plain live fighters with m odd and above one meets an odd roster
      after k rounds: six fighters are left with three after the first. */
  lemma {:induction false} OddRosterAfter(t: Tourney, rng: Draws, fuel: nat, h: int, k: nat, m: nat)
    requires UnitDraws(rng) && NoLowDraws(rng) && m % 2 == 1 && m > 1 && |t.roster| == Pow2(k) * m
    requires PlainUpTo(t.roster, h) && AllAlive(t.roster) && 2 * h < fuel
    ensures Rounds(t, rng, fuel) == Some(Failure(OddRoster))
    decreases k
  {
    if k == 0 {
      assert |t.roster| == m;
      OddNow(t, rng, fuel);
    } else {
      Pow2Times(k, m);
      var half := Pow2(k - 1) * m;
      assert |t.roster| == 2 * half && half >= 1;
      PlainStep(t, rng, fuel, h);
      var next :| PlainNext(t, next, rng, fuel, h);
      assert |next.roster| == half;
      OddRosterAfter(next, rng, fuel, h, k - 1, m);
    }
  }

  /** The whole tournament of 2^k plain live fighters crowns a live champion in round k. */
  lemma TournamentOfPowerOfTwo(t: Tourney, rng: Draws, fuel: nat, h: int, k: nat)
    requires UnitDraws(rng) && NoLowDraws(rng) && |t.roster| == Pow2(k)
    requires PlainUpTo(t.roster, h) && AllAlive(t.roster) && 2 * h < fuel
    ensures CrownedIn(Tournament(t, rng, fuel), t.round + k)
  {
    PowerOfTwoChampion(t, rng, fuel, h, k);
  }

  /** Six plain live fighters: the second round finds three and cannot pair them. */
  lemma SixFighters(t: Tourney, rng: Draws, fuel: nat, h: int)
    requires UnitDraws(rng) && NoLowDraws(rng) && |t.roster| == 6
    requires PlainUpTo(t.roster, h) && AllAlive(t.roster) && 2 * h < fuel
    ensures Tournament(t, rng, fuel) == Some(Failure(OddRoster))
  {
    assert Pow2(1) * 3 == 6;
    OddRosterAfter(t, rng, fuel, h, 1, 3);
  }
}
