/** Properties of the fighter rules: the status list invariants, the status pass, the freeze
    stacking rule, and the per-class abilities. */
module FighterLaws {
  import opened Outcomes
  import opened StatusEffects
  import opened FighterStates

  // ---- counting effects in force ----

  lemma {:induction false} CountActiveAppend(s: seq<Effect>, t: seq<Effect>, k: Kind)
    ensures CountActive(s + t, k) == CountActive(s, k) + CountActive(t, k)
    decreases |t|
  {
    if t == [] {
      assert s + t == s;
    } else {
      var n := |t| - 1;
      assert (s + t)[..|s + t| - 1] == s + t[..n];
      assert (s + t)[|s + t| - 1] == t[n];
      CountActiveAppend(s, t[..n], k);
    }
  }

  /** Replacing one entry by one of the same kind and activity keeps every count. */
  lemma CountActiveUpdate(s: seq<Effect>, i: nat, e: Effect, k: Kind)
    requires i < |s|
    requires e.kind == s[i].kind && e.isActive == s[i].isActive
    ensures CountActive(s[i := e], k) == CountActive(s, k)
  {
    assert s == s[..i] + [s[i]] + s[i + 1..];
    assert s[i := e] == s[..i] + [e] + s[i + 1..];
    CountActiveAppend(s[..i] + [s[i]], s[i + 1..], k);
    CountActiveAppend(s[..i], [s[i]], k);
    CountActiveAppend(s[..i] + [e], s[i + 1..], k);
    CountActiveAppend(s[..i], [e], k);
    assert CountActive([e], k) == CountActive([s[i]], k) by {
      assert [e][..0] == [] && [s[i]][..0] == [];
    }
  }

  /** Dropping the entry at `i` lowers the count of its kind by one when it is in force. */
  lemma CountActiveRemove(s: seq<Effect>, i: nat, k: Kind)
    requires i < |s|
    ensures CountActive(s[..i] + s[i + 1..], k) == CountActive(s, k) - (if Matches(s[i], k) then 1 else 0)
  {
    assert s == s[..i] + [s[i]] + s[i + 1..];
    CountActiveAppend(s[..i] + [s[i]], s[i + 1..], k);
    CountActiveAppend(s[..i], [s[i]], k);
    CountActiveAppend(s[..i], s[i + 1..], k);
    assert [s[i]][..0] == [];
  }

  lemma HasStatusIffCount(f: FighterState, k: Kind)
    ensures f.HasStatus(k) <==> CountActive(f.statuses, k) > 0
  {
  }

  lemma {:induction false} CountActiveTicked(s: seq<Effect>, k: Kind)
    ensures CountActive(Ticked(s), k) <= CountActive(s, k)
    ensures k == Stun ==> CountActive(Ticked(s), k) == CountActive(s, k)
    decreases |s|
  {
    if s != [] {
      var n := |s| - 1;
      assert Ticked(s)[..n] == Ticked(s[..n]);
      CountActiveTicked(s[..n], k);
    }
  }

  /** The pruning filter works entry by entry: a single entry is kept exactly when it is
      in force, and the filter of a concatenation is the concatenation of the filters, so
      entries keep their order and their multiplicity. */
  lemma {:induction false} ActiveOnlyAppend(a: seq<Effect>, b: seq<Effect>)
    ensures ActiveOnly(a + b) == ActiveOnly(a) + ActiveOnly(b)
    decreases |b|
  {
    if b == [] {
      assert a + b == a;
    } else {
      var n := |b| - 1;
      var last := if b[n].isActive then [b[n]] else [];
      assert (a + b)[..|a + b| - 1] == a + b[..n];
      assert (a + b)[|a + b| - 1] == b[n];
      assert ActiveOnly(a + b) == ActiveOnly(a + b[..n]) + last;
      assert ActiveOnly(b) == ActiveOnly(b[..n]) + last;
      ActiveOnlyAppend(a, b[..n]);
    }
  }

  lemma ActiveOnlySingle(e: Effect)
    ensures ActiveOnly([e]) == if e.isActive then [e] else []
  {
    assert [e][..0] == [];
  }

  lemma {:induction false} CountActiveFiltered(s: seq<Effect>, k: Kind)
    ensures CountActive(ActiveOnly(s), k) == CountActive(s, k)
    decreases |s|
  {
    if s != [] {
      var n := |s| - 1;
      var init := ActiveOnly(s[..n]);
      var tail := if s[n].isActive then [s[n]] else [];
      assert ActiveOnly(s) == init + tail;
      CountActiveFiltered(s[..n], k);
      CountActiveAppend(init, tail, k);
      assert CountActive(tail, k) == (if Matches(s[n], k) then 1 else 0) by {
        if s[n].isActive {
          assert tail[..0] == [];
        }
      }
    }
  }

  // ---- the status pass ----

  /** The accumulated damage is non-negative when every effect's damage per turn is. */
  lemma {:induction false} DamageSumNonNegative(s: seq<Effect>)
    requires forall i :: 0 <= i < |s| ==> s[i].damagePerTurn >= 0
    ensures DamageSum(s) >= 0
    decreases |s|
  {
    if s != [] {
      DamageSumNonNegative(s[..|s| - 1]);
    }
  }

  /** After a status pass no inactive entry is left, every surviving effect other than a
      stun still has turns left, stuns are untouched and no count grows. */
  lemma ProcessStatusEffectsLaws(f: FighterState)
    ensures var r := f.ProcessStatusEffects();
      && (forall i :: 0 <= i < |r.statuses| ==>
            r.statuses[i].isActive && (r.statuses[i].kind != Stun ==> r.statuses[i].remainingTurns > 0))
      && CountActive(r.statuses, Stun) == CountActive(f.statuses, Stun)
      && (r.HasStatus(Stun) <==> f.HasStatus(Stun))
      && (forall k :: CountActive(r.statuses, k) <= CountActive(f.statuses, k))
      && (f.hp >= 0 ==> 0 <= r.hp <= f.hp)
      && |r.statuses| <= |f.statuses|
  {
    var r := f.ProcessStatusEffects();
    var t := Ticked(f.statuses);
    forall i | 0 <= i < |r.statuses|
      ensures r.statuses[i].isActive && (r.statuses[i].kind != Stun ==> r.statuses[i].remainingTurns > 0)
    {
      var e := r.statuses[i];
      assert e in t;
      var j :| 0 <= j < |t| && t[j] == e;
      assert e == TickEffect(f.statuses[j]);
    }
    forall k | true
      ensures CountActive(r.statuses, k) <= CountActive(f.statuses, k)
    {
      CountActiveFiltered(t, k);
      CountActiveTicked(f.statuses, k);
    }
    CountActiveFiltered(t, Stun);
    CountActiveTicked(f.statuses, Stun);
    HasStatusIffCount(f, Stun);
    HasStatusIffCount(r, Stun);
  }

  /** An effect with at most one turn left is gone after one status pass: when every effect
      in force of a kind other than stun has at most one turn left, none of it survives. */
  lemma OneTurnEffectsExpire(f: FighterState, k: Kind)
    requires k != Stun
    requires forall i :: 0 <= i < |f.statuses| && Matches(f.statuses[i], k) ==> f.statuses[i].remainingTurns <= 1
    ensures !f.ProcessStatusEffects().HasStatus(k)
  {
    var r := f.ProcessStatusEffects();
    var t := Ticked(f.statuses);
    forall i | 0 <= i < |r.statuses|
      ensures !Matches(r.statuses[i], k)
    {
      var e := r.statuses[i];
      assert e in t;
      var j :| 0 <= j < |t| && t[j] == e;
      assert e == TickEffect(f.statuses[j]);
    }
  }

  // ---- applying and removing effects ----

  lemma ApplyStatusKeepsValid(f: FighterState, e: Effect)
    requires f.Valid()
    ensures f.ApplyStatus(e).Valid()
  {
    var s := f.statuses;
    if f.variant.Sorcerer? && e.kind == Freeze {
    } else if e.kind == Freeze && FirstActive(s, Freeze).Some? {
      var i := FirstActive(s, Freeze).value;
      CountActiveUpdate(s, i, s[i].Merge(e), Freeze);
    } else {
      CountActiveAppend(s, [e], Freeze);
      assert [e][..0] == [];
    }
  }

  lemma FirstActiveAppend(s: seq<Effect>, e: Effect, k: Kind)
    requires forall j :: 0 <= j < |s| ==> !Matches(s[j], k)
    requires Matches(e, k)
    ensures FirstActive(s + [e], k) == Some(|s|)
  {
    assert Matches((s + [e])[|s|], k);
    assert forall j :: 0 <= j < |s| ==> (s + [e])[j] == s[j];
  }

  /** Two freezes on a fighter without one in force leave exactly one freeze in force, whose
      damage per turn is the sum and whose duration is the larger of the two. */
  lemma FreezeStacks(f: FighterState, first: Effect, second: Effect)
    requires !f.variant.Sorcerer?
    requires CountActive(f.statuses, Freeze) == 0
    requires first.kind == Freeze && first.isActive && second.kind == Freeze
    ensures var r := f.ApplyStatus(first).ApplyStatus(second);
      && r.statuses == f.statuses + [first.Merge(second)]
      && CountActive(r.statuses, Freeze) == 1
      && r.statuses[|f.statuses|].damagePerTurn == first.damagePerTurn + second.damagePerTurn
      && r.statuses[|f.statuses|].remainingTurns ==
           (if first.remainingTurns > second.remainingTurns then first.remainingTurns else second.remainingTurns)
  {
    var s := f.statuses;
    assert FirstActive(s, Freeze).None?;
    var s1 := s + [first];
    FirstActiveAppend(s, first, Freeze);
    var s2 := s1[|s| := first.Merge(second)];
    assert s2 == s + [first.Merge(second)];
    CountActiveAppend(s, [first.Merge(second)], Freeze);
    assert [first.Merge(second)][..0] == [];
  }

  /** Two freezes of three turns and two damage on a fresh Paladin: the next status pass
      deals four. */
  lemma FreezeStackDamage()
    ensures var f := FighterState(100, 100, 10, [], 0, Paladin(false));
      var r := f.ApplyStatus(FreezeOf(3, 2)).ApplyStatus(FreezeOf(3, 2));
      r.StatusDamage() == 4 && r.ProcessStatusEffects().hp == 96
  {
    var f := FighterState(100, 100, 10, [], 0, Paladin(false));
    FreezeStacks(f, FreezeOf(3, 2), FreezeOf(3, 2));
    var r := f.ApplyStatus(FreezeOf(3, 2)).ApplyStatus(FreezeOf(3, 2));
    assert r.statuses == [FreezeOf(3, 4)];
    assert DamageSum(r.statuses) == DamageSum([]) + TickDamage(FreezeOf(3, 4));
  }

  lemma RemoveStatusLaws(f: FighterState, k: Kind)
    ensures var r := f.RemoveStatus(k);
      && (f.HasStatus(k) ==> CountActive(r.statuses, k) == CountActive(f.statuses, k) - 1
                              && |r.statuses| == |f.statuses| - 1)
      && (forall k' :: k' != k ==> CountActive(r.statuses, k') == CountActive(f.statuses, k'))
      && (f.Valid() ==> r.Valid())
  {
    match FirstActive(f.statuses, k)
    case None =>
    case Some(i) =>
      forall k' | true
        ensures CountActive(f.RemoveStatus(k).statuses, k') ==
                CountActive(f.statuses, k') - (if Matches(f.statuses[i], k') then 1 else 0)
      {
        CountActiveRemove(f.statuses, i, k');
      }
  }

  lemma ProcessStatusEffectsKeepsValid(f: FighterState)
    requires f.Valid()
    ensures f.ProcessStatusEffects().Valid()
  {
    ProcessStatusEffectsLaws(f);
  }

  /** Reset empties the status list and restores every ability, without touching health. */
  lemma ResetLaws(f: FighterState)
    requires 0 <= f.hp <= f.maxHp
    ensures var r := f.ResetForNewBattle();
      && r.Valid() && r.CanUseIceArrows() && r.CanExecuteAbility()
      && r.hp == f.hp && r.maxHp == f.maxHp && r.strength == f.strength
      && forall k :: !r.HasStatus(k)
  {
  }

  lemma SufferDamageKeepsValid(f: FighterState, amount: int)
    requires f.Valid()
    ensures f.SufferDamage(amount).Valid()
    ensures f.SufferDamage(amount).hp <= f.hp
  {
  }

  /** Healing by a non-negative amount keeps health in range. */
  lemma RestoreHealthKeepsValid(f: FighterState, amount: int)
    requires f.Valid() && amount >= 0
    ensures f.RestoreHealth(amount).Valid()
    ensures f.RestoreHealth(amount).hp >= f.hp
  {
  }

  /** The heal has no guard: a negative amount pushes health below zero. */
  lemma RestoreHealthNegative(f: FighterState, amount: int)
    requires f.Valid() && amount < -f.hp
    ensures f.RestoreHealth(amount).hp < 0
    ensures !f.RestoreHealth(amount).Valid()
  {
  }

  // ---- attacks and abilities ----

  /** Every two-fighter action keeps both fighters' invariants. */
  lemma PerformAttackKeepsValid(a: FighterState, t: FighterState)
    requires a.Valid() && t.Valid()
    ensures PerformAttack(a, t).attacker.Valid() && PerformAttack(a, t).target.Valid()
  {
  }

  lemma UseIceArrowsKeepsValid(a: FighterState, t: FighterState)
    requires a.Valid() && t.Valid()
    ensures UseIceArrows(a, t).attacker.Valid() && UseIceArrows(a, t).target.Valid()
  {
    ApplyStatusKeepsValid(t.SufferDamage(a.strength), FreezeOf(BaseFreezeTurns, BaseFreezeDamage));
  }

  lemma ExecuteAbilityKeepsValid(a: FighterState, t: FighterState)
    requires a.Valid() && t.Valid()
    ensures ExecuteAbility(a, t).attacker.Valid() && ExecuteAbility(a, t).target.Valid()
  {
    match a.variant
    case Paladin(_) =>
    case Ranger(fireUsed, ice) =>
      if !fireUsed {
        ApplyStatusKeepsValid(t, Effect(Burn, BurnTurns, BurnDamage, true));
      } else if ice < RangerMaxIceArrows {
        ApplyStatusKeepsValid(t.SufferDamage(a.strength), FreezeOf(RangerFreezeTurns, a.strength / 2));
      }
    case Sorcerer =>
      ApplyStatusKeepsValid(t, Effect(Stun, StunTurns, 0, true));
  }

  /** A plain attack reports the attacker's strength even when the target had less health left. */
  lemma PerformAttackLaws(a: FighterState, t: FighterState)
    requires a.strength >= 0 && t.hp >= 0
    ensures var x := PerformAttack(a, t);
      && x.damage == a.strength && x.attacker == a
      && x.target.hp == (if t.hp > a.strength then t.hp - a.strength else 0)
      && x.target.statuses == t.statuses
  {
  }

  /** The shared ice arrows work once per battle for every class: the first use deals and
      reports strength and freezes the target; later uses are plain attacks. */
  lemma IceArrowsOncePerBattle(a: FighterState, t: FighterState)
    requires a.iceArrowsUsed == 0
    ensures var x1 := UseIceArrows(a, t);
      && x1.damage == a.strength
      && x1.target == t.SufferDamage(a.strength).ApplyStatus(FreezeOf(BaseFreezeTurns, BaseFreezeDamage))
      && x1.attacker == a.(iceArrowsUsed := 1)
      && !x1.attacker.CanUseIceArrows()
      && UseIceArrows(x1.attacker, x1.target) == PerformAttack(x1.attacker, x1.target)
  {
  }

  /** No class ability changes its user's health, status list or ice-arrow counter. */
  lemma ExecuteAbilityOwnState(a: FighterState, t: FighterState)
    ensures var x := ExecuteAbility(a, t);
      && x.attacker == a.(variant := x.attacker.variant)
      && x.target.maxHp == t.maxHp && x.target.strength == t.strength
      && x.target.variant == t.variant && x.target.iceArrowsUsed == t.iceArrowsUsed
  {
  }

  /** The integer bonus equals the thirty-per-cent bonus rounded down. */
  lemma RetributionBonusIsFloor(strength: int)
    ensures (3 * strength) / 10 == ((strength as real) * 0.3).Floor
  {
    var q := (3 * strength) / 10;
    var x := (strength as real) * 0.3;
    assert 3 * strength == 10 * q + (3 * strength) % 10;
    assert x == (3 * strength) as real / 10.0;
    assert (q as real) <= x < (q as real) + 1.0;
  }

  /** Paladin: the first use deals and reports strength plus thirty per cent; afterwards the
      ability is spent and falls back to a plain attack. */
  lemma PaladinRetribution(a: FighterState, t: FighterState)
    requires a.variant == Paladin(false)
    ensures var x := ExecuteAbility(a, t);
      && x.damage == a.strength + (3 * a.strength) / 10
      && x.target == t.SufferDamage(x.damage)
      && x.attacker == a.(variant := Paladin(true))
      && !x.attacker.CanExecuteAbility()
      && ExecuteAbility(x.attacker, x.target) == PerformAttack(x.attacker, x.target)
      && x.attacker.ResetForNewBattle().CanExecuteAbility()
  {
  }

  lemma PaladinExample()
    ensures var x := ExecuteAbility(FighterState(100, 100, 10, [], 0, Paladin(false)),
                                    FighterState(100, 100, 5, [], 0, Paladin(false)));
      x.damage == 13 && x.target.hp == 87
  {
  }

  /** Ranger: one fire shot, then two ice shots, then plain attacks. */
  lemma RangerSequence(a: FighterState, t: FighterState)
    requires a.variant == Ranger(false, 0)
    ensures var x1 := ExecuteAbility(a, t);
      var x2 := ExecuteAbility(x1.attacker, x1.target);
      var x3 := ExecuteAbility(x2.attacker, x2.target);
      && a.AbilityName() == FireArrows && a.CanExecuteAbility()
      && x1.damage == 0 && x1.target == t.ApplyStatus(Effect(Burn, BurnTurns, BurnDamage, true))
      && x1.target.hp == t.hp
      && x1.attacker.AbilityName() == IceArrows && x1.attacker.CanExecuteAbility()
      && x2.damage == a.strength
      && x2.target == x1.target.SufferDamage(a.strength).ApplyStatus(FreezeOf(RangerFreezeTurns, a.strength / 2))
      && x2.attacker.AbilityName() == IceArrows && x2.attacker.CanExecuteAbility()
      && x3.damage == a.strength
      && x3.target == x2.target.SufferDamage(a.strength).ApplyStatus(FreezeOf(RangerFreezeTurns, a.strength / 2))
      && x3.attacker.variant == Ranger(true, RangerMaxIceArrows)
      && x3.attacker.AbilityName() == FireArrows && !x3.attacker.CanExecuteAbility()
      && ExecuteAbility(x3.attacker, x3.target) == PerformAttack(x3.attacker, x3.target)
      && x3.attacker.ResetForNewBattle().variant == Ranger(false, 0)
  {
  }

  /** Fire arrows deal nothing at once, and the next status pass on a clean target deals 2. */
  lemma FireArrowsThenTick(a: FighterState, t: FighterState)
    requires a.variant == Ranger(false, 0) && t.statuses == []
    ensures var x := ExecuteAbility(a, t);
      && x.damage == 0 && x.target.hp == t.hp
      && x.target.StatusDamage() == BurnDamage
      && x.target.ProcessStatusEffects().hp == Max0(t.hp - BurnDamage)
  {
    var x := ExecuteAbility(a, t);
    var burn := Effect(Burn, BurnTurns, BurnDamage, true);
    assert x.target.statuses == [burn];
    assert [burn][..0] == [];
    assert DamageSum([burn]) == DamageSum([]) + TickDamage(burn);
    assert TickDamage(burn) == BurnDamage;
  }

  /** Two ice shots on a target that is not a Sorcerer and has no freeze in force leave one
      freeze in force with twice the per-shot damage. */
  lemma TwoIceShotsStack(a: FighterState, t: FighterState)
    requires a.variant == Ranger(true, 0)
    requires !t.variant.Sorcerer? && CountActive(t.statuses, Freeze) == 0
    ensures var x1 := ExecuteAbility(a, t);
      var x2 := ExecuteAbility(x1.attacker, x1.target);
      && CountActive(x2.target.statuses, Freeze) == 1
      && x2.target.statuses == t.statuses + [Effect(Freeze, RangerFreezeTurns, 2 * (a.strength / 2), true)]
  {
    var ice := FreezeOf(RangerFreezeTurns, a.strength / 2);
    IceShot(a, t);
    var x1 := ShootIceArrows(a, t);
    IceShot(x1.attacker, x1.target);
    var hit1 := t.SufferDamage(a.strength);
    FreezeStacks(hit1, ice, ice);
    StatusesIgnoreDamage(hit1.ApplyStatus(ice), a.strength, ice);
    assert ice.Merge(ice) == Effect(Freeze, RangerFreezeTurns, 2 * (a.strength / 2), true);
  }

  /** A Ranger past its fire arrows with ice shots left shoots ice. */
  lemma IceShot(a: FighterState, t: FighterState)
    requires a.variant.Ranger? && a.variant.fireArrowsUsed && a.variant.iceArrowsCount < RangerMaxIceArrows
    ensures ExecuteAbility(a, t) == ShootIceArrows(a, t)
  {
  }

  /** Damage leaves the status list alone, so an effect lands the same before or after it. */
  lemma StatusesIgnoreDamage(f: FighterState, amount: int, e: Effect)
    ensures f.SufferDamage(amount).ApplyStatus(e).statuses == f.ApplyStatus(e).statuses
  {
  }

  /** Sorcerer: the charm is always available, deals nothing and appends one stun. */
  lemma SorcererCharm(a: FighterState, t: FighterState)
    requires a.variant.Sorcerer?
    ensures a.CanExecuteAbility()
    ensures var x := ExecuteAbility(a, t);
      && x.damage == 0 && x.attacker == a
      && x.target == t.(statuses := t.statuses + [Effect(Stun, StunTurns, 0, true)])
  {
  }

  /** A Sorcerer ignores every freeze and takes every other effect by the shared rule. */
  lemma SorcererImmuneToFreeze(f: FighterState, e: Effect)
    requires f.variant.Sorcerer?
    ensures e.kind == Freeze ==> f.ApplyStatus(e) == f
    ensures e.kind != Freeze ==> f.ApplyStatus(e).statuses == f.statuses + [e]
  {
  }

  /** The target after `n` charms by the same Sorcerer. */
  function Charmed(a: FighterState, t: FighterState, n: nat): (r: FighterState)
    requires a.variant.Sorcerer?
  {
    if n == 0 then t else Charm(a, Charmed(a, t, n - 1))
  }

  /** The target of one charm: it gains one stun and nothing else. */
  function Charm(a: FighterState, t: FighterState): (r: FighterState)
    requires a.variant.Sorcerer?
    ensures r == t.(statuses := t.statuses + [Effect(Stun, StunTurns, 0, true)])
  {
    ExecuteAbility(a, t).target
  }

  /** `n` stuns in force of one turn each, as a charm casts them. */
  function Stuns(n: nat): (r: seq<Effect>)
    ensures |r| == n && forall i :: 0 <= i < n ==> r[i] == Effect(Stun, StunTurns, 0, true)
  {
    seq(n, _ => Effect(Stun, StunTurns, 0, true))
  }

  /** `n` charms append `n` stuns to the target and change nothing else. */
  lemma {:induction false} CharmedAppends(a: FighterState, t: FighterState, n: nat)
    requires a.variant.Sorcerer?
    ensures Charmed(a, t, n) == t.(statuses := t.statuses + Stuns(n))
  {
    if n == 0 {
      assert t.statuses + Stuns(0) == t.statuses;
    } else {
      CharmedAppends(a, t, n - 1);
      assert t.statuses + Stuns(n - 1) + [Effect(Stun, StunTurns, 0, true)] == t.statuses + Stuns(n);
    }
  }

  /** Appending `n` stuns in force adds `n` to the count of stuns in force. */
  lemma {:induction false} CountStuns(s: seq<Effect>, n: nat)
    ensures CountActive(s + Stuns(n), Stun) == CountActive(s, Stun) + n
  {
    if n == 0 {
      assert s + Stuns(0) == s;
    } else {
      CountStuns(s, n - 1);
      var stun := Effect(Stun, StunTurns, 0, true);
      assert s + Stuns(n) == (s + Stuns(n - 1)) + [stun];
      CountActiveAppend(s + Stuns(n - 1), [stun], Stun);
      assert [stun][..0] == [];
    }
  }

  /** Stuns are never merged: `n` charms leave `n` more stun entries in force. */
  lemma StunsAccumulate(a: FighterState, t: FighterState, n: nat)
    requires a.variant.Sorcerer?
    ensures |Charmed(a, t, n).statuses| == |t.statuses| + n
    ensures CountActive(Charmed(a, t, n).statuses, Stun) == CountActive(t.statuses, Stun) + n
    ensures Charmed(a, t, n).hp == t.hp
  {
    CharmedAppends(a, t, n);
    CountStuns(t.statuses, n);
  }
}
