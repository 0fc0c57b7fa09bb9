/** The value of a fighter (health, strength, status list, ability counters) and the
    rules of every fighter operation as functions on that value. The class
    `Fighters.Fighter` keeps the same data in fields and is proved against these. */
module FighterStates {
  import opened Outcomes
  import opened StatusEffects

  /** Ice arrows every fighter may shoot per battle (the Ranger does not override it). */
  const IceArrowsPerBattle: int := 1
  /** The Ranger's own ice shots per battle, used through its class ability. */
  const RangerMaxIceArrows: int := 2

  const BaseFreezeTurns: int := 3
  const BaseFreezeDamage: int := 2
  const BurnTurns: int := 100
  const BurnDamage: int := 2
  const RangerFreezeTurns: int := 3
  const StunTurns: int := 1

  /** Per-class ability bookkeeping. */
  datatype Variant =
    | Paladin(abilityExecuted: bool)
    | Ranger(fireArrowsUsed: bool, iceArrowsCount: int)
    | Sorcerer
  {
    /** The counters of a fighter that has used nothing yet in this battle. */
    function Reset(): (r: Variant)
      ensures r.Paladin? == Paladin? && r.Ranger? == Ranger? && r.Sorcerer? == Sorcerer?
      ensures r.Paladin? ==> !r.abilityExecuted
      ensures r.Ranger? ==> !r.fireArrowsUsed && r.iceArrowsCount == 0
    {
      match this
      case Paladin(_) => Paladin(false)
      case Ranger(_, _) => Ranger(false, 0)
      case Sorcerer => Sorcerer
    }
  }

  /** The name a class gives its ability at the moment. */
  datatype Ability = RetributionStrike | FireArrows | IceArrows | Charm

  function Max0(x: int): (r: int)
    ensures r >= 0 && r >= x && (r == 0 || r == x)
  {
    if x > 0 then x else 0
  }

  /** An effect that is in force and of kind `k`. */
  predicate Matches(e: Effect, k: Kind)
  {
    e.kind == k && e.isActive
  }

  /** The number of effects in force of kind `k`. */
  function CountActive(s: seq<Effect>, k: Kind): (n: nat)
    ensures n <= |s|
    ensures n == 0 <==> forall i :: 0 <= i < |s| ==> !Matches(s[i], k)
  {
    if s == [] then 0
    else
      assert forall i :: 0 <= i < |s| - 1 ==> s[..|s| - 1][i] == s[i];
      CountActive(s[..|s| - 1], k) + (if Matches(s[|s| - 1], k) then 1 else 0)
  }

  /** The index of the first effect in force of kind `k`, if there is one. */
  function FirstActive(s: seq<Effect>, k: Kind): (r: Option<nat>)
    ensures r.Some? ==> r.value < |s| && Matches(s[r.value], k)
    ensures r.Some? ==> forall j :: 0 <= j < r.value ==> !Matches(s[j], k)
    ensures r.None? ==> forall j :: 0 <= j < |s| ==> !Matches(s[j], k)
  {
    if s == [] then None
    else if Matches(s[0], k) then Some(0)
    else
      match FirstActive(s[1..], k)
      case None => None
      case Some(i) => Some(i + 1)
  }

  /** What one status pass does to a single effect: an active effect other than a stun
      loses a turn and is switched off when no turn is left; the rest are left alone. */
  function TickEffect(e: Effect): (r: Effect)
    ensures r.kind == e.kind && r.damagePerTurn == e.damagePerTurn
    ensures !e.isActive || e.kind == Stun ==> r == e
    ensures e.isActive && e.kind != Stun ==>
      r.remainingTurns == e.remainingTurns - 1 && (r.isActive <==> r.remainingTurns > 0)
  {
    if e.isActive && e.kind != Stun then
      var d := e.DecrementTurns();
      if d.remainingTurns <= 0 then d.Deactivate() else d
    else
      e
  }

  /** The damage a single effect contributes to a status pass. */
  function TickDamage(e: Effect): (r: int)
    ensures !e.isActive || e.kind == Stun ==> r == 0
    ensures e.isActive && e.kind != Stun ==> r == e.CalculateDamage()
  {
    if e.isActive && e.kind != Stun then e.CalculateDamage() else 0
  }

  /** The list after every effect has been ticked in place. */
  function Ticked(s: seq<Effect>): (r: seq<Effect>)
    ensures |r| == |s|
    ensures forall i :: 0 <= i < |s| ==> r[i] == TickEffect(s[i])
  {
    if s == [] then [] else Ticked(s[..|s| - 1]) + [TickEffect(s[|s| - 1])]
  }

  /** The damage a status pass accumulates over the list. `FighterLaws.DamageSumNonNegative`
      proves it non-negative when no effect carries a negative damage per turn. */
  function DamageSum(s: seq<Effect>): int
  {
    if s == [] then 0 else DamageSum(s[..|s| - 1]) + TickDamage(s[|s| - 1])
  }

  /** The effects in force, in their order (the pruning filter of a status pass). */
  function ActiveOnly(s: seq<Effect>): (r: seq<Effect>)
    ensures |r| <= |s|
    ensures forall i :: 0 <= i < |r| ==> r[i].isActive && r[i] in s
    ensures forall i :: 0 <= i < |s| && s[i].isActive ==> s[i] in r
  {
    if s == [] then []
    else
      var init := ActiveOnly(s[..|s| - 1]);
      assert forall i :: 0 <= i < |s| - 1 ==> s[..|s| - 1][i] == s[i];
      init + (if s[|s| - 1].isActive then [s[|s| - 1]] else [])
  }

  datatype FighterState = FighterState(
    hp: int,
    maxHp: int,
    strength: int,
    statuses: seq<Effect>,
    iceArrowsUsed: int,
    variant: Variant)
  {
    predicate Alive()
    {
      hp > 0
    }

    /** The invariant every operation but a negative heal keeps. */
    predicate Valid()
    {
      && 0 <= hp <= maxHp
      && 0 <= iceArrowsUsed <= IceArrowsPerBattle
      && CountActive(statuses, Freeze) <= 1
      && (variant.Ranger? ==> 0 <= variant.iceArrowsCount <= RangerMaxIceArrows)
    }

    /** Damage is clamped at zero from below, and health is floored at zero. */
    function SufferDamage(amount: int): (r: FighterState)
      ensures r == this.(hp := r.hp)
      ensures r.hp >= 0
      ensures r.hp == 0 || r.hp == hp - Max0(amount)
      ensures r.hp == 0 ==> hp <= Max0(amount)
      ensures amount <= 0 && hp >= 0 ==> r == this
    {
      this.(hp := Max0(hp - Max0(amount)))
    }

    /** Health rises by `amount` but never above the maximum; a negative amount is not refused. */
    function RestoreHealth(amount: int): (r: FighterState)
      ensures r == this.(hp := r.hp)
      ensures r.hp <= maxHp
      ensures r.hp == maxHp || r.hp == hp + amount
      ensures r.hp == maxHp ==> hp + amount >= maxHp
    {
      this.(hp := if hp + amount < maxHp then hp + amount else maxHp)
    }

    predicate CanUseIceArrows()
    {
      iceArrowsUsed < IceArrowsPerBattle
    }

    /** A new effect is appended, except that a freeze is merged into the freeze already in
        force (if any), and a Sorcerer ignores freezes altogether. */
    function ApplyStatus(e: Effect): (r: FighterState)
      ensures r == this.(statuses := r.statuses)
      ensures variant.Sorcerer? && e.kind == Freeze ==> r == this
      ensures e.kind != Freeze ==> r.statuses == statuses + [e]
      ensures !variant.Sorcerer? && e.kind == Freeze ==>
        match FirstActive(statuses, Freeze)
        case None => r.statuses == statuses + [e]
        case Some(i) => r.statuses == statuses[i := statuses[i].Merge(e)]
    {
      if variant.Sorcerer? && e.kind == Freeze then this
      else if e.kind == Freeze && FirstActive(statuses, Freeze).Some? then
        var i := FirstActive(statuses, Freeze).value;
        this.(statuses := statuses[i := statuses[i].Merge(e)])
      else
        this.(statuses := statuses + [e])
    }

    predicate HasStatus(k: Kind)
    {
      exists i :: 0 <= i < |statuses| && Matches(statuses[i], k)
    }

    /** The first effect in force of kind `k` is removed; the others keep their order. */
    function RemoveStatus(k: Kind): (r: FighterState)
      ensures r == this.(statuses := r.statuses)
      ensures !HasStatus(k) ==> r == this
      ensures HasStatus(k) ==>
        var i := FirstActive(statuses, k).value;
        r.statuses == statuses[..i] + statuses[i + 1..]
    {
      match FirstActive(statuses, k)
      case None => this
      case Some(i) => this.(statuses := statuses[..i] + statuses[i + 1..])
    }

    function ClearAllStatuses(): (r: FighterState)
      ensures r == this.(statuses := [])
    {
      this.(statuses := [])
    }

    /** The damage a status pass on this fighter reports. */
    function StatusDamage(): int
    {
      DamageSum(statuses)
    }

    /** A status pass: every effect is ticked, the inactive ones are dropped, and the
        accumulated damage is subtracted once (floored at zero) when it is positive. */
    function ProcessStatusEffects(): (r: FighterState)
      ensures r == this.(hp := r.hp, statuses := r.statuses)
      ensures r.statuses == ActiveOnly(Ticked(statuses))
      ensures StatusDamage() <= 0 ==> r.hp == hp
      ensures StatusDamage() > 0 ==> r.hp == Max0(hp - StatusDamage())
    {
      var total := StatusDamage();
      this.(statuses := ActiveOnly(Ticked(statuses)),
            hp := if total > 0 then Max0(hp - total) else hp)
    }

    /** Per-battle state is cleared; health is not restored. */
    function ResetForNewBattle(): (r: FighterState)
      ensures r.hp == hp && r.maxHp == maxHp && r.strength == strength
      ensures r.statuses == [] && r.iceArrowsUsed == 0 && r.variant == variant.Reset()
    {
      this.(statuses := [], iceArrowsUsed := 0, variant := variant.Reset())
    }

    predicate CanExecuteAbility()
    {
      match variant
      case Paladin(used) => !used
      case Ranger(fireUsed, ice) => !fireUsed || ice < RangerMaxIceArrows
      case Sorcerer => true
    }

    function AbilityName(): Ability
    {
      match variant
      case Paladin(_) => RetributionStrike
      case Ranger(fireUsed, ice) =>
        if !fireUsed then FireArrows
        else if ice < RangerMaxIceArrows then IceArrows
        else FireArrows
      case Sorcerer => Charm
    }
  }

  /** The outcome of one fighter acting on another: both new states and the damage reported. */
  datatype Exchange = Exchange(attacker: FighterState, target: FighterState, damage: int)

  /** A plain attack: the target suffers the attacker's strength, which is also what is reported. */
  function PerformAttack(a: FighterState, t: FighterState): (x: Exchange)
  {
    Exchange(a, t.SufferDamage(a.strength), a.strength)
  }

  function FreezeOf(turns: int, damage: int): Effect
  {
    Effect(Freeze, turns, damage, true)
  }

  /** The shared ice-arrow action: usable once per battle, otherwise a plain attack. */
  function UseIceArrows(a: FighterState, t: FighterState): (x: Exchange)
  {
    if !a.CanUseIceArrows() then PerformAttack(a, t)
    else
      Exchange(a.(iceArrowsUsed := a.iceArrowsUsed + 1),
               t.SufferDamage(a.strength).ApplyStatus(FreezeOf(BaseFreezeTurns, BaseFreezeDamage)),
               a.strength)
  }

  /** Paladin: strength plus thirty per cent of it, rounded down (integer strength). */
  function RetributionDamage(strength: int): int
  {
    strength + (3 * strength) / 10
  }

  function ShootFireArrows(a: FighterState, t: FighterState): (x: Exchange)
    requires a.variant.Ranger?
  {
    Exchange(a.(variant := a.variant.(fireArrowsUsed := true)),
             t.ApplyStatus(Effect(Burn, BurnTurns, BurnDamage, true)),
             0)
  }

  function ShootIceArrows(a: FighterState, t: FighterState): (x: Exchange)
    requires a.variant.Ranger?
  {
    Exchange(a.(variant := a.variant.(iceArrowsCount := a.variant.iceArrowsCount + 1)),
             t.SufferDamage(a.strength).ApplyStatus(FreezeOf(RangerFreezeTurns, a.strength / 2)),
             a.strength)
  }

  /** The class ability, falling back to a plain attack once it is used up. */
  function ExecuteAbility(a: FighterState, t: FighterState): (x: Exchange)
  {
    match a.variant
    case Paladin(used) =>
      if used then PerformAttack(a, t)
      else
        var total := RetributionDamage(a.strength);
        Exchange(a.(variant := Paladin(true)), t.SufferDamage(total), total)
    case Ranger(fireUsed, ice) =>
      if !fireUsed then ShootFireArrows(a, t)
      else if ice < RangerMaxIceArrows then ShootIceArrows(a, t)
      else PerformAttack(a, t)
    case Sorcerer =>
      Exchange(a, t.ApplyStatus(Effect(Stun, StunTurns, 0, true)), 0)
  }
}
