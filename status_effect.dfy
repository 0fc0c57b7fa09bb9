/** Timed status effects (burn, freeze, stun) that a fighter carries.

    `Effect` is the value of one effect and its member functions define the
    mutators; the class `StatusEffect` holds the same data in fields that its
    methods update in place, each method proved against the matching function. */
module StatusEffects {

  /** The kinds of effect. The retaliation kind is declared by the source but never used. */
  datatype Kind = Burn | Freeze | Stun

  datatype Effect = Effect(kind: Kind, remainingTurns: int, damagePerTurn: int, isActive: bool)
  {
    /** Stacking: raise the damage per turn by `amount`. */
    function IncrementDamage(amount: int): (r: Effect)
      ensures r.damagePerTurn == damagePerTurn + amount
      ensures r.kind == kind && r.remainingTurns == remainingTurns && r.isActive == isActive
    {
      this.(damagePerTurn := damagePerTurn + amount)
    }

    /** Stacking: the duration becomes the larger of the current one and `turns`. */
    function SetMaximumDuration(turns: int): (r: Effect)
      ensures r.remainingTurns >= remainingTurns && r.remainingTurns >= turns
      ensures r.remainingTurns == remainingTurns || r.remainingTurns == turns
      ensures r.kind == kind && r.damagePerTurn == damagePerTurn && r.isActive == isActive
    {
      if turns > remainingTurns then this.(remainingTurns := turns) else this
    }

    /** One turn passes; the count may go below zero. */
    function DecrementTurns(): (r: Effect)
      ensures r.remainingTurns == remainingTurns - 1
      ensures r.kind == kind && r.damagePerTurn == damagePerTurn && r.isActive == isActive
    {
      this.(remainingTurns := remainingTurns - 1)
    }

    function Deactivate(): (r: Effect)
      ensures !r.isActive
      ensures r.kind == kind && r.remainingTurns == remainingTurns && r.damagePerTurn == damagePerTurn
    {
      this.(isActive := false)
    }

    /** The damage this effect deals in the current turn. */
    function CalculateDamage(): (r: int)
      ensures isActive && remainingTurns > 0 ==> r == damagePerTurn
      ensures !isActive || remainingTurns <= 0 ==> r == 0
    {
      if !isActive || remainingTurns <= 0 then 0 else damagePerTurn
    }

    /** A freeze landing on an existing freeze: damages add up, the longer duration wins. */
    function Merge(incoming: Effect): (r: Effect)
      ensures r.damagePerTurn == damagePerTurn + incoming.damagePerTurn
      ensures r.remainingTurns == if incoming.remainingTurns > remainingTurns then incoming.remainingTurns else remainingTurns
      ensures r.kind == kind && r.isActive == isActive
    {
      IncrementDamage(incoming.damagePerTurn).SetMaximumDuration(incoming.remainingTurns)
    }
  }

  lemma DeactivateIdempotent(e: Effect)
    ensures e.Deactivate().Deactivate() == e.Deactivate()
    ensures e.Deactivate().CalculateDamage() == 0
  {
  }

  lemma SetMaximumDurationIdempotent(e: Effect, turns: int)
    ensures e.SetMaximumDuration(turns).SetMaximumDuration(turns) == e.SetMaximumDuration(turns)
    ensures turns <= e.remainingTurns ==> e.SetMaximumDuration(turns) == e
  {
  }

  /** The same effect, held in fields that its methods update in place. */
  class StatusEffect {
    const statusType: Kind
    var remainingTurns: int
    var damagePerTurn: int
    var isActive: bool

    function Value(): Effect
      reads this
    {
      Effect(statusType, remainingTurns, damagePerTurn, isActive)
    }

    constructor (statusType: Kind, remainingTurns: int, damagePerTurn: int := 0, isActive: bool := true)
      ensures Value() == Effect(statusType, remainingTurns, damagePerTurn, isActive)
    {
      this.statusType := statusType;
      this.remainingTurns := remainingTurns;
      this.damagePerTurn := damagePerTurn;
      this.isActive := isActive;
    }

    method IncrementDamage(amount: int)
      modifies this
      ensures Value() == old(Value()).IncrementDamage(amount)
    {
      damagePerTurn := damagePerTurn + amount;
    }

    method SetMaximumDuration(turns: int)
      modifies this
      ensures Value() == old(Value()).SetMaximumDuration(turns)
    {
      if turns > remainingTurns {
        remainingTurns := turns;
      }
    }

    method DecrementTurns()
      modifies this
      ensures Value() == old(Value()).DecrementTurns()
    {
      remainingTurns := remainingTurns - 1;
    }

    method Deactivate()
      modifies this
      ensures Value() == old(Value()).Deactivate()
    {
      isActive := false;
    }

    /** Reports whether turns remain; when none do, the effect is also switched off. */
    method IsStillActive() returns (b: bool)
      modifies this
      ensures b <==> old(remainingTurns) > 0
      ensures Value() == if b then old(Value()) else old(Value()).Deactivate()
    {
      if remainingTurns > 0 {
        return true;
      }
      isActive := false;
      return false;
    }

    /** A query: it reads the fields and changes nothing. */
    function CalculateDamage(): (r: int)
      reads this
      ensures r == if isActive && remainingTurns > 0 then damagePerTurn else 0
    {
      Value().CalculateDamage()
    }

    method Duplicate() returns (copy: StatusEffect)
      ensures fresh(copy)
      ensures copy.Value() == Value()
    {
      copy := new StatusEffect(statusType, remainingTurns, damagePerTurn, isActive);
    }
  }
}
