/** The combat rules that drive the dice engine: `GameController`, `Enemy`
    and `AttackHolder`. The static `GameController.control` is a `Registry`
    object; UI text objects are string fields; `Invoke` calls are recorded,
    in order, in `GameController.invocations` (delays as plain values, not
    timed); `Random.Range` is driven by a draw the caller supplies. */
module Combat {
  import opened Types
  import opened Decimal
  import opened Labels
  import opened DiceEngine

  /** `Random.Range(0, count)` on integers: an index below `count`, or 0
      when `count` is 0 (Unity returns `min` when `min == max`). */
  function RandomIndex(count: int, draw: nat): (k: int)
    ensures count > 0 ==> 0 <= k < count
    ensures count <= 0 ==> k == 0
  {
    if count > 0 then draw % count else 0
  }

  /** Every index can be drawn. */
  lemma RandomIndexCovers(count: int, k: int)
    requires 0 <= k < count
    ensures RandomIndex(count, k) == k
  {
  }

  /** The to-hit rule: bonus plus roll must beat the armour class; a tie
      misses. The least roll that hits is one above the armour class less
      the bonus. */
  predicate AttackLands(plusToHit: int, roll: int, armorClass: int): (hit: bool)
    ensures hit <==> roll >= armorClass - plusToHit + 1
  {
    plusToHit + roll > armorClass
  }

  /** A roll that only equals the armour class after the bonus misses, and
      one point more hits. */
  lemma AttackLandsThreshold(plusToHit: int, armorClass: int)
    ensures !AttackLands(plusToHit, armorClass - plusToHit, armorClass)
    ensures AttackLands(plusToHit, armorClass - plusToHit + 1, armorClass)
  {
  }

  /** A delayed `Invoke` call. */
  datatype Invocation =
    | SpawnEnemyAfter(delay: real)
    | DisableEnemyUIAfter(delay: real)
    | DoDamageRollAfter(delay: real)

  datatype AttackPrefab = AttackPrefab(name: string, plusToHit: int, attackRoll: DiceRoll)

  datatype EnemyPrefab = EnemyPrefab(hitPoints: int, armorClass: int, taunts: seq<string>, deathDelay: real)

  /** A UI button; only whether it takes clicks matters here. A new button
      takes clicks, as Unity's `Button` does by default. */
  class Button {
    var interactable: bool

    constructor ()
      ensures interactable
    {
      interactable := true;
    }
  }

  /** The static field `GameController.control`. */
  class Registry {
    var control: GameController?

    constructor ()
      ensures control == null
    {
      control := null;
    }
  }

  /** Unity's truth value of an object reference: false for null and for
      an object that has been destroyed. */
  predicate Truthy(gc: GameController?): (r: bool)
    reads gc
    ensures r ==> gc != null
    ensures gc != null && gc.destroyed ==> !r
  {
    gc != null && !gc.destroyed
  }

  /** No button in `bs` changed state. */
  twostate predicate ButtonsKept(bs: set<Button>)
    reads bs
  {
    forall b :: b in bs ==> b.interactable == old(b.interactable)
  }

  /** The enemy `e`, if any, kept its hit points and its deaths. */
  twostate predicate EnemyKept(e: Enemy?)
    reads e
  {
    e != null ==> e.hitPoints == old(e.hitPoints) && e.pendingDeaths == old(e.pendingDeaths)
  }

  /** One attack the player can choose (`AttackHolder`). */
  class AttackHolder {
    const name: string
    const plusToHit: int
    const attackRoll: DiceRoll
    const myButton: Button
    var attackNameText: string
    var plusToHitText: string
    var damageText: string

    predicate Instantiates(p: AttackPrefab) {
      name == p.name && plusToHit == p.plusToHit && attackRoll == p.attackRoll
    }

    constructor (p: AttackPrefab)
      ensures Instantiates(p)
      ensures fresh(myButton) && myButton.interactable
    {
      name, plusToHit, attackRoll := p.name, p.plusToHit, p.attackRoll;
      myButton := new Button();
      attackNameText, plusToHitText, damageText := "", "", "";
    }

    /** `Start`: fill in the three labels. */
    method Start()
      modifies this`attackNameText, this`plusToHitText, this`damageText
      ensures attackNameText == name
      ensures plusToHitText == PlusToHitLabel(plusToHit)
      ensures damageText == DamageLabel(attackRoll)
    {
      attackNameText := name;
      plusToHitText := PlusToHitLabel(plusToHit);
      damageText := DamageLabel(attackRoll);
    }

    /** `AttackPressed`: hand exactly this attack to the controller. */
    method AttackPressed(registry: Registry)
      requires registry.control != null
      requires registry.control.roller.Valid() && registry.control.roller.Stopped()
      modifies registry.control.Buttons(), registry.control`currentAttack, registry.control.roller
      ensures registry.control.currentAttack == this
      ensures registry.control.AttacksEnabled(false)
      ensures registry.control.roller.Valid()
      ensures registry.control.roller.rollToSpawn == DiceRoll(D20, 1)
      ensures registry.control.roller.nextAction == AfterRollAction.CheckIfAttackLanded
      ensures registry.control.roller.phase.Spawning? <==> StartError(registry.control.roller.dice, DiceRoll(D20, 1)).None?
      ensures registry.control.roller.phase.Idle? <==> StartError(registry.control.roller.dice, DiceRoll(D20, 1)).Some?
      ensures registry.control.roller.phase.Spawning? ==>
        registry.control.roller.FirstDieOut() && forall die :: die in registry.control.roller.currentDice ==> fresh(die)
    {
      registry.control.DoAttack(this);
    }
  }

  /** One enemy (`Enemy`). `pendingDeaths` counts the `Invoke("Die", ...)`
      calls made so far. */
  class Enemy {
    const control: GameController
    var hitPoints: int
    const armorClass: int
    const taunts: seq<string>
    const deathDelay: real
    var pendingDeaths: nat

    constructor (p: EnemyPrefab, control: GameController)
      ensures this.control == control
      ensures hitPoints == p.hitPoints && armorClass == p.armorClass
      ensures taunts == p.taunts && deathDelay == p.deathDelay
      ensures pendingDeaths == 0
    {
      this.control := control;
      hitPoints, armorClass := p.hitPoints, p.armorClass;
      taunts, deathDelay := p.taunts, p.deathDelay;
      pendingDeaths := 0;
    }

    /** `UpdateUI`: show a randomly drawn taunt with the enemy's stats. An
        enemy without taunts makes the index out of range. */
    method UpdateUI(draw: nat) returns (ok: bool)
      modifies control`enemyTaunt, control`armorClassText, control`healthText
      ensures ok <==> |taunts| > 0
      ensures ok ==>
        && control.enemyTaunt == taunts[RandomIndex(|taunts|, draw)]
        && control.armorClassText == IntToString(armorClass)
        && control.healthText == IntToString(hitPoints)
      ensures !ok ==>
        && control.enemyTaunt == old(control.enemyTaunt)
        && control.armorClassText == old(control.armorClassText)
        && control.healthText == old(control.healthText)
    {
      var k := RandomIndex(|taunts|, draw);
      if k >= |taunts| {
        return false;
      }
      control.ChangeEnemyUI(taunts[k], armorClass, hitPoints);
      ok := true;
    }

    /** `Damage`: no validation, so a negative amount heals. Every call that
        leaves the hit points at 0 or below kills again. */
    method Damage(amount: int)
      modifies this`hitPoints, this`pendingDeaths, control`healthText, control`invocations, control.Buttons()
      ensures hitPoints == old(hitPoints) - amount
      ensures control.healthText == IntToString(hitPoints)
      ensures hitPoints <= 0 ==>
        && pendingDeaths == old(pendingDeaths) + 1
        && control.invocations == old(control.invocations) + control.DeathInvocations(deathDelay)
        && control.AttacksEnabled(false)
      ensures hitPoints > 0 ==>
        && pendingDeaths == old(pendingDeaths)
        && control.invocations == old(control.invocations)
        && forall b :: b in old(control.Buttons()) ==> b.interactable == old(b.interactable)
    {
      hitPoints := hitPoints - amount;
      control.UpdateEnemyHealthUI(hitPoints);
      if hitPoints <= 0 {
        Kill();
      }
    }

    /** `Kill`: tell the controller, with the enemy's death delay, and
        schedule its own removal. */
    method Kill()
      modifies this`pendingDeaths, control`invocations, control.Buttons()
      ensures pendingDeaths == old(pendingDeaths) + 1
      ensures control.invocations == old(control.invocations) + control.DeathInvocations(deathDelay)
      ensures control.AttacksEnabled(false)
    {
      control.EnemyDied(deathDelay);
      pendingDeaths := pendingDeaths + 1;
    }
  }

  /** The game's controller (`GameController`). */
  class GameController {
    const enemies: seq<EnemyPrefab>
    const attacks: seq<AttackPrefab>
    const enemySpawnDelay: real
    const roller: DiceRoller
    var destroyed: bool
    var currentEnemy: Enemy?
    var currentAttack: AttackHolder?
    var activeAttacks: seq<AttackHolder>
    var enemyTaunt: string
    var armorClassText: string
    var healthText: string
    var invocations: seq<Invocation>

    constructor (enemies: seq<EnemyPrefab>, attacks: seq<AttackPrefab>, enemySpawnDelay: real, roller: DiceRoller)
      ensures this.enemies == enemies && this.attacks == attacks
      ensures this.enemySpawnDelay == enemySpawnDelay && this.roller == roller
      ensures !destroyed && currentEnemy == null && currentAttack == null
      ensures activeAttacks == [] && invocations == []
    {
      this.enemies, this.attacks := enemies, attacks;
      this.enemySpawnDelay, this.roller := enemySpawnDelay, roller;
      destroyed := false;
      currentEnemy, currentAttack := null, null;
      activeAttacks := [];
      enemyTaunt, armorClassText, healthText := "", "", "";
      invocations := [];
    }

    /** The buttons of the attacks on screen. */
    function Buttons(): set<Button>
      reads this
    {
      set a | a in activeAttacks :: a.myButton
    }

    /** Every attack button's `interactable` equals `state`. */
    predicate AttacksEnabled(state: bool)
      reads this, Buttons()
    {
      forall a :: a in activeAttacks ==> a.myButton.interactable == state
    }

    /** What `EnemyDied(delay)` schedules: hide the enemy UI after the
        delay, spawn the next enemy after the delay plus the spawn delay. */
    function DeathInvocations(delay: real): seq<Invocation> {
      [DisableEnemyUIAfter(delay), SpawnEnemyAfter(delay + enemySpawnDelay)]
    }

    /** `Awake`: when this is the one controller, schedule the first enemy
        and build the attack list. */
    method Awake(registry: Registry)
      modifies registry`control, this`destroyed, this`invocations, this`activeAttacks
      ensures registry.control == this <==> old(registry.control) == this || !old(Truthy(registry.control))
      ensures registry.control != this ==> destroyed && registry.control == old(registry.control)
      ensures registry.control == this ==>
        && destroyed == old(destroyed)
        && invocations == old(invocations) + [SpawnEnemyAfter(enemySpawnDelay)]
        && |activeAttacks| == |attacks|
        && (forall i :: 0 <= i < |attacks| ==> activeAttacks[i].Instantiates(attacks[i]))
        && (forall i :: 0 <= i < |attacks| ==> fresh(activeAttacks[i]) && fresh(activeAttacks[i].myButton))
      ensures registry.control != this ==>
        invocations == old(invocations) && activeAttacks == old(activeAttacks)
    {
      var single := DoSingletonCheck(registry);
      if single {
        invocations := invocations + [SpawnEnemyAfter(enemySpawnDelay)];
        PopulateAttackList();
      }
    }

    /** `DoSingletonCheck`: take the static slot when it holds no live
        controller; destroy this one when another live controller holds it. */
    method DoSingletonCheck(registry: Registry) returns (r: bool)
      modifies registry`control, this`destroyed
      ensures r <==> registry.control == this
      ensures old(registry.control) == this ==> r && destroyed == old(destroyed)
      ensures old(registry.control) != this && old(Truthy(registry.control)) ==>
        !r && registry.control == old(registry.control) && destroyed
      ensures old(registry.control) != this && !old(Truthy(registry.control)) ==>
        r && destroyed == old(destroyed)
      ensures !r ==> registry.control == old(registry.control)
    {
      if registry.control != this {
        if Truthy(registry.control) {
          destroyed := true;
          return false;
        } else {
          registry.control := this;
          return true;
        }
      } else {
        return true;
      }
    }

    /** `PopulateAttackList`: one attack holder per attack prefab, in order. */
    method PopulateAttackList()
      modifies this`activeAttacks
      ensures |activeAttacks| == |attacks|
      ensures forall i :: 0 <= i < |attacks| ==> activeAttacks[i].Instantiates(attacks[i])
      ensures forall i :: 0 <= i < |attacks| ==> fresh(activeAttacks[i]) && fresh(activeAttacks[i].myButton)
    {
      activeAttacks := [];
      for i := 0 to |attacks|
        invariant |activeAttacks| == i
        invariant forall j :: 0 <= j < i ==> activeAttacks[j].Instantiates(attacks[j])
        invariant forall j :: 0 <= j < i ==> fresh(activeAttacks[j]) && fresh(activeAttacks[j].myButton)
      {
        var newAttack := new AttackHolder(attacks[i]);
        activeAttacks := activeAttacks + [newAttack];
      }
    }

    /** `SpawnEnemy`: instantiate a randomly drawn enemy and let the player
        attack. An empty enemy list makes the index out of range. */
    method SpawnEnemy(draw: nat) returns (ok: bool)
      modifies this`currentEnemy, Buttons()
      ensures ok <==> |enemies| > 0
      ensures ok ==>
        var p := enemies[RandomIndex(|enemies|, draw)];
        && currentEnemy != null && fresh(currentEnemy) && currentEnemy.control == this
        && currentEnemy.hitPoints == p.hitPoints && currentEnemy.armorClass == p.armorClass
        && currentEnemy.taunts == p.taunts && currentEnemy.deathDelay == p.deathDelay
        && currentEnemy.pendingDeaths == 0
        && AttacksEnabled(true)
      ensures !ok ==> currentEnemy == old(currentEnemy) && forall b :: b in Buttons() ==> b.interactable == old(b.interactable)
    {
      var k := RandomIndex(|enemies|, draw);
      if k >= |enemies| {
        return false;
      }
      var newEnemy := new Enemy(enemies[k], this);
      currentEnemy := newEnemy;
      LetPlayerAttack(true);
      ok := true;
    }

    /** `LetPlayerAttack`: set every attack button's `interactable`. */
    method LetPlayerAttack(state: bool)
      modifies Buttons()
      ensures AttacksEnabled(state)
    {
      for i := 0 to |activeAttacks|
        invariant forall j :: 0 <= j < i ==> activeAttacks[j].myButton.interactable == state
      {
        activeAttacks[i].myButton.interactable := state;
      }
    }

    /** `ChangeEnemyUI`: the taunt, armour class and hit points on screen. */
    method ChangeEnemyUI(taunt: string, ac: int, health: int)
      modifies this`enemyTaunt, this`armorClassText, this`healthText
      ensures enemyTaunt == taunt && armorClassText == IntToString(ac) && healthText == IntToString(health)
    {
      enemyTaunt := taunt;
      armorClassText := IntToString(ac);
      healthText := IntToString(health);
    }

    /** `UpdateEnemyHealthUI`: the hit points on screen. */
    method UpdateEnemyHealthUI(amount: int)
      modifies this`healthText
      ensures healthText == IntToString(amount)
    {
      healthText := IntToString(amount);
    }

    /** The current enemy, as a frame. */
    function EnemyFrame(): set<Enemy>
      reads this
    {
      if currentEnemy == null then {} else {currentEnemy}
    }

    /** What damaging the live current enemy by `amount` leaves behind:
        fewer hit points on the enemy and on screen, the buttons unlocked
        exactly while it lives, and on a kill its death and the next spawn
        scheduled. */
    twostate predicate DamageDealt(e: Enemy, amount: int)
      reads this, e, Buttons()
    {
      && e.hitPoints == old(e.hitPoints) - amount
      && healthText == IntToString(e.hitPoints)
      && AttacksEnabled(e.hitPoints > 0)
      && (e.hitPoints <= 0 ==>
            && invocations == old(invocations) + DeathInvocations(e.deathDelay)
            && e.pendingDeaths == old(e.pendingDeaths) + 1)
      && (e.hitPoints > 0 ==>
            && invocations == old(invocations)
            && e.pendingDeaths == old(e.pendingDeaths))
    }

    /** `DoAttack`: lock the attack buttons, remember the attack and roll
        one D20 to hit. */
    method DoAttack(newAttack: AttackHolder)
      requires roller.Valid() && roller.Stopped()
      modifies Buttons(), this`currentAttack, roller
      ensures AttacksEnabled(false)
      ensures currentAttack == newAttack
      ensures roller.Valid()
      ensures roller.rollToSpawn == DiceRoll(D20, 1) && roller.nextAction == AfterRollAction.CheckIfAttackLanded
      ensures roller.phase.Spawning? <==> StartError(roller.dice, DiceRoll(D20, 1)).None?
      ensures roller.phase.Idle? <==> StartError(roller.dice, DiceRoll(D20, 1)).Some?
      ensures roller.phase.Spawning? ==> roller.FirstDieOut() && forall die :: die in roller.currentDice ==> fresh(die)
    {
      LetPlayerAttack(false);
      currentAttack := newAttack;
      var hitDice := DiceRoll(D20, 1);
      var _ := roller.DoDiceroll(hitDice, AfterRollAction.CheckIfAttackLanded);
    }

    /** `CheckIfAttackLanded`: on a hit schedule the damage roll, on a miss
        let the player attack again. Without a current attack or enemy the
        comparison dereferences null and throws (`ok` is false) before
        anything changes. */
    method CheckIfAttackLanded(roll: int) returns (ok: bool)
      modifies Buttons(), this`invocations
      ensures ok <==> currentAttack != null && currentEnemy != null
      ensures !ok ==> invocations == old(invocations) && ButtonsKept(Buttons())
      ensures ok && AttackLands(currentAttack.plusToHit, roll, currentEnemy.armorClass) ==>
        invocations == old(invocations) + [DoDamageRollAfter(1.0)] && ButtonsKept(Buttons())
      ensures ok && !AttackLands(currentAttack.plusToHit, roll, currentEnemy.armorClass) ==>
        invocations == old(invocations) && AttacksEnabled(true)
    {
      if currentAttack == null || currentEnemy == null {
        return false;
      }
      if currentAttack.plusToHit + roll > currentEnemy.armorClass {
        invocations := invocations + [DoDamageRollAfter(1.0)];
      } else {
        LetPlayerAttack(true);
      }
      ok := true;
    }

    /** `DoDamageRoll`: roll the current attack's damage dice and feed the
        total to `DamageEnemy`; a roll without dice does so at once, from
        inside `DoDiceroll`. Without a current attack it throws before the
        roll starts and nothing changes. */
    method DoDamageRoll()
      requires currentEnemy != null ==> currentEnemy.control == this
      requires roller.Valid() && roller.Stopped()
      modifies roller, Buttons(), EnemyFrame()`hitPoints, EnemyFrame()`pendingDeaths, this`healthText, this`invocations
      ensures roller.Valid()
      ensures currentAttack == null ==>
        && unchanged(roller) && ButtonsKept(Buttons()) && EnemyKept(currentEnemy)
        && healthText == old(healthText) && invocations == old(invocations)
      ensures currentAttack != null ==>
        roller.rollToSpawn == currentAttack.attackRoll && roller.nextAction == AfterRollAction.DamageEnemy
      ensures currentAttack != null && StartError(roller.dice, currentAttack.attackRoll).Some? ==>
        && roller.phase.Idle? && ButtonsKept(Buttons()) && EnemyKept(currentEnemy)
        && healthText == old(healthText) && invocations == old(invocations)
      ensures (currentAttack != null && StartError(roller.dice, currentAttack.attackRoll).None? &&
               currentAttack.attackRoll.amount > 0) ==>
        && roller.phase.Spawning? && roller.FirstDieOut() && (forall die :: die in roller.currentDice ==> fresh(die))
        && ButtonsKept(Buttons()) && EnemyKept(currentEnemy)
        && healthText == old(healthText) && invocations == old(invocations)
      ensures (currentAttack != null && StartError(roller.dice, currentAttack.attackRoll).None? &&
               currentAttack.attackRoll.amount <= 0) ==>
        && (currentEnemy != null ==> roller.phase.Resolved? && DamageDealt(currentEnemy, 0))
        && (currentEnemy == null ==>
              && roller.phase.Abandoned? && AttacksEnabled(true)
              && healthText == old(healthText) && invocations == old(invocations))
    {
      if currentAttack == null {
        return;
      }
      var step := roller.DoDiceroll(currentAttack.attackRoll, AfterRollAction.DamageEnemy);
      if step.Fired? {
        var _ := RunContinuation(step.delivery);
      }
    }

    /** `DamageEnemy`: let the player attack again, then damage the enemy;
        if that kills it, `EnemyDied` locks the buttons again. Without a
        current enemy the call to `Damage` throws after the buttons are
        unlocked; without a current attack the check for its effect throws
        after the damage is done (`ok` is false in both cases). */
    method DamageEnemy(amount: int) returns (ok: bool)
      requires currentEnemy != null ==> currentEnemy.control == this
      modifies Buttons(), EnemyFrame()`hitPoints, EnemyFrame()`pendingDeaths, this`healthText, this`invocations
      ensures ok <==> currentEnemy != null && currentAttack != null
      ensures currentEnemy != null ==> DamageDealt(currentEnemy, amount)
      ensures currentEnemy == null ==>
        AttacksEnabled(true) && healthText == old(healthText) && invocations == old(invocations)
    {
      LetPlayerAttack(true);
      if currentEnemy == null {
        return false;
      }
      currentEnemy.Damage(amount);
      ok := currentAttack != null;
    }

    /** `EnemyDied`: lock the attack buttons and schedule the next enemy. */
    method EnemyDied(delay: real)
      modifies Buttons(), this`invocations
      ensures AttacksEnabled(false)
      ensures invocations == old(invocations) + DeathInvocations(delay)
    {
      LetPlayerAttack(false);
      invocations := invocations + DeathInvocations(delay);
    }

    /** The roller calling the `AfterRollAction` it was given, at line 46
        of `SpawnDice`. When the delegate throws, the coroutine ends there:
        the roll is abandoned with its dice still in the scene. */
    method RunContinuation(d: Delivery) returns (ok: bool)
      requires currentEnemy != null ==> currentEnemy.control == this
      requires roller.Valid() && roller.phase.Resolved?
      requires d == Delivery(roller.nextAction, roller.totalResult)
      modifies Buttons(), EnemyFrame()`hitPoints, EnemyFrame()`pendingDeaths, this`healthText, this`invocations
      modifies roller`phase
      ensures roller.Valid()
      ensures ok ==> roller.phase.Resolved?
      ensures !ok ==> roller.phase.Abandoned? && forall die :: die in roller.currentDice ==> !die.destroyed
      ensures d.action == AfterRollAction.CheckIfAttackLanded ==>
        && (ok <==> currentAttack != null && currentEnemy != null)
        && EnemyKept(currentEnemy) && healthText == old(healthText)
        && (!ok ==> invocations == old(invocations) && ButtonsKept(Buttons()))
        && (ok && AttackLands(currentAttack.plusToHit, d.total, currentEnemy.armorClass) ==>
              invocations == old(invocations) + [DoDamageRollAfter(1.0)] && ButtonsKept(Buttons()))
        && (ok && !AttackLands(currentAttack.plusToHit, d.total, currentEnemy.armorClass) ==>
              invocations == old(invocations) && AttacksEnabled(true))
      ensures d.action == AfterRollAction.DamageEnemy ==>
        && (ok <==> currentEnemy != null && currentAttack != null)
        && (currentEnemy != null ==> DamageDealt(currentEnemy, d.total))
        && (currentEnemy == null ==>
              AttacksEnabled(true) && healthText == old(healthText) && invocations == old(invocations))
    {
      if d.action.CheckIfAttackLanded? {
        ok := CheckIfAttackLanded(d.total);
      } else {
        ok := DamageEnemy(d.total);
      }
      assert roller.Valid() && roller.phase.Resolved?;
      if !ok {
        roller.ContinuationThrew();
      }
    }
  }
}
