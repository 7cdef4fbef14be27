# RatherDicey: dice engine and combat rules in Dafny

RatherDicey is a small Unity game. The player picks an attack and the game
rolls physical dice to resolve it: one D20 to hit, then the attack's damage
dice. This project models two parts of the game's core:

- **The dice engine.**
  - `DiceRoller` runs one roll session. It resets its two counters, looks up
    the prefab for the die type, spawns `amount` dice and waits until each
    die has reported. It then calls the continuation with the total and
    destroys the dice.
  - `Dice` reports its resting value at most once: the value of the
    uppermost face, with the first face in list order winning ties.
- **The combat rules.**
  - `GameController` keeps the singleton and the attack buttons. It rolls
    to hit, with `plusToHit + roll > armorClass`, rolls damage and spawns
    enemies.
  - `Enemy` keeps its hit points and dies at 0 or below.
  - `AttackHolder` formats the attack's labels and forwards a button press.

Everything is sequential Dafny over unbounded integers. The parts are:

| file | module | what it holds |
|---|---|---|
| `types.dfy` | `Types` | the shared value types |
| `collections.dfy` | `Collections` | the order-independent sum; sequences without repeats |
| `decimal.dfy` | `Decimal` | C#'s `int.ToString()` and a parser that reads it back |
| `faces.dfy` | `Faces` | `Dice.EvaluateDice` and its specification |
| `catalog.dfy` | `Catalog` | LINQ's `SingleOrDefault` over the dice catalog |
| `dice_engine.dfy` | `DiceEngine` | the classes `Die` and `DiceRoller` (see below) |
| `labels.dfy` | `Labels` | the texts an attack button shows, each with a parser that reads it back |
| `combat.dfy` | `Combat` | the classes `Button`, `Registry`, `AttackHolder`, `Enemy` and `GameController` |

### The roller's coroutine

`DiceRoller`'s coroutine `SpawnDice` is a phase field:
`Idle → Spawning → AwaitingSettle → Resolved → Cleanup → Idle`, with
`Resolved → Abandoned` when the continuation throws.

- Each roller method runs the coroutine from one suspension to the next, as
  Unity does when it resumes it.
- `Die.FixedUpdate` steps may come between those methods in any order.
- `DoDiceroll` runs the coroutine synchronously up to its first `yield`, as
  `StartCoroutine` does. So a roll with `amount <= 0` calls its continuation
  with 0 before `DoDiceroll` returns.

### Continuations

A method that reaches `nextAction(totalResult)` returns the call as a
`Delivery`. The `Delivery` holds the `AfterRollAction` token and the total.
`GameController.RunContinuation` then calls the method the token names.

The continuation can throw. `CheckIfAttackLanded` dereferences
`currentAttack` and `currentEnemy`, and `DamageEnemy` dereferences both too.
Neither is set before the first enemy spawns and the first attack is
chosen. An exception there ends the coroutine at line 46 of `DiceRoller.cs`,
so the pause and the cleanup loop never run. In the model the continuation
returns `ok == false`, and `RunContinuation` moves the roller to
`Abandoned`, the dice of that roll still in the scene. A new roll may start
from `Abandoned` as from `Idle`.

### The roller's invariant

`DiceRoller.Valid()` holds between any two steps. It is the conjunction of
`Counting()` (the bookkeeping) and `Lifecycle()` (the coroutine's
position). Together they state:

- `waitingResult == spawned − reported >= 0`;
- `totalResult` is the sum of the values reported so far;
- a die counts as reported exactly when its `settled` flag is set;
- after the spawn loop, exactly `max(amount, 0)` dice exist;
- the continuation runs at most once per roll, and only after the spawn
  loop has ended with every die reported.

### A die type missing from the catalog

`SingleOrDefault` returns the default `DiceObjectType` for a type that has
no entry, and its prefab is null. So:

- a roll with no dice (`amount <= 0`) completes normally, with total 0;
- a roll with dice throws at the first `Instantiate`, `NullPrefab` in the
  model;
- a catalog with two entries of the requested type makes `SingleOrDefault`
  throw, `DuplicateDiceType`, whatever the amount.

Either exception ends the coroutine before any die exists. In the model the
roller goes back to `Idle` and the continuation is never called.

### Frame of reference

- `GameController.control` is the `control` field of a `Registry` object.
- A reference is true in Unity only if it is non-null and not destroyed.
  `Combat.Truthy` models this with the controller's `destroyed` flag.
- `Invoke(name, delay)` calls are appended to `GameController.invocations`
  in order, with their delays as values.
- `Random.Range(0, n)` is `RandomIndex(n, draw)`, with the draw supplied by
  the caller.
- Text objects are string fields.
- A new attack button takes clicks, which is Unity's `Button` default. The
  attack prefab, a scene asset, could set this differently. The model's
  default is what lets the player press an attack before the first enemy
  spawns.

## Model

| member | source | states |
|---|---|---|
| Collections.SumPermutation | Assets/Scripts/DiceRoller.cs:56-60 | any reordering of the reported values gives the same sum, so the roll total does not depend on the order in which dice settle |
| Decimal.IntToString | Assets/Scripts/GameController.cs:95-96 | the rendering is non-empty and starts with '-' exactly for negative numbers; a number of zero or more renders as digits only |
| Decimal.IntToStringRoundTrip | Assets/Scripts/GameController.cs:102 | parsing the rendering of any integer gives that integer back, so no two integers render alike |
| Decimal.ParseIntCanonical | Assets/Scripts/GameController.cs:102 | every string the parser accepts is exactly the rendering of the integer it yields |
| Faces.Uppermost | Assets/Scripts/Dice.cs:34-47 | the chosen index names a face of the die |
| Faces.UppermostIsHighestFirst | Assets/Scripts/Dice.cs:38-40 | the chosen face is as high as every face, and every face before it is strictly lower, so the first of equal heights wins |
| Faces.UppermostUnique | Assets/Scripts/Dice.cs:38-40 | at most one index is both highest and first, so the tie rule determines the face |
| Faces.EvaluateDice | Assets/Scripts/Dice.cs:29-50 | the loop returns the resting value; 0 for a die without faces; otherwise the value of a face that is highest and first among equals |
| Catalog.SingleOrDefault | Assets/Scripts/DiceRoller.cs:30 | an entry the lookup yields comes from the catalog and has the requested type |
| Catalog.SingleOrDefaultSpec | Assets/Scripts/DiceRoller.cs:30 | the lookup yields the default exactly when no entry has the type, throws exactly when two entries have it, and otherwise yields the only entry that has it |
| DiceEngine.SpawnPrefab | Assets/Scripts/DiceRoller.cs:30 | a prefab the lookup produces belongs to a catalog entry of the requested type |
| DiceEngine.StartError | Assets/Scripts/DiceRoller.cs:30-34 | the null-prefab exception needs a die to spawn; a roll with dice that does not throw has a real prefab |
| DiceEngine.StartErrorCases | Assets/Scripts/DiceRoller.cs:30-34 | a roll throws for duplicate entries whatever its amount; it throws for a missing or unset prefab exactly when it has dice to spawn; a missing type with no dice does not throw; a found prefab is the only matching entry's |
| DiceEngine.Die.FixedUpdate | Assets/Scripts/Dice.cs:20-27 | the die reports only on a step where the body sleeps and it has not settled: the owner's total rises by the resting value, its waiting count falls by one, and the value is logged; any other step leaves the owner's counters alone; `settled` never goes back to false; the roller invariant is kept |
| DiceEngine.Die.Report | Assets/Scripts/Dice.cs:24-25 | reporting adds the value to the owner's total, takes one from its waiting count, logs the value and sets `settled`, keeping the roller invariant |
| DiceEngine.DiceRoller.Counting | Assets/Scripts/DiceRoller.cs:13-60 | the bookkeeping invariant: dice without repeats, all owned by this roller; a die is reported exactly when `settled`; `waitingResult` is the spawned count less the reported count; `totalResult` is the sum of the reports |
| DiceEngine.DiceRoller.Lifecycle | Assets/Scripts/DiceRoller.cs:21-54 | the coroutine's position: dice destroyed exactly when idle; all from the looked-up prefab; during the spawn loop one die per turn so far; after it exactly `max(amount, 0)` dice; the continuation not yet called before the wait ends and called exactly once after |
| DiceEngine.DiceRoller.Valid | Assets/Scripts/DiceRoller.cs:21-60 | the roller invariant: `Counting` and `Lifecycle`, and no die outstanding once the continuation has run |
| DiceEngine.DiceRoller.FirstDieOut | Assets/Scripts/DiceRoller.cs:23-38 | the state at the first `yield`: counters at 0 apart from one outstanding die, not yet reported, with the faces of the looked-up prefab |
| DiceEngine.DiceRoller.NoneWaitingIffAllSettled | Assets/Scripts/DiceRoller.cs:41-46 | under the invariant, the wait loop's exit test `waitingResult > 0` failing is the same as every die of the roll having settled, both ways |
| DiceEngine.DiceRoller.ResultIn | Assets/Scripts/DiceRoller.cs:56-60 | adds exactly the value to the total, takes exactly one from the waiting count and changes nothing else |
| DiceEngine.DiceRoller.SpawnDie | Assets/Scripts/DiceRoller.cs:34-37 | a fresh die, owned by this roller and copied from the prefab, is appended to `currentDice`, and the waiting count rises by one |
| DiceEngine.DiceRoller.ResetCounters | Assets/Scripts/DiceRoller.cs:23-25 | a new roll starts with an empty dice list and both counters at 0 |
| DiceEngine.DiceRoller.DoDiceroll | Assets/Scripts/DiceRoller.cs:16-39 | counters reset before the lookup; the roll throws exactly in the cases of `StartError`; with no dice it delivers 0 to the given continuation at once; otherwise it suspends after its first die (`FirstDieOut`); it starts from an idle or abandoned roller; the invariant holds |
| DiceEngine.DiceRoller.LookUpPrefab | Assets/Scripts/DiceRoller.cs:30 | the lookup throws exactly for duplicate entries of the type; otherwise the prefab to spawn is the matching entry's, or null, and the loop counter starts at 0 |
| DiceEngine.DiceRoller.EnterSpawnLoop | Assets/Scripts/DiceRoller.cs:32-46 | with dice to spawn and no prefab the roll throws; with a prefab the first fresh die is spawned and counted and the coroutine suspends; with no dice the continuation is called at once with 0; the invariant holds |
| DiceEngine.DiceRoller.SpawnNext | Assets/Scripts/DiceRoller.cs:32-38 | the loop counter advances by one and one fresh die is appended to the earlier ones and counted |
| DiceEngine.DiceRoller.ResumeSpawning | Assets/Scripts/DiceRoller.cs:32-41 | the loop counter advances; either one more fresh die is appended and counted, or the loop ends and the wait either suspends (dice outstanding) or delivers the total (none outstanding, even when every die reported during spawning) |
| DiceEngine.DiceRoller.AwaitSettle | Assets/Scripts/DiceRoller.cs:41-46 | the wait suspends while any die is outstanding; otherwise the continuation is called once with a total equal to the sum of one report from each of exactly `max(amount, 0)` dice, all settled |
| DiceEngine.DiceRoller.ResumeAfterResult | Assets/Scripts/DiceRoller.cs:48-53 | once the continuation has run, every die of the roll is destroyed and the roller is idle again |
| DiceEngine.DiceRoller.ContinuationThrew | Assets/Scripts/DiceRoller.cs:46-53 | a continuation that throws ends the coroutine: the roller is abandoned, no die is destroyed, and every die stays settled; the invariant holds |
| DiceEngine.DiceRoller.DestroyDice | Assets/Scripts/DiceRoller.cs:50-53 | the cleanup loop destroys exactly the dice of `currentDice`, touches nothing else, and returns the roller to idle |
| Labels.DiceTypeName | Assets/Scripts/AttackHolder.cs:24 | an enum name is 'D' followed by at least one digit |
| Labels.PlusToHitLabel | Assets/Scripts/AttackHolder.cs:23 | the label starts with '+' exactly when the bonus is 0 or more and with '-' exactly when it is negative; 0 renders as "+0" |
| Labels.PlusToHitLabelRoundTrip | Assets/Scripts/AttackHolder.cs:23 | the to-hit label can be read back to the bonus it shows |
| Labels.DamageLabel | Assets/Scripts/AttackHolder.cs:24 | the label splits at its first 'D' into the decimal amount and the die's name, because the rendered amount contains no 'D' |
| Labels.DamageLabelRoundTrip | Assets/Scripts/AttackHolder.cs:24 | the damage label (decimal amount, then die name) can be read back to the roll it shows, for any amount, negative included |
| Combat.RandomIndex | Assets/Scripts/GameController.cs:79 | the drawn index lies in `[0, count)` for a non-empty list, and is 0 for an empty one |
| Combat.RandomIndexCovers | Assets/Scripts/Enemy.cs:25 | every index of the list can be drawn |
| Combat.AttackLands | Assets/Scripts/GameController.cs:122 | an attack hits exactly when the roll is at least `armorClass − plusToHit + 1` |
| Combat.AttackLandsThreshold | Assets/Scripts/GameController.cs:122 | a sum equal to the armour class misses, and one point more hits |
| Combat.Truthy | Assets/Scripts/GameController.cs:46 | a reference that tests true is non-null, and a destroyed controller tests false |
| Combat.AttackHolder.Start | Assets/Scripts/AttackHolder.cs:20-25 | the name label is the attack's name, the to-hit label is `PlusToHitLabel(plusToHit)`, the damage label is `DamageLabel(attackRoll)` |
| Combat.AttackHolder.AttackPressed | Assets/Scripts/AttackHolder.cs:27-30 | the controller's current attack becomes this one, the buttons are locked and one D20 is rolled with `CheckIfAttackLanded` next; the roll suspends after its first fresh die (`FirstDieOut`) exactly when the catalog raises no error, and otherwise throws, leaving the roller idle |
| Combat.Enemy.UpdateUI | Assets/Scripts/Enemy.cs:23-26 | the drawn taunt, the armour class and the hit points are shown; an enemy without taunts fails and shows nothing |
| Combat.Enemy.Damage | Assets/Scripts/Enemy.cs:28-36 | hit points fall by exactly the amount (a negative amount heals); the display shows the new value; every call that leaves them at 0 or below kills again, with the death calls scheduled and the buttons locked; otherwise nothing else changes |
| Combat.Enemy.Kill | Assets/Scripts/Enemy.cs:38-42 | the controller is told of the death with the enemy's death delay, and one removal is scheduled |
| Combat.GameController.Awake | Assets/Scripts/GameController.cs:34-41 | this controller ends registered exactly when it was registered already or the slot held no live controller; then it is not destroyed, schedules the first enemy and builds one attack per prefab, in order; otherwise it is destroyed, the slot keeps the other controller, and nothing is scheduled or built |
| Combat.GameController.DoSingletonCheck | Assets/Scripts/GameController.cs:42-65 | returns true exactly when this is the registered controller afterwards; it registers itself only when the slot holds no live controller; a second live instance is destroyed and returns false |
| Combat.GameController.PopulateAttackList | Assets/Scripts/GameController.cs:67-75 | one fresh holder per attack prefab, in list order |
| Combat.GameController.SpawnEnemy | Assets/Scripts/GameController.cs:77-82 | a fresh enemy, a copy of the drawn prefab, becomes current and all attack buttons are enabled; an empty enemy list fails and changes nothing |
| Combat.GameController.LetPlayerAttack | Assets/Scripts/GameController.cs:84-90 | every active attack button's `interactable` becomes the given state |
| Combat.GameController.ChangeEnemyUI | Assets/Scripts/GameController.cs:91-97 | the taunt, armour class and hit points are shown, the numbers in decimal |
| Combat.GameController.UpdateEnemyHealthUI | Assets/Scripts/GameController.cs:99-103 | the health text shows the value in decimal |
| Combat.GameController.DoAttack | Assets/Scripts/GameController.cs:105-118 | all attack buttons are locked, the attack is stored and exactly one roll of one D20 is started with `CheckIfAttackLanded` next; it suspends after its first fresh die (`FirstDieOut`: counters at 0, one unreported die of the D20 prefab) unless the catalog makes it throw, which leaves the roller idle |
| Combat.GameController.CheckIfAttackLanded | Assets/Scripts/GameController.cs:120-136 | with no current attack or enemy it throws and changes nothing; a hit schedules the damage roll after one second and leaves the buttons as they were; a miss re-enables the buttons and schedules nothing |
| Combat.GameController.DoDamageRoll | Assets/Scripts/GameController.cs:147-150 | with no current attack it throws before the roll, and nothing changes; otherwise the attack's damage roll is started with `DamageEnemy` next. A catalog error leaves the roller idle, and a roll with dice leaves it suspended after its first fresh die (`FirstDieOut`); in both cases buttons, enemy, health text and schedule are unchanged. A roll without dice damages the current enemy by 0 at once, leaving the roller resolved, or with no enemy unlocks the buttons, throws and abandons the roll |
| Combat.GameController.DamageEnemy | Assets/Scripts/GameController.cs:152-163 | the enemy loses exactly the amount and the display shows the rest; the buttons end enabled exactly when it survives, because the kill locks them again; a kill schedules the death calls and nothing else is scheduled; with no enemy it unlocks the buttons and throws; with no current attack it throws after the damage |
| Combat.GameController.EnemyDied | Assets/Scripts/GameController.cs:165-170 | locks all attack buttons; hides the enemy UI after the death delay and spawns the next enemy after the death delay plus the spawn delay |
| Combat.GameController.RunContinuation | Assets/Scripts/DiceRoller.cs:46 | the delegate the roller holds is called with the roller's total, the to-hit check or the damage, with that method's whole outcome; when it throws, the roller is abandoned with its dice undestroyed, and otherwise it stays resolved for the cleanup |

## Left out

- Physics: the rigid body's sleep state and the face markers' heights are inputs of `Die.FixedUpdate`. Heights are integers here rather than floats; only their order matters. `Random.rotation` is not modelled.
- Timing: the waits `WaitForSeconds(0.2f)`, `WaitForEndOfFrame` and `WaitForSeconds(1f)` are suspension points with no duration. `Invoke` delays are recorded as values, and the model does not run the invoked methods when a delay expires.
- Audio, DOTween animations, FX objects, showing and hiding UI (`SetActive`, `DisableEnemyUI`) and `DisplayDamageText` are not modelled. They are sound, animation and UI effects only.
- Enemy.Start (the slide-in tween and the delayed `UpdateUI`) and Enemy.Die (the FX and `Destroy`) are left out. Only the scheduled death is counted, in `pendingDeaths`.
- DiceEngine.DiceRoller.DoDiceroll: requires an idle or abandoned roller, so two rolls never overlap. In the code, `currentDice` is local to each coroutine. One roll's one-second wait before cleanup can overlap the start of the next roll, for example `DoDamageRoll` one second after a hit. That is harmless, because the waiting roll only destroys its own dice. The model keeps a single roll's state in the roller, so such an overlap is not modelled.
- DiceEngine.DiceRoller.DoDiceroll: `Instantiate` is an engine call. A null prefab is modelled as the exception that ends the coroutine. Any other engine failure is not modelled.
- Integers are unbounded. C#'s 32-bit wrap-around of `totalResult`, `hitPoints` and `plusToHit + roll` is not modelled; the game's values are small.
- Dice.EvaluateDice: a face entry whose transform reference is itself null is not modelled. In the code such an entry throws when a non-null face comes before it. When only null faces come before it, it is taken, and the next entry then replaces it whatever its height.
- The static `GameController.control` read by `Enemy` and `AttackHolder` is the `control` field of `Enemy`, or the `Registry` passed to `AttackPressed`.
- The choice of a random pitch before the roll is not modelled, and nothing else depends on it.
- DiceEngine.DiceRoller.ContinuationThrew: the model drops its references to an abandoned roll's dice when the next roll starts. The dice that stay in the scene are not tracked after that.
- Decimal.IntToString: models `int.ToString()` under the invariant culture, with '-' as the negative sign. Under a culture with a different negative sign the code renders negative numbers differently.
