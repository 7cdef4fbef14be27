/** The dice engine: `Dice` (one physical die that reports once when it
    settles) and `DiceRoller` (one roll session: spawn the dice, count the
    reports, call the continuation with the total, destroy the dice).

    The `SpawnDice` coroutine is a phase machine. Each roller method runs the
    coroutine from one suspension to the next, as Unity does when it resumes
    it; the engine interleaves those resumptions with `Die.FixedUpdate`
    steps in any order. The continuation is not called from here: the step
    that reaches `nextAction(totalResult)` returns it as a `Delivery`, and
    the game invokes the delegate it names. */
module DiceEngine {
  import opened Types
  import opened Collections
  import opened Faces
  import opened Catalog

  /** Where the coroutine of the current roll stands. */
  datatype Phase =
    | Idle            // no coroutine running
    | Spawning        // suspended in the spawn loop, after spawning die `spawnIndex`
    | AwaitingSettle  // spawn loop done, waiting frame by frame for the last report
    | Resolved        // continuation called, waiting before destroying the dice
    | Cleanup         // destroying the dice
    | Abandoned       // the continuation threw: the coroutine ended, its dice were never destroyed

  /** The call `nextAction(totalResult)`. */
  datatype Delivery = Delivery(action: AfterRollAction, total: int)

  /** Exceptions that end the coroutine: `SingleOrDefault` meeting two
      entries of the requested type, and `Instantiate` given a null prefab. */
  datatype RollError = DuplicateDiceType | NullPrefab

  /** How a run of the coroutine up to its next suspension ended. */
  datatype Step = Yielded | Fired(delivery: Delivery) | Threw(error: RollError)

  /** How many times the spawn loop `for (i = 0; i < amount; i++)` runs. */
  function SpawnCount(amount: int): nat {
    if amount > 0 then amount else 0
  }

  /** The prefab the spawn loop instantiates: the matching entry's, or the
      null prefab of the default entry when no entry matches. */
  function SpawnPrefab(catalog: seq<DiceObjectType>, t: DiceType): (p: Option<Prefab>)
    ensures p.Some? ==> exists e :: e in catalog && e.kind == t && e.dicePrefab == p
  {
    match SingleOrDefault(catalog, t)
    case Unique(e) => e.dicePrefab
    case _ => None
  }

  /** The exception, if any, that stops a roll before its first die exists. */
  function StartError(catalog: seq<DiceObjectType>, roll: DiceRoll): (e: Option<RollError>)
    ensures e == Some(NullPrefab) ==> roll.amount > 0
    ensures e.None? && roll.amount > 0 ==> SpawnPrefab(catalog, roll.dice).Some?
  {
    if SingleOrDefault(catalog, roll.dice).Duplicate? then Some(DuplicateDiceType)
    else if roll.amount > 0 && SpawnPrefab(catalog, roll.dice).None? then Some(NullPrefab)
    else None
  }

  /** A roll throws on duplicate catalog entries whatever its amount, and
      on a missing or unset prefab exactly when it has a die to spawn. */
  lemma StartErrorCases(catalog: seq<DiceObjectType>, roll: DiceRoll)
    ensures StartError(catalog, roll) == Some(DuplicateDiceType) <==> TwoMatches(catalog, roll.dice)
    ensures StartError(catalog, roll) == Some(NullPrefab) <==>
      !TwoMatches(catalog, roll.dice) && roll.amount > 0 && SpawnPrefab(catalog, roll.dice).None?
    ensures NoMatch(catalog, roll.dice) ==>
      StartError(catalog, roll) == if roll.amount > 0 then Some(NullPrefab) else None
    ensures SpawnPrefab(catalog, roll.dice).Some? ==>
      exists i :: OnlyMatch(catalog, i, roll.dice) && catalog[i].dicePrefab == SpawnPrefab(catalog, roll.dice)
  {
    SingleOrDefaultSpec(catalog, roll.dice);
  }

  /** The faces of a die whose markers sit at `heights`. */
  function FacesAt(heights: seq<int>, values: seq<int>): seq<Face>
    requires |heights| == |values|
  {
    seq(|values|, i requires 0 <= i < |values| => Face(heights[i], values[i]))
  }

  /** One spawned die (`Dice`). The physics engine is not modelled: each
      fixed step says whether the rigid body sleeps and where its face
      markers are. */
  class Die {
    const owner: DiceRoller
    const faceValues: seq<int>
    var settled: bool
    var destroyed: bool

    constructor (owner: DiceRoller, faceValues: seq<int>)
      ensures this.owner == owner && this.faceValues == faceValues
      ensures !settled && !destroyed
    {
      this.owner := owner;
      this.faceValues := faceValues;
      settled := false;
      destroyed := false;
    }

    /** `Dice.FixedUpdate`. Reports to the owner on the first step on which
        the body sleeps, and never again. */
    method FixedUpdate(isSleeping: bool, heights: seq<int>)
      requires |heights| == |faceValues|
      requires owner.Valid() && this in owner.currentDice && !destroyed
      modifies this`settled, owner`totalResult, owner`waitingResult, owner`reports, owner`reported
      ensures owner.Valid()
      ensures settled == (old(settled) || isSleeping)
      ensures isSleeping && !old(settled) ==>
        var value := RestingValue(FacesAt(heights, faceValues));
        && owner.totalResult == old(owner.totalResult) + value
        && owner.waitingResult == old(owner.waitingResult) - 1
        && owner.reports == old(owner.reports) + [value]
      ensures !isSleeping || old(settled) ==>
        && owner.totalResult == old(owner.totalResult)
        && owner.waitingResult == old(owner.waitingResult)
        && owner.reports == old(owner.reports)
    {
      if isSleeping && !settled {
        var value := EvaluateDice(FacesAt(heights, faceValues));
        Report(value);
      }
    }

    /** The report itself: `owner.ResultIn(value); settled = true;`. The
        owner records, in ghost state, that this die has reported. */
    method Report(value: int)
      requires owner.Valid() && this in owner.currentDice && !destroyed && !settled
      modifies this`settled, owner`totalResult, owner`waitingResult, owner`reports, owner`reported
      ensures owner.Valid() && settled
      ensures owner.totalResult == old(owner.totalResult) + value
      ensures owner.waitingResult == old(owner.waitingResult) - 1
      ensures owner.reports == old(owner.reports) + [value]
    {
      SubsetOfDistinctBound(owner.currentDice, owner.reported, this);
      assert owner.waitingResult > 0;
      ghost var before := owner.reported;
      SumAppend(owner.reports, value);
      owner.ResultIn(value);
      owner.reported := owner.reported + {this};
      settled := true;
      assert |owner.reported| == |before| + 1;
      forall d | d in owner.currentDice ensures d.settled <==> d in owner.reported {
        if d != this { assert d.settled == old(d.settled); }
      }
      assert owner.Counting();
      assert owner.Lifecycle();
    }
  }

  /** `DiceRoller`, with the locals of its `SpawnDice` coroutine
      (`rollToSpawn`, `nextAction`, `diceToSpawn`, `i`, `currentDice`) kept as
      fields, since only one roll runs at a time. */
  class DiceRoller {
    const dice: seq<DiceObjectType>
    var phase: Phase
    var waitingResult: int
    var totalResult: int
    var rollToSpawn: DiceRoll
    var nextAction: AfterRollAction
    var diceToSpawn: Option<Prefab>
    var spawnIndex: int
    var currentDice: seq<Die>
    /** The values reported in this roll, in arrival order. */
    ghost var reports: seq<int>
    /** The dice of this roll that have reported. */
    ghost var reported: set<Die>
    /** How often this roll's continuation has been called. */
    ghost var continuationCalls: nat

    /** The bookkeeping invariant: every die spawned in this roll is counted
        once by `waitingResult` until it reports, and `totalResult` is the
        sum of the reports. */
    ghost predicate Counting()
      reads this`currentDice, this`reported, this`reports, this`waitingResult, this`totalResult
      reads currentDice`settled
    {
      && NoDuplicates(currentDice)
      && (forall d :: d in currentDice ==> d.owner == this)
      && (forall d :: d in reported ==> d in currentDice)
      && (forall d :: d in currentDice ==> (d.settled <==> d in reported))
      && |reports| == |reported|
      && waitingResult == |currentDice| - |reported|
      && waitingResult >= 0
      && totalResult == Sum(reports)
    }

    /** Where the coroutine stands: which dice exist, whether they are still
        in play, and how often the continuation has been called. */
    ghost predicate Lifecycle()
      reads this`phase, this`currentDice, this`diceToSpawn, this`spawnIndex, this`rollToSpawn
      reads this`continuationCalls, currentDice`destroyed
    {
      && continuationCalls <= 1
      && (phase.Idle? ==> forall d :: d in currentDice ==> d.destroyed)
      && (!phase.Idle? ==> forall d :: d in currentDice ==> !d.destroyed)
      && (!phase.Idle? && currentDice != [] ==>
            diceToSpawn.Some? && forall d :: d in currentDice ==> d.faceValues == diceToSpawn.value.faceValues)
      && (phase.Spawning? ==> 0 <= spawnIndex < rollToSpawn.amount && |currentDice| == spawnIndex + 1)
      && (phase.AwaitingSettle? || phase.Resolved? || phase.Cleanup? || phase.Abandoned? ==>
            |currentDice| == SpawnCount(rollToSpawn.amount))
      && (phase.Spawning? || phase.AwaitingSettle? ==> continuationCalls == 0)
      && (phase.Resolved? || phase.Cleanup? || phase.Abandoned? ==> continuationCalls == 1)
    }

    /** The roller's invariant: the bookkeeping and the coroutine's position
        agree, and once the continuation has run no die is outstanding. */
    ghost predicate Valid()
      reads this, currentDice
    {
      && Counting()
      && Lifecycle()
      && (phase.Resolved? || phase.Cleanup? || phase.Abandoned? ==> waitingResult == 0)
    }

    /** No coroutine of this roller is running: it never started, it
        finished, or it ended with an exception. */
    predicate Stopped()
      reads this`phase
    {
      phase.Idle? || phase.Abandoned?
    }

    /** Every die of this roll has reported. */
    ghost predicate AllSettled()
      reads this, currentDice
    {
      forall d :: d in currentDice ==> d.settled
    }

    /** The coroutine has spawned the first die of `rollToSpawn` and is
        suspended in the spawn loop: the counters reflect that one die
        alone, which has not reported and carries the looked-up prefab's
        faces. */
    ghost predicate FirstDieOut()
      reads this, currentDice
    {
      && phase.Spawning? && spawnIndex == 0
      && totalResult == 0 && reports == [] && waitingResult == 1
      && diceToSpawn == SpawnPrefab(dice, rollToSpawn.dice) && diceToSpawn.Some?
      && |currentDice| == 1 && !currentDice[0].settled && !currentDice[0].destroyed
      && currentDice[0].faceValues == diceToSpawn.value.faceValues
    }

    /** The test `waitingResult > 0` of the wait loop is exact: no die is
        outstanding exactly when every die of the roll has reported. */
    lemma NoneWaitingIffAllSettled()
      requires Valid()
      ensures waitingResult == 0 <==> AllSettled()
    {
      if waitingResult == 0 {
        forall d | d in currentDice ensures d.settled {
          SubsetOfDistinctBound(currentDice, reported, d);
        }
      }
      if AllSettled() {
        DistinctCoverBound(currentDice, reported);
      }
    }

    constructor (dice: seq<DiceObjectType>)
      ensures Valid() && this.dice == dice
      ensures phase == Idle && currentDice == [] && waitingResult == 0 && totalResult == 0
    {
      this.dice := dice;
      phase := Idle;
      waitingResult, totalResult := 0, 0;
      rollToSpawn := DiceRoll(D4, 0);
      nextAction := CheckIfAttackLanded;
      diceToSpawn := None;
      spawnIndex := 0;
      currentDice := [];
      reports, reported, continuationCalls := [], {}, 0;
    }

    /** `ResultIn`: what a settling die reports. */
    method ResultIn(value: int)
      modifies this`totalResult, this`waitingResult, this`reports
      ensures totalResult == old(totalResult) + value
      ensures waitingResult == old(waitingResult) - 1
      ensures reports == old(reports) + [value]
    {
      totalResult := totalResult + value;
      waitingResult := waitingResult - 1;
      reports := reports + [value];
    }

    /** The body of the spawn loop: instantiate a die owned by this roller,
        record it and count it as outstanding. */
    method SpawnDie(prefab: Prefab) returns (newDice: Die)
      requires Counting()
      modifies this`currentDice, this`waitingResult
      ensures Counting()
      ensures fresh(newDice)
      ensures newDice.owner == this && newDice.faceValues == prefab.faceValues
      ensures !newDice.settled && !newDice.destroyed
      ensures currentDice == old(currentDice) + [newDice]
      ensures waitingResult == old(waitingResult) + 1
    {
      newDice := new Die(this, prefab.faceValues);
      currentDice := currentDice + [newDice];
      waitingResult := waitingResult + 1;
    }

    /** `DoDiceroll`: start the coroutine and run it to its first
        suspension. The counters are reset before the lookup, so they are
        reset even when the lookup throws. With no dice to spawn, the
        continuation is called at once with 0. */
    method DoDiceroll(roll: DiceRoll, next: AfterRollAction) returns (step: Step)
      requires Valid() && Stopped()
      modifies this
      ensures Valid()
      ensures rollToSpawn == roll && nextAction == next
      ensures totalResult == 0 && reports == []
      ensures forall d :: d in currentDice ==> fresh(d)
      ensures step.Threw? <==> StartError(dice, roll).Some?
      ensures step.Threw? ==>
        && step.error == StartError(dice, roll).value
        && phase.Idle? && currentDice == [] && waitingResult == 0 && continuationCalls == 0
      ensures step.Fired? <==> StartError(dice, roll).None? && roll.amount <= 0
      ensures step.Fired? ==>
        && step.delivery == Delivery(next, 0)
        && phase.Resolved? && currentDice == [] && continuationCalls == 1
      ensures step.Yielded? <==> StartError(dice, roll).None? && roll.amount > 0
      ensures step.Yielded? ==> FirstDieOut()
    {
      ResetCounters(roll, next);
      var threw := LookUpPrefab();
      if threw {
        return Threw(DuplicateDiceType);
      }
      step := EnterSpawnLoop();
    }

    /** The catalog lookup. It throws on duplicate entries of the requested
        type; otherwise the prefab to spawn is set, possibly to null, and
        the loop counter starts at 0. */
    method LookUpPrefab() returns (threw: bool)
      modifies this`diceToSpawn, this`spawnIndex
      ensures threw <==> SingleOrDefault(dice, rollToSpawn.dice).Duplicate?
      ensures !threw ==> diceToSpawn == SpawnPrefab(dice, rollToSpawn.dice) && spawnIndex == 0
    {
      var lookup := SingleOrDefault(dice, rollToSpawn.dice);
      if lookup.Duplicate? {
        return true;
      }
      diceToSpawn := if lookup.Unique? then lookup.entry.dicePrefab else None;
      spawnIndex := 0;
      threw := false;
    }

    /** The first test of the spawn loop: spawn the first die and suspend,
        throw if there is a die to spawn but no prefab, or, with no dice at
        all, go straight on to the wait, which calls the continuation with 0. */
    method EnterSpawnLoop() returns (step: Step)
      requires Valid() && phase.Idle? && spawnIndex == 0
      requires currentDice == [] && reported == {} && reports == []
      requires waitingResult == 0 && totalResult == 0 && continuationCalls == 0
      modifies this`phase, this`currentDice, this`waitingResult, this`continuationCalls
      ensures Valid()
      ensures rollToSpawn.amount > 0 && diceToSpawn.None? ==>
        && step == Threw(NullPrefab)
        && phase.Idle? && currentDice == [] && waitingResult == 0 && continuationCalls == 0
      ensures rollToSpawn.amount > 0 && diceToSpawn.Some? ==>
        && step == Yielded && phase.Spawning?
        && |currentDice| == 1 && fresh(currentDice[0]) && waitingResult == 1 && continuationCalls == 0
      ensures rollToSpawn.amount <= 0 ==>
        && step == Fired(Delivery(nextAction, 0))
        && phase.Resolved? && currentDice == [] && continuationCalls == 1
    {
      if spawnIndex < rollToSpawn.amount {
        if diceToSpawn.None? {
          return Threw(NullPrefab);
        }
        var _ := SpawnDie(diceToSpawn.value);
        phase := Spawning;
        assert Counting() && Lifecycle();
        return Yielded;
      }
      phase := AwaitingSettle;
      assert Counting() && Lifecycle();
      step := AwaitSettle();
    }

    /** The start of `SpawnDice`: a new, empty dice list and both counters
        back to 0. */
    method ResetCounters(roll: DiceRoll, next: AfterRollAction)
      requires Stopped()
      modifies this`phase, this`currentDice, this`waitingResult, this`totalResult, this`reports,
        this`reported, this`continuationCalls, this`rollToSpawn, this`nextAction
      ensures Valid() && phase.Idle?
      ensures currentDice == [] && waitingResult == 0 && totalResult == 0
      ensures reports == [] && reported == {} && continuationCalls == 0
      ensures rollToSpawn == roll && nextAction == next
    {
      phase := Idle;
      currentDice := [];
      waitingResult := 0;
      totalResult := 0;
      reports, reported, continuationCalls := [], {}, 0;
      rollToSpawn, nextAction := roll, next;
    }

    /** Resumption after the pause in the spawn loop: advance the loop
        counter, then spawn the next die, or leave the loop and check
        whether every die has already reported. */
    method ResumeSpawning() returns (step: Step)
      requires Valid() && phase.Spawning?
      modifies this`spawnIndex, this`currentDice, this`waitingResult, this`phase, this`continuationCalls
      ensures Valid()
      ensures !step.Threw?
      ensures old(spawnIndex) + 1 < rollToSpawn.amount ==>
        && step.Yielded? && phase.Spawning? && spawnIndex == old(spawnIndex) + 1
        && |currentDice| == |old(currentDice)| + 1
        && currentDice[..|old(currentDice)|] == old(currentDice)
        && fresh(currentDice[|currentDice| - 1])
        && waitingResult == old(waitingResult) + 1
      ensures old(spawnIndex) + 1 >= rollToSpawn.amount ==>
        && spawnIndex == old(spawnIndex) + 1
        && currentDice == old(currentDice) && waitingResult == old(waitingResult)
        && (waitingResult > 0 ==> step.Yielded? && phase.AwaitingSettle?)
        && (waitingResult == 0 ==> step == Fired(Delivery(nextAction, totalResult)) && phase.Resolved?)
    {
      if spawnIndex + 1 < rollToSpawn.amount {
        SpawnNext();
        return Yielded;
      }
      spawnIndex := spawnIndex + 1;
      phase := AwaitingSettle;
      assert Counting() && Lifecycle();
      step := AwaitSettle();
    }

    /** One more turn of the spawn loop: `i++`, then spawn die `i`. */
    method SpawnNext()
      requires Valid() && phase.Spawning? && spawnIndex + 1 < rollToSpawn.amount
      modifies this`spawnIndex, this`currentDice, this`waitingResult
      ensures Valid()
      ensures spawnIndex == old(spawnIndex) + 1
      ensures |currentDice| == |old(currentDice)| + 1
      ensures currentDice[..|old(currentDice)|] == old(currentDice)
      ensures fresh(currentDice[|currentDice| - 1])
      ensures waitingResult == old(waitingResult) + 1
    {
      spawnIndex := spawnIndex + 1;
      var newDice := SpawnDie(diceToSpawn.value);
      assert currentDice[..|old(currentDice)|] == old(currentDice);
      assert Counting() && Lifecycle();
    }

    /** `while (waitingResult > 0) yield ...; nextAction(totalResult);`:
        run once when the spawn loop ends and again on every frame. */
    method AwaitSettle() returns (step: Step)
      requires Valid() && phase.AwaitingSettle?
      modifies this`phase, this`continuationCalls
      ensures Valid()
      ensures old(waitingResult) > 0 ==> step.Yielded? && phase.AwaitingSettle?
      ensures old(waitingResult) == 0 ==>
        step == Fired(Delivery(nextAction, totalResult)) && phase.Resolved? && continuationCalls == 1
      ensures step.Fired? ==>
        && step.delivery.total == Sum(reports)
        && |reports| == |currentDice| == SpawnCount(rollToSpawn.amount)
        && AllSettled()
    {
      if waitingResult > 0 {
        return Yielded;
      }
      forall d | d in currentDice ensures d.settled {
        SubsetOfDistinctBound(currentDice, reported, d);
      }
      phase := Resolved;
      continuationCalls := continuationCalls + 1;
      step := Fired(Delivery(nextAction, totalResult));
    }

    /** Resumption after the pause that follows the continuation: destroy
        every die of this roll. */
    method ResumeAfterResult()
      requires Valid() && phase.Resolved?
      modifies this`phase, currentDice
      ensures Valid() && phase.Idle?
      ensures forall d :: d in currentDice ==> d.destroyed && d.settled == old(d.settled)
    {
      phase := Cleanup;
      DestroyDice();
    }

    /** The continuation threw (`nextAction` at line 46 raised an exception):
        the coroutine ends there, so the pause and the cleanup loop never
        run and the dice of this roll stay in the scene. */
    method ContinuationThrew()
      requires Valid() && phase.Resolved?
      modifies this`phase
      ensures Valid() && phase.Abandoned? && Stopped()
      ensures forall d :: d in currentDice ==> !d.destroyed && d.settled
    {
      NoneWaitingIffAllSettled();
      phase := Abandoned;
    }

    /** The cleanup loop: `Destroy(currentDice[i])` for every i. */
    method DestroyDice()
      requires Valid() && phase.Cleanup?
      modifies this`phase, currentDice
      ensures Valid() && phase.Idle?
      ensures forall i :: 0 <= i < |currentDice| ==> currentDice[i].destroyed
      ensures forall d :: d in currentDice ==> d.settled == old(d.settled)
    {
      var i := 0;
      while i < |currentDice|
        invariant 0 <= i <= |currentDice|
        invariant forall j :: 0 <= j < i ==> currentDice[j].destroyed
        invariant forall d :: d in currentDice ==> d.settled == old(d.settled)
      {
        currentDice[i].destroyed := true;
        i := i + 1;
      }
      phase := Idle;
    }
  }
}
