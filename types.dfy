/** The value types shared by the dice engine and the combat rules
    (the "Global Variables and Structs" region of GameController.cs). */
module Types {

  /** The kinds of dice the game knows. */
  datatype DiceType = D4 | D6 | D8 | D10 | D12 | D20

  /** A roll of `amount` dice of one kind. `amount` is a plain integer:
      nothing stops a designer from entering zero or a negative count. */
  datatype DiceRoll = DiceRoll(dice: DiceType, amount: int)

  /** One face of a die: how high its marker currently sits (supplied by the
      physics engine) and the number printed on it. */
  datatype Face = Face(height: int, value: int)

  /** A die prefab: what `Instantiate` copies. Only the values printed on
      its faces matter to the model, in the order the prefab lists them. */
  datatype Prefab = Prefab(name: string, faceValues: seq<int>)

  datatype Option<T> = None | Some(value: T)

  /** One entry of the roller's catalog: a prefab reference (which may be
      unset, i.e. null) and the dice type it stands for. */
  datatype DiceObjectType = DiceObjectType(dicePrefab: Option<Prefab>, kind: DiceType)

  /** The functions the game passes to the roller as `AfterRollAction`. */
  datatype AfterRollAction = CheckIfAttackLanded | DamageEnemy
}
