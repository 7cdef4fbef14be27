/** The texts an attack button shows (`AttackHolder.Start`), with parsers
    that read each text back, so that each label is shown to lose nothing. */
module Labels {
  import opened Types
  import opened Decimal

  /** C#'s `ToString()` of a `DiceType` value: the member's name. */
  function DiceTypeName(t: DiceType): (s: string)
    ensures |s| >= 2 && s[0] == 'D' && AllDigits(s[1..])
  {
    match t
    case D4 => "D4"
    case D6 => "D6"
    case D8 => "D8"
    case D10 => "D10"
    case D12 => "D12"
    case D20 => "D20"
  }

  function ParseDiceType(s: string): Option<DiceType> {
    if s == "D4" then Some(D4)
    else if s == "D6" then Some(D6)
    else if s == "D8" then Some(D8)
    else if s == "D10" then Some(D10)
    else if s == "D12" then Some(D12)
    else if s == "D20" then Some(D20)
    else None
  }

  lemma DiceTypeNameRoundTrip(t: DiceType)
    ensures ParseDiceType(DiceTypeName(t)) == Some(t)
  {
  }

  /** The to-hit bonus: a '+' in front of a number that is zero or more; a
      negative number keeps the '-' of its own rendering. */
  function PlusToHitLabel(plusToHit: int): (s: string)
    ensures |s| >= 2
    ensures s[0] == '+' <==> plusToHit >= 0
    ensures s[0] == '-' <==> plusToHit < 0
    ensures plusToHit == 0 ==> s == "+0"
  {
    if plusToHit >= 0 then "+" + IntToString(plusToHit) else IntToString(plusToHit)
  }

  function ParsePlusToHitLabel(s: string): Option<int> {
    if |s| >= 1 && s[0] == '+' then
      match ParseInt(s[1..])
      case Some(v) => if v >= 0 then Some(v) else None
      case None => None
    else
      match ParseInt(s)
      case Some(v) => if v < 0 then Some(v) else None
      case None => None
  }

  lemma PlusToHitLabelRoundTrip(plusToHit: int)
    ensures ParsePlusToHitLabel(PlusToHitLabel(plusToHit)) == Some(plusToHit)
  {
    IntToStringRoundTrip(plusToHit);
    if plusToHit >= 0 {
      assert PlusToHitLabel(plusToHit)[1..] == IntToString(plusToHit);
    }
  }

  /** The damage roll, e.g. "2D6": the decimal amount, then the die's name. */
  function DamageLabel(roll: DiceRoll): (s: string)
    ensures s[..IndexOf(s, 'D')] == IntToString(roll.amount)
    ensures s[IndexOf(s, 'D')..] == DiceTypeName(roll.dice)
  {
    var digits := IntToString(roll.amount);
    var name := DiceTypeName(roll.dice);
    assert forall j :: 0 <= j < |digits| ==> digits[j] != 'D' by {
      if roll.amount < 0 {
        assert forall j :: 1 <= j < |digits| ==> digits[j] == digits[1..][j - 1];
      }
    }
    IndexOfConcat(digits, name, 'D');
    assert (digits + name)[..|digits|] == digits && (digits + name)[|digits|..] == name;
    digits + name
  }

  /** The position of the first `c` in `s`, or |s| when there is none. */
  function IndexOf(s: string, c: char): (k: nat)
    ensures k <= |s|
    ensures forall j :: 0 <= j < k ==> s[j] != c
    ensures k < |s| ==> s[k] == c
    decreases |s|
  {
    if s == [] then 0 else if s[0] == c then 0 else 1 + IndexOf(s[1..], c)
  }

  /** Splits a damage label at its first 'D'. */
  function ParseDamageLabel(s: string): Option<DiceRoll> {
    var k := IndexOf(s, 'D');
    match (ParseInt(s[..k]), ParseDiceType(s[k..]))
    case (Some(amount), Some(t)) => Some(DiceRoll(t, amount))
    case _ => None
  }

  lemma DamageLabelRoundTrip(roll: DiceRoll)
    ensures ParseDamageLabel(DamageLabel(roll)) == Some(roll)
  {
    IntToStringRoundTrip(roll.amount);
    DiceTypeNameRoundTrip(roll.dice);
  }

  lemma IndexOfConcat(a: string, b: string, c: char)
    requires forall j :: 0 <= j < |a| ==> a[j] != c
    requires |b| > 0 && b[0] == c
    ensures IndexOf(a + b, c) == |a|
  {
    assert (a + b)[|a|] == c;
    assert forall j :: 0 <= j < |a| ==> (a + b)[j] == a[j];
  }
}
