/** Reading a settled die (`Dice.EvaluateDice`): the value of the face that
    sits highest, the first such face in list order when several tie. */
module Faces {
  import opened Types

  /** Index of the highest face, scanning the list front to back and
      replacing the current choice only by a strictly higher face. */
  function Uppermost(faces: seq<Face>): (k: nat)
    requires |faces| > 0
    ensures k < |faces|
    decreases |faces|
  {
    if |faces| == 1 then 0
    else
      var k := Uppermost(faces[..|faces| - 1]);
      if faces[|faces| - 1].height > faces[k].height then |faces| - 1 else k
  }

  /** `k` is a highest face, and every face before it is strictly lower. */
  predicate IsUppermost(faces: seq<Face>, k: int) {
    && 0 <= k < |faces|
    && (forall j :: 0 <= j < |faces| ==> faces[j].height <= faces[k].height)
    && (forall j :: 0 <= j < k ==> faces[j].height < faces[k].height)
  }

  lemma {:induction false} UppermostIsHighestFirst(faces: seq<Face>)
    requires |faces| > 0
    ensures IsUppermost(faces, Uppermost(faces))
    decreases |faces|
  {
    if |faces| > 1 {
      var init := faces[..|faces| - 1];
      UppermostIsHighestFirst(init);
      assert forall j :: 0 <= j < |init| ==> init[j] == faces[j];
    }
  }

  /** At most one face is the first highest one, so the choice is determined. */
  lemma UppermostUnique(faces: seq<Face>, a: int, b: int)
    requires IsUppermost(faces, a) && IsUppermost(faces, b)
    ensures a == b
  {
    assert faces[a].height == faces[b].height;
  }

  /** The value a die with these faces shows: that of its uppermost face,
      or 0 for a die without faces. */
  function RestingValue(faces: seq<Face>): int {
    if |faces| == 0 then 0 else faces[Uppermost(faces)].value
  }

  /** `Dice.EvaluateDice`. `upperHeight` is `None` while `upper.face` is
      still the null transform of the freshly created record. */
  method EvaluateDice(faces: seq<Face>) returns (value: int)
    ensures value == RestingValue(faces)
    ensures |faces| == 0 ==> value == 0
    ensures |faces| > 0 ==> exists k :: IsUppermost(faces, k) && value == faces[k].value
  {
    var upperHeight: Option<int> := None;
    var upperValue := 0;
    ghost var upperIndex := 0;
    for i := 0 to |faces|
      invariant upperHeight.None? <==> i == 0
      invariant i == 0 ==> upperValue == 0
      invariant i > 0 ==> upperIndex == Uppermost(faces[..i])
      invariant i > 0 ==> upperHeight == Some(faces[upperIndex].height)
      invariant i > 0 ==> upperValue == faces[upperIndex].value
    {
      assert faces[..i + 1][..i] == faces[..i];
      if upperHeight.Some? {
        if faces[i].height > upperHeight.value {
          upperHeight, upperValue := Some(faces[i].height), faces[i].value;
          upperIndex := i;
        }
      } else {
        upperHeight, upperValue := Some(faces[i].height), faces[i].value;
        upperIndex := i;
      }
    }
    value := upperValue;
    if |faces| > 0 {
      assert faces[..|faces|] == faces;
      UppermostIsHighestFirst(faces);
    }
  }
}
