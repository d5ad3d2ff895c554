/** Officer.position_name (quark/base/models.py). */
module Officers {

  /** The position's long name, with " Chair" appended for a chair. */
  function PositionName(longName: string, isChair: bool): (name: string)
    ensures |name| >= |longName| && name[..|longName|] == longName
    ensures name[|longName|..] == if isChair then " Chair" else ""
  {
    if isChair then longName + " Chair" else longName
  }

  /** The chair's title and the plain title of one position always differ. */
  lemma ChairTitleDiffers(longName: string)
    ensures PositionName(longName, true) != PositionName(longName, false)
    ensures PositionName(longName, true) == PositionName(longName, false) + " Chair"
  {
    assert |PositionName(longName, true)| == |longName| + 6;
  }
}
