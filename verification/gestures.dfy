/** Display names for the gesture codes the chip reports (gesture()).

    The numeric values of the eight codes are defined outside this model,
    so they are a parameter: any eight pairwise distinct bytes. */
module Gestures {

  /** The values of NONE, SWIPE_DOWN, SWIPE_UP, SWIPE_LEFT, SWIPE_RIGHT,
      SINGLE_CLICK, DOUBLE_CLICK and LONG_PRESS. */
  datatype GestureCodes = GestureCodes(
    none: bv8, swipeDown: bv8, swipeUp: bv8, swipeLeft: bv8,
    swipeRight: bv8, singleClick: bv8, doubleClick: bv8, longPress: bv8)

  /** The codes in the order the lookup tests them. */
  function Codes(c: GestureCodes): (s: seq<bv8>)
    ensures |s| == 8
  {
    [c.none, c.swipeDown, c.swipeUp, c.swipeLeft,
     c.swipeRight, c.singleClick, c.doubleClick, c.longPress]
  }

  /** The names of the codes, position by position. */
  const Names: seq<string> :=
    ["NONE", "SWIPE DOWN", "SWIPE UP", "SWIPE LEFT",
     "SWIPE RIGHT", "SINGLE CLICK", "DOUBLE CLICK", "LONG PRESS"]

  const Unknown: string := "UNKNOWN"

  /** No two gestures share a code (a switch with two equal labels would
      not compile). */
  predicate Distinct(c: GestureCodes) {
    forall i, j :: 0 <= i < j < 8 ==> Codes(c)[i] != Codes(c)[j]
  }

  /** The name of a gesture code; total over all bytes. */
  function GestureName(c: GestureCodes, id: bv8): (name: string)
    ensures name == Unknown || name in Names
    ensures name == Unknown <==> id !in Codes(c)
  {
    if id == c.none then "NONE"
    else if id == c.swipeDown then "SWIPE DOWN"
    else if id == c.swipeUp then "SWIPE UP"
    else if id == c.swipeLeft then "SWIPE LEFT"
    else if id == c.swipeRight then "SWIPE RIGHT"
    else if id == c.singleClick then "SINGLE CLICK"
    else if id == c.doubleClick then "DOUBLE CLICK"
    else if id == c.longPress then "LONG PRESS"
    else Unknown
  }

  /** With distinct codes, each known code maps to the name at its own
      position in the table. */
  lemma KnownCodeNames(c: GestureCodes, i: int)
    requires Distinct(c)
    requires 0 <= i < 8
    ensures GestureName(c, Codes(c)[i]) == Names[i]
  {
    var s := Codes(c);
    // bring every table position into play so that Distinct applies to it
    assert s[0] == c.none && s[1] == c.swipeDown && s[2] == c.swipeUp && s[3] == c.swipeLeft;
    assert s[4] == c.swipeRight && s[5] == c.singleClick && s[6] == c.doubleClick && s[7] == c.longPress;
  }

  /** With distinct codes, a known name identifies its code: the lookup is
      one-to-one away from "UNKNOWN". */
  lemma NameIdentifiesCode(c: GestureCodes, a: bv8, b: bv8)
    requires Distinct(c)
    requires GestureName(c, a) == GestureName(c, b) != Unknown
    ensures a == b
  {
  }
}
