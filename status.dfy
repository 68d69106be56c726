// Reading the attendance state from the label of the widget's button
// (getKekaClockInStatus in cli.js). The state values are the label strings
// of BUTTON_STATUS_MAP themselves.
module Status {

  /** BUTTON_STATUS_MAP.CHECKED_IN: the button reads "clock-out" while the user is clocked in. */
  const CheckedIn: string := "clock-out"

  /** BUTTON_STATUS_MAP.CHECKED_OUT: the button reads "web check-in" while the user is clocked out. */
  const CheckedOut: string := "web check-in"

  predicate IsUpper(c: char) {
    'A' <= c <= 'Z'
  }

  /** toLowerCase on one character, restricted to ASCII letters. */
  function LowerChar(c: char): char {
    if IsUpper(c) then (c as int + 32) as char else c
  }

  /** toLowerCase on a whole label, character by character. */
  function Lower(s: string): (r: string)
    ensures |r| == |s|
    ensures forall i :: 0 <= i < |s| ==> r[i] == LowerChar(s[i])
    ensures forall i :: 0 <= i < |s| ==> !IsUpper(r[i])
  {
    if s == [] then [] else [LowerChar(s[0])] + Lower(s[1..])
  }

  /** A string with no upper-case letter is its own lower-case form. */
  lemma LowerOfLowercase(s: string)
    requires forall i :: 0 <= i < |s| ==> !IsUpper(s[i])
    ensures Lower(s) == s
  {
  }

  /** Lower-casing twice is lower-casing once. */
  lemma LowerIdempotent(s: string)
    ensures Lower(Lower(s)) == Lower(s)
  {
    LowerOfLowercase(Lower(s));
  }

  /**
   * The classification at the end of getKekaClockInStatus: the lower-cased
   * label is compared with the checked-in label; every other text,
   * the empty one included, falls through to the checked-out value.
   */
  function Classify(text: string): (state: string)
    ensures state == CheckedIn || state == CheckedOut
    ensures state == CheckedIn <==> Lower(text) == CheckedIn
    ensures state == CheckedOut <==> Lower(text) != CheckedIn
  {
    if Lower(text) == CheckedIn then CheckedIn else CheckedOut
  }

  /** Two labels that differ only in the case of their letters classify the same. */
  lemma ClassifyIgnoresCase(a: string, b: string)
    requires |a| == |b|
    requires forall i :: 0 <= i < |a| ==> LowerChar(a[i]) == LowerChar(b[i])
    ensures Classify(a) == Classify(b)
  {
    assert Lower(a) == Lower(b);
  }

  /** A label and its lower-cased form classify the same. */
  lemma ClassifyLowered(text: string)
    ensures Classify(Lower(text)) == Classify(text)
  {
    LowerIdempotent(text);
  }

  /** The checked-in value is already in lower case. */
  lemma CheckedInIsLowercase()
    ensures Lower(CheckedIn) == CheckedIn
  {
    assert forall i :: 0 <= i < |CheckedIn| ==> !IsUpper(CheckedIn[i]);
    LowerOfLowercase(CheckedIn);
  }

  /** The checked-out value is already in lower case. */
  lemma CheckedOutIsLowercase()
    ensures Lower(CheckedOut) == CheckedOut
  {
    assert forall i :: 0 <= i < |CheckedOut| ==> !IsUpper(CheckedOut[i]);
    LowerOfLowercase(CheckedOut);
  }

  /** Classifying one of the two state values gives that value back. */
  lemma ClassifyIdempotent(text: string)
    ensures Classify(Classify(text)) == Classify(text)
  {
    CheckedInIsLowercase();
    CheckedOutIsLowercase();
    assert |CheckedOut| != |CheckedIn|;
  }
}
