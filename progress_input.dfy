/**
 * The progress typed into a number field, as both the subtask row and the task card
 * header read it: `Math.min(100, Math.max(0, parseInt(value) || 0))`.
 */
module ProgressInput {
  import opened Wrappers
  import opened JsText

  /** `Math.min(100, Math.max(0, p))`. */
  function Clamp(p: int): (r: int)
    ensures 0 <= r <= 100
    ensures 0 <= p <= 100 ==> r == p
    ensures p < 0 ==> r == 0
    ensures p > 100 ==> r == 100
  {
    if p < 0 then 0 else if p > 100 then 100 else p
  }

  /** The progress a text input yields; NaN (and 0) fall back to 0 through `|| 0`. */
  function FromInput(text: string): (r: int)
    ensures 0 <= r <= 100
  {
    Clamp(ParseInt(text).GetOr(0))
  }

  /** Clamping twice is clamping once. */
  lemma ClampIdempotent(p: int)
    ensures Clamp(Clamp(p)) == Clamp(p)
  {
  }

  /** Clamping never reverses the order of two values. */
  lemma ClampMonotone(p: int, q: int)
    requires p <= q
    ensures Clamp(p) <= Clamp(q)
  {
  }

  /** Text without any digit (for instance the empty field) gives progress 0. */
  lemma UnparsableGivesZero(text: string)
    requires NoDecimalDigits(text)
    ensures FromInput(text) == 0
  {
    ParseIntNoDigits(text);
  }

  /** Typing the text of an in-range number gives exactly that number. */
  lemma InRangeTextKept(p: int)
    requires 0 <= p <= 100
    ensures FromInput(IntToString(p)) == p
  {
    ParseIntOfIntToString(p);
  }
}
