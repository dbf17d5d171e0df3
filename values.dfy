/** The scalar Python values that reach the core as call arguments. */
module PyValues {
  import opened Outcomes
  import opened Text

  datatype Value = VStr(s: string) | VInt(i: int) | VBool(b: bool) | VNone

  /** Python's `str(value)`: a string is itself, an integer is the decimal
      `int()` reads back, and the two booleans and `None` have spellings
      `int()` refuses. */
  function PyStr(v: Value): (r: string)
    ensures v.VStr? ==> r == v.s
    ensures v.VInt? ==> ParseInt(r) == Some(v.i)
    ensures v.VBool? || v.VNone? ==> ParseInt(r).None? && r != []
  {
    match v
    case VStr(s) => s
    case VInt(i) => IntRoundTrip(i); IntToDecimal(i)
    case VBool(b) =>
      assert !IsDigit('T') && !IsDigit('F');
      if b then "True" else "False"
    case VNone =>
      assert !IsDigit('N');
      "None"
  }
}
