/** Values held by the plan and execution dialogs: the text of a numeric
    input as `parseFloat` reads it, and a JavaScript number that may have
    become NaN or infinite. */
module FormValues {

  /** A numeric text field: empty, a number, or text that parses to NaN. */
  datatype Input = Blank | Num(value: real) | Junk

  /** A field is truthy in JavaScript exactly when its text is non-empty. */
  predicate Filled(i: Input)
  {
    i != Blank
  }

  /** A number computed by the dialogs: finite, or NaN / plus or minus infinity
      after a division by a zero risk or a NaN commission. */
  datatype Number = Finite(value: real) | NonFinite
}
