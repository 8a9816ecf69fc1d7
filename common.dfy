/** Small value types shared by every layer of the model. */
module Common {

  /** A nullable value: Python's `None` or a column holding NULL is `None`. */
  datatype Option<+T> = None | Some(value: T) {
    /** The value, or `default` where Python writes `x or default`. */
    function GetOr(default: T): T {
      if Some? then value else default
    }
  }

  /**
   * A request argument as the handlers pass it on: either missing (`None`,
   * a key not in `kwargs`) or the text of a form field.
   */
  datatype Field = Absent | Given(text: string)

  /** Python's `not x` for such an argument: `None` and `''` are falsy. */
  predicate Falsy(f: Field) {
    f.Absent? || f.text == ""
  }
}
