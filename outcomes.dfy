/** Python's `None`-or-value results and the exceptions the heatmapping code can raise. */
module Outcomes {

  /** A value that Python may hold as `None`. */
  datatype Option<+T> = None | Some(value: T)

  /** The exceptions that escape the modelled functions. */
  datatype Exception =
    | TypeError   // arithmetic on a `None` value
    | ValueError  // an unknown heatmap style, or `min`/`max` of no values
    | IndexError  // indexing past the end of a key tuple or of the style string (the empty-data
                  // `data.keys()[0]` of a direct `blend_value` call is excluded by `KeyWidth`)

  /** Either a normal return or a raised exception. */
  datatype Outcome<+T> = Returns(value: T) | Raises(error: Exception)
}
