/** The two readings the model gives a piece of code that, as written,
    does not do what its design evidently meant: the code as it stands,
    and the repaired version. */
module Variants {
  datatype Variant = AsWritten | Corrected
}
