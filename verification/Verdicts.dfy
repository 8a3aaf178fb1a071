/** The receiver's verdict on one listed entry. */
module Verdicts {
  datatype Disposition =
    | New        // nothing there
    | Identical  // there, and the same
    | Differs    // there, with other contents
    | Conflict   // something of another kind is there
    | Resume     // a partial is there
    | Verify     // there with the same size; its contents decide
    | Refused    // cannot be placed
}
