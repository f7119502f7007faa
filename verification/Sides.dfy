/** The two outcomes of a binary market. */
module Sides {
  datatype Side = Up | Down
}
