/** Small sequence helpers shared by the other modules. */
module Seqs {

  /** The most recent element of a non-empty history. */
  function Last<T>(s: seq<T>): T
    requires s != []
  {
    s[|s| - 1]
  }
}
