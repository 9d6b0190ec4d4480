/** Concatenation of a list of pieces, as repeated `+=` builds it. */
module Sequences {

  /** The pieces of `ss` joined in order, with no separator. */
  function Flatten<T>(ss: seq<seq<T>>): seq<T>
  {
    if ss == [] then [] else Flatten(ss[..|ss| - 1]) + ss[|ss| - 1]
  }

  /** Appending one piece appends it to the concatenation. */
  lemma FlattenSnoc<T>(ss: seq<seq<T>>, s: seq<T>)
    ensures Flatten(ss + [s]) == Flatten(ss) + s
  {
  }
}
