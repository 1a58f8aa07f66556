/** What the serving record and the offline frames have in common: the
    values a cell can hold, and what it means for column labels to be
    unique. */
module Cells {
  /** A cell of a record or frame: a string, an integer or a number from a
      slider. */
  datatype Cell = Text(s: string) | Int(i: int) | Real(x: real)

  /** No label occurs twice. */
  predicate Distinct(names: seq<string>) {
    forall i, j :: 0 <= i < j < |names| ==> names[i] != names[j]
  }
}
