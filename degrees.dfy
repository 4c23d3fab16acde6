/**
  Class Degree of full.py and the Python list of degrees a professor holds,
  which `draw_connections` consumes with `pop()`.
*/
module Degrees {
  /** `Degree(level, school)` */
  datatype Degree = Degree(level: string, school: string)

  /** A mutable Python list of degrees, shared by reference with its owner. */
  class DegreeList {
    var items: seq<Degree>

    constructor (items: seq<Degree>)
      ensures this.items == items
    {
      this.items := items;
    }

    /** `list.pop()`: removes and returns the last element. */
    method Pop() returns (d: Degree)
      requires items != []
      modifies this
      ensures d == old(items)[|old(items)| - 1]
      ensures items == old(items)[..|old(items)| - 1]
    {
      d := items[|items| - 1];
      items := items[..|items| - 1];
    }
  }
}
