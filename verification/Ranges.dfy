/** The integers a range denotes. */
module Ranges {

  /** How many integers `first..last` denotes. */
  function Count(first: int, last: int, inclusive: bool): nat {
    var end := if inclusive then last + 1 else last;
    if first < end then end - first else 0
  }

  /** The interval's integers in order, or backwards. */
  function Nth(first: int, last: int, inclusive: bool, reverse: bool, i: nat): int {
    if !reverse then first + i else if inclusive then last - i else last - 1 - i
  }
}
