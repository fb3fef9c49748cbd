/** Overwriting a stretch of a sequence. */
module Splices {

  function WriteAt<T>(buf: seq<T>, at: nat, items: seq<T>): (r: seq<T>)
    requires at + |items| <= |buf|
    ensures |r| == |buf|
    ensures forall q :: 0 <= q < |buf| ==> r[q] == if at <= q < at + |items| then items[q - at] else buf[q]
  {
    buf[..at] + items + buf[at + |items|..]
  }
}
