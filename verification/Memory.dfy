/** Bytes in a row, on a disk or in memory. */
module Memory {
  function Bytes(mem: nat -> nat, from: nat, n: nat): (b: seq<nat>)
    ensures |b| == n
  {
    seq(n, i requires 0 <= i < n => mem(from + i))
  }
}
