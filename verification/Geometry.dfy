/** Constants of the on-disk format. */
module Geometry {
  /** Slots of an inode that point straight to data. */
  const DIRECT: nat := 7
  /** Longest path from an inode to a data block. */
  const DEPTH: nat := 4
  /** Slots of an inode that are stored on disk. */
  const INODE_SLOTS: nat := 10

  /** An indirect block in which every slot is a hole. */
  function ZeroWords(n: nat): (ws: seq<nat>)
    ensures |ws| == n && forall i :: 0 <= i < n ==> ws[i] == 0
  {
    seq(n, _ => 0)
  }
}
