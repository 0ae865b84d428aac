/** What both trees of tree.h share. */
module Trees {
  /** The two links of a node. */
  datatype Side = L | R

  function Other(d: Side): Side { if d.L? then R else L }

  lemma SliceAround<T>(s: seq<T>, lo: int, k: int, hi: int)
    requires 0 <= lo <= k < hi <= |s|
    ensures s[lo..k] + [s[k]] + s[k + 1..hi] == s[lo..hi]
  {
  }
}
