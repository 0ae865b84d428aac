module Unicode {
  /** A code point that is no surrogate. */
  predicate Scalar(c: int) { 0 <= c <= 0x10FFFF && !(0xD800 <= c <= 0xDFFF) }

  predicate Scalars(cs: seq<int>) { forall k :: 0 <= k < |cs| ==> Scalar(cs[k]) }
}
