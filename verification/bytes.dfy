/** Bytes and machine words as the storage formats use them. */
module Bytes {
  newtype byte = x: int | 0 <= x < 256

  type Str = seq<byte>

  const WORD_SIZE: nat := 0x1_0000_0000
  const DWORD_SIZE: nat := 0x1_0000_0000_0000_0000
  const INT_LIMIT: nat := 0x8000_0000

  /** A uint32_t. */
  type Word = x: int | 0 <= x < WORD_SIZE

  // ----- slice, db/env.h:15-39

  /** What size() says of a slice of `n` bytes: a size_t returned as an int. */
  function SliceSize(n: nat): (r: int)
    ensures 0 - INT_LIMIT <= r < INT_LIMIT && (r == n <==> n < INT_LIMIT)
    ensures (n - r) % 0x1_0000_0000 == 0
  {
    var low := n % WORD_SIZE;
    if low < INT_LIMIT then low else low - WORD_SIZE
  }

  predicate HasSize(s: Str)
  {
    SliceSize(|s|) >= 0
  }

  /** The first size() bytes, which is what reading a slice by its size gets; none where the size is
      negative, which is undefined wherever it is used. */
  function Cut(s: Str): (r: Str)
    ensures |r| < INT_LIMIT && (r == s <==> |s| < INT_LIMIT)
    ensures HasSize(s) ==> |r| == SliceSize(|s|) == |s| % WORD_SIZE && r == s[..|r|]
  {
    if HasSize(s) then s[..SliceSize(|s|)] else []
  }

  lemma CutTwice(s: Str)
    ensures HasSize(Cut(s)) && Cut(Cut(s)) == Cut(s)
  {}
}
