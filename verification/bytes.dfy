/** Bytes on the serial links and the chunk sequences a transfer is made of. */
module Bytes {

  /** One octet as written to or read from a serial port. */
  newtype byte = x: int | 0 <= x < 256

  /** The bytes of several chunks, in order, with no separators. */
  function Concat(cs: seq<seq<byte>>): seq<byte>
  {
    if |cs| == 0 then [] else cs[0] + Concat(cs[1..])
  }

  /** The number of payload bytes carried by several chunks together. */
  function TotalLen(cs: seq<seq<byte>>): nat
  {
    if |cs| == 0 then 0 else |cs[0]| + TotalLen(cs[1..])
  }

  /** Counting the chunks' lengths and measuring their concatenation agree. */
  lemma {:induction false} ConcatLength(cs: seq<seq<byte>>)
    ensures |Concat(cs)| == TotalLen(cs)
  {
    if |cs| > 0 {
      ConcatLength(cs[1..]);
    }
  }

  /** Both measures distribute over splitting the chunk list in two. */
  lemma {:induction false} SplitChunks(a: seq<seq<byte>>, b: seq<seq<byte>>)
    ensures TotalLen(a + b) == TotalLen(a) + TotalLen(b)
    ensures Concat(a + b) == Concat(a) + Concat(b)
  {
    if |a| == 0 {
      assert a + b == b;
    } else {
      assert (a + b)[1..] == a[1..] + b;
      SplitChunks(a[1..], b);
    }
  }
}
