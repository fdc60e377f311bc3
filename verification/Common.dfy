/** Sizes that more than one part of the kernel depends on (param.h, fs.h). */
module Params {
  const BSIZE: int := 1024                    // bytes in a block
  const MAXOPBLOCKS: nat := 10                // blocks one operation may log
  const LOGSIZE: nat := MAXOPBLOCKS * 3       // blocks in the log
}

/** Machine words and memory, as several of the other modules need them. */
module Machine {
  const U32: int := 0x1_0000_0000
  const U64: int := 0x1_0000_0000_0000_0000

  function Pow2(n: nat): int { if n == 0 then 1 else 2 * Pow2(n - 1) }

  /** memmove() of `chunk` to offset p of a buffer. */
  function Splice(b: seq<int>, p: int, chunk: seq<int>): (r: seq<int>)
    requires 0 <= p && p + |chunk| <= |b|
    ensures |r| == |b|
    ensures forall q | 0 <= q < |b| :: r[q] == if p <= q < p + |chunk| then chunk[q - p] else b[q]
  {
    b[..p] + chunk + b[p + |chunk|..]
  }
}

/** Strings that end at a NUL. */
module CStrings {
  const NUL: char := '\0'

  predicate CString(s: string) { forall i | 0 <= i < |s| :: s[i] != NUL }

  /** *(s + i), where a terminator follows the string. */
  function CharAt(s: string, i: int): char
    requires 0 <= i <= |s|
  {
    if i < |s| then s[i] else NUL
  }
}
