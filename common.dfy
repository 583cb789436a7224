/** Types and small sequence helpers shared by the updater and the launcher. */
module Common {

  datatype Option<T> = None | Some(value: T)

  /** An octet, as Python's `bytes` holds them. */
  type Byte = b: int | 0 <= b < 256

  type Bytes = seq<Byte>

  /** Lower-casing of the ASCII letters; every other character is kept. */
  function AsciiLower(c: char): char
  {
    if 'A' <= c <= 'Z' then (c as int + 32) as char else c
  }

  /** Python's `c * n` for a one-character string: the empty string when `n <= 0`. */
  function Repeat(c: char, n: int): (r: string)
    ensures |r| == if n <= 0 then 0 else n
    ensures forall i :: 0 <= i < |r| ==> r[i] == c
  {
    if n <= 0 then [] else Repeat(c, n - 1) + [c]
  }

  /** The bytes of `chunks` written one after the other, as a file receives them. */
  function Concat(chunks: seq<Bytes>): Bytes
  {
    if chunks == [] then [] else Concat(chunks[..|chunks| - 1]) + chunks[|chunks| - 1]
  }

  /** Writing the chunks of a prefix gives a prefix of the whole file. */
  lemma {:induction false} ConcatPrefix(chunks: seq<Bytes>, i: nat, j: nat)
    requires i <= j <= |chunks|
    ensures Concat(chunks[..i]) <= Concat(chunks[..j])
    decreases j - i
  {
    if i < j {
      ConcatPrefix(chunks, i, j - 1);
      assert chunks[..j][..j - 1] == chunks[..j - 1];
      assert Concat(chunks[..j]) == Concat(chunks[..j - 1]) + chunks[j - 1];
    }
  }
}
