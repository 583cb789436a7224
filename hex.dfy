/**
  Python's `bytes.fromhex`, which the updater applies to its first command-line
  argument to obtain the target directory (update.py:8), and its inverse
  `bytes.hex`.

  `bytes.fromhex` reads two hexadecimal digits per byte, in either case. ASCII
  whitespace (space and the characters 9 to 13) may stand between byte pairs and
  is skipped, never inside a pair. Any other character, including every
  non-ASCII one, and a digit without a partner raise `ValueError`; the model
  returns `None` for these.
*/
module Hex {
  import opened Common

  predicate IsSpace(c: char)
  {
    c == ' ' || 9 <= c as int <= 13
  }

  predicate IsHexDigit(c: char)
  {
    '0' <= c <= '9' || 'a' <= c <= 'f' || 'A' <= c <= 'F'
  }

  function HexValue(c: char): (v: nat)
    requires IsHexDigit(c)
    ensures v < 16
    ensures '0' <= c <= '9' ==> v == c as int - '0' as int
    ensures 'a' <= c <= 'f' ==> v == c as int - 'a' as int + 10
    ensures 'A' <= c <= 'F' ==> v == c as int - 'A' as int + 10
  {
    if '0' <= c <= '9' then c as int - '0' as int
    else if 'a' <= c <= 'f' then c as int - 'a' as int + 10
    else c as int - 'A' as int + 10
  }

  /** `bytes.fromhex(s)`: `None` stands for the `ValueError` it raises. */
  function FromHex(s: string): Option<Bytes>
  {
    if s == [] then Some([])
    else if IsSpace(s[0]) then FromHex(s[1..])
    else if 2 <= |s| && IsHexDigit(s[0]) && IsHexDigit(s[1]) then
      match FromHex(s[2..])
      case None => None
      case Some(rest) => Some([16 * HexValue(s[0]) + HexValue(s[1])] + rest)
    else None
  }

  /** The lower-case digit `bytes.hex` writes for a nibble. */
  function HexDigit(n: nat): (c: char)
    requires n < 16
    ensures IsHexDigit(c) && HexValue(c) == n
  {
    if n < 10 then ('0' as int + n) as char else ('a' as int + n - 10) as char
  }

  /** `b.hex()`: two lower-case digits per byte. */
  function HexEncode(b: Bytes): (s: string)
    ensures |s| == 2 * |b|
  {
    if b == [] then [] else [HexDigit(b[0] / 16), HexDigit(b[0] % 16)] + HexEncode(b[1..])
  }

  /** Decoding what `bytes.hex` wrote gives the bytes back. */
  lemma {:induction false} FromHexOfHexEncode(b: Bytes)
    ensures FromHex(HexEncode(b)) == Some(b)
  {
    if b != [] {
      var s := HexEncode(b);
      FromHexOfHexEncode(b[1..]);
      assert s[2..] == HexEncode(b[1..]);
      assert IsHexDigit(s[0]) && IsHexDigit(s[1]) && !IsSpace(s[0]);
      assert 16 * HexValue(s[0]) + HexValue(s[1]) == b[0];
      assert [b[0]] + b[1..] == b;
    }
  }

  function LowerAll(s: string): (r: string)
    ensures |r| == |s|
    ensures forall i :: 0 <= i < |s| ==> r[i] == AsciiLower(s[i])
  {
    if s == [] then [] else [AsciiLower(s[0])] + LowerAll(s[1..])
  }

  /** Upper- and lower-case digits give the same bytes: `fromhex("AB") == fromhex("ab")`. */
  lemma {:induction false} FromHexIgnoresCase(s: string)
    ensures FromHex(LowerAll(s)) == FromHex(s)
  {
    if s != [] {
      var t := LowerAll(s);
      assert IsSpace(t[0]) == IsSpace(s[0]);
      assert t[1..] == LowerAll(s[1..]);
      FromHexIgnoresCase(s[1..]);
      if 2 <= |s| {
        assert t[2..] == LowerAll(s[2..]);
        FromHexIgnoresCase(s[2..]);
        if IsHexDigit(s[0]) && IsHexDigit(s[1]) {
          assert HexValue(t[0]) == HexValue(s[0]) && HexValue(t[1]) == HexValue(s[1]);
        }
      }
    }
  }

  /** A character that is neither a hexadecimal digit nor ASCII whitespace makes `fromhex` raise. */
  lemma {:induction false} FromHexRejectsForeignChar(s: string, i: nat)
    requires i < |s| && !IsHexDigit(s[i]) && !IsSpace(s[i])
    ensures FromHex(s) == None
  {
    if !IsSpace(s[0]) && 2 <= |s| && IsHexDigit(s[0]) && IsHexDigit(s[1]) {
      FromHexRejectsForeignChar(s[2..], i - 2);
    } else if IsSpace(s[0]) {
      FromHexRejectsForeignChar(s[1..], i - 1);
    }
  }

  function CountHexDigits(s: string): nat
  {
    if s == [] then 0 else (if IsHexDigit(s[0]) then 1 else 0) + CountHexDigits(s[1..])
  }

  /** Every decoded byte uses exactly two digits, so an odd number of digits always raises. */
  lemma {:induction false} FromHexUsesDigitPairs(s: string)
    requires FromHex(s).Some?
    ensures 2 * |FromHex(s).value| == CountHexDigits(s)
  {
    if s != [] {
      if IsSpace(s[0]) {
        FromHexUsesDigitPairs(s[1..]);
      } else {
        FromHexUsesDigitPairs(s[2..]);
        assert s[1..][1..] == s[2..];
      }
    }
  }

  /** An unpaired digit makes `fromhex` raise. */
  lemma FromHexRejectsOddDigits(s: string)
    requires CountHexDigits(s) % 2 == 1
    ensures FromHex(s) == None
  {
    if FromHex(s).Some? {
      FromHexUsesDigitPairs(s);
    }
  }
}
