/**
 The bytes a Windows path is made of, and the ASCII-only operations the path
 analyser performs on them: letter classification and case folding.

 The analysed code indexes Go strings byte by byte (as `uint8`), so a path is
 modelled as a sequence of bytes, never as decoded Unicode text.
 */
module Ascii {

  /** One byte of a path string. */
  newtype byte = b: int | 0 <= b < 256

  const BACKSLASH: byte := 0x5C
  const SLASH: byte := 0x2F
  const COLON: byte := 0x3A
  const DOT: byte := 0x2E

  predicate IsLower(c: byte) {
    0x61 <= c <= 0x7A
  }

  predicate IsUpper(c: byte) {
    0x41 <= c <= 0x5A
  }

  /** An ASCII letter, `a`-`z` or `A`-`Z`. */
  predicate IsLetter(c: byte) {
    IsLower(c) || IsUpper(c)
  }

  /** Maps `a`-`z` to `A`-`Z` and leaves every other byte alone. */
  function ToUpper(c: byte): byte {
    if IsLower(c) then c - 0x20 else c
  }

  /** The byte-wise upper-case image of a byte string. */
  function Upper(s: seq<byte>): (u: seq<byte>)
    ensures |u| == |s|
    ensures forall i :: 0 <= i < |s| ==> u[i] == ToUpper(s[i])
  {
    seq(|s|, i requires 0 <= i < |s| => ToUpper(s[i]))
  }

  /**
   Case-insensitive equality, walking both strings in step the way Go's
   `strings.EqualFold` does: equal when both end together and every pair of
   bytes met on the way folds to the same letter.
   */
  predicate EqualFold(s: seq<byte>, t: seq<byte>): (b: bool)
    ensures b ==> |s| == |t|
    ensures s == t ==> b
  {
    if |s| == 0 || |t| == 0 then |s| == |t|
    else ToUpper(s[0]) == ToUpper(t[0]) && EqualFold(s[1..], t[1..])
  }

  /** Two strings are equal up to case exactly when their upper-case images are equal. */
  lemma {:induction false} EqualFoldIffSameUpper(s: seq<byte>, t: seq<byte>)
    ensures EqualFold(s, t) <==> Upper(s) == Upper(t)
    decreases |s|
  {
    if |s| == 0 || |t| == 0 {
      assert |s| != |t| ==> |Upper(s)| != |Upper(t)|;
    } else {
      EqualFoldIffSameUpper(s[1..], t[1..]);
      if Upper(s) == Upper(t) {
        assert Upper(s)[1..] == Upper(s[1..]);
        assert Upper(t)[1..] == Upper(t[1..]);
      }
      if EqualFold(s, t) {
        assert Upper(s) == [ToUpper(s[0])] + Upper(s[1..]);
        assert Upper(t) == [ToUpper(t[0])] + Upper(t[1..]);
      }
    }
  }

  /** The byte of an ASCII character; every other character maps to 0. */
  function AsciiByte(c: char): byte {
    if c as int < 0x80 then c as int as byte else 0
  }

  /**
   The bytes of a string literal, one per character. The literals used here
   are ASCII text, where this is the exact encoding.
   */
  function Bytes(s: string): (b: seq<byte>)
    ensures |b| == |s|
  {
    seq(|s|, i requires 0 <= i < |s| => AsciiByte(s[i]))
  }
}
