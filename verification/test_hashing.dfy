/** The readable stand-in hash of lib/test_hashing.rb: a digest is the input
    with its letters upper-cased, so a parent over "A" and "B" reads "AB".
    Only ASCII letters are mapped. */
module TestHashing {

  function UpcaseChar(c: char): char
  {
    if 'a' <= c <= 'z' then (c as int - 'a' as int + 'A' as int) as char else c
  }

  /** Upper-cases every ASCII letter, leaving every other character. */
  function Upcase(s: string): (r: string)
    ensures |r| == |s|
    ensures forall i :: 0 <= i < |s| ==> r[i] == UpcaseChar(s[i])
  {
    if |s| == 0 then "" else [UpcaseChar(s[0])] + Upcase(s[1..])
  }
}
