/** What the modules share: results, options, iteration over a set and ASCII text. */
module Prelude {
  datatype Option<+T> = None | Some(value: T)

  /** A Python call that returns a value or raises. */
  datatype Result<+T, +E> = Ok(value: T) | Err(error: E)

  /** Some element of a set, for loops that visit a dictionary in whatever order. */
  method Pick<T(==)>(items: set<T>) returns (item: T)
    requires items != {}
    ensures item in items
  {
    item :| item in items;
  }

  predicate NoDuplicates<T(==)>(s: seq<T>) {
    forall i, j :: 0 <= i < j < |s| ==> s[i] != s[j]
  }

  function Max(a: real, b: real): real {
    if a < b then b else a
  }

  // ---- ASCII text ----

  function LowerChar(c: char): char {
    if 'A' <= c <= 'Z' then (c as int + 32) as char else c
  }

  /** casefold of ASCII text. */
  function Lower(text: string): (lower: string)
    ensures |lower| == |text|
    ensures forall i :: 0 <= i < |text| ==> lower[i] == LowerChar(text[i])
  {
    seq(|text|, i requires 0 <= i < |text| => LowerChar(text[i]))
  }

  /** The white space of str.strip and of the pattern \s. */
  predicate IsSpace(c: char) {
    c == ' ' || 9 as char <= c <= 13 as char || 28 as char <= c <= 31 as char
  }

  /** The character codes of white space, and of the letters that fold. */
  lemma CharacterCodes(c: char)
    ensures IsSpace(c) <==> c as int == 32 || 9 <= c as int <= 13 || 28 <= c as int <= 31
    ensures LowerChar(c) as int == c as int + if 65 <= c as int <= 90 then 32 else 0
  {
  }
}
