/** String helpers shared by the path and header models.  Case folding and
    comparison are ordinal over ASCII letters, which is what the invariant
    culture does on header names and URI paths made of ASCII characters. */
module Text {

  datatype Option<+T> = None | Some(value: T)

  function LowerChar(c: char): char {
    if 'A' <= c <= 'Z' then (c as int + 32) as char else c
  }

  function Lower(s: string): (r: string)
    ensures |r| == |s|
    ensures forall i :: 0 <= i < |s| ==> r[i] == LowerChar(s[i])
  {
    seq(|s|, i requires 0 <= i < |s| => LowerChar(s[i]))
  }

  /** An upper-case ASCII letter and its lower-case form. */
  predicate LetterPair(upper: char, lower: char) {
    'A' <= upper <= 'Z' && lower as int == upper as int + 32
  }

  predicate SameLetter(c: char, d: char) {
    c == d || LetterPair(c, d) || LetterPair(d, c)
  }

  predicate SameIgnoringCase(s: string, t: string) {
    |s| == |t| && forall i :: 0 <= i < |s| ==> SameLetter(s[i], t[i])
  }

  /** Folding identifies the two forms of a letter and nothing else, and leaves no upper-case letter. */
  lemma LowerFolds(c: char, d: char)
    ensures LowerChar(c) == LowerChar(d) <==> SameLetter(c, d)
    ensures SameLetter(LowerChar(c), c) && !('A' <= LowerChar(c) <= 'Z')
  {
  }

  /** Two strings have the same lower-case form exactly when they differ at most in the case of letters. */
  lemma LowerDecidesCase(s: string, t: string)
    ensures Lower(s) == Lower(t) <==> SameIgnoringCase(s, t)
  {
    if |s| == |t| {
      forall i | 0 <= i < |s| ensures LowerChar(s[i]) == LowerChar(t[i]) <==> SameLetter(s[i], t[i]) {
        LowerFolds(s[i], t[i]);
      }
      if Lower(s) == Lower(t) {
        forall i | 0 <= i < |s| ensures SameLetter(s[i], t[i]) {
          assert Lower(s)[i] == Lower(t)[i];
        }
      }
    }
  }

  /** The lower-case form is the string itself up to case, without upper-case letters, and its own lower-case form. */
  lemma LowerForm(s: string)
    ensures SameIgnoringCase(Lower(s), s) && Lower(Lower(s)) == Lower(s)
    ensures forall c <- Lower(s) :: !('A' <= c <= 'Z')
  {
    forall i | 0 <= i < |s| ensures SameLetter(Lower(s)[i], s[i]) && !('A' <= Lower(s)[i] <= 'Z') {
      LowerFolds(s[i], s[i]);
    }
    LowerDecidesCase(Lower(s), s);
  }

  function ReplaceChar(s: string, from: char, to: char): (r: string)
    ensures |r| == |s|
    ensures forall i :: 0 <= i < |s| ==> r[i] == if s[i] == from then to else s[i]
  {
    seq(|s|, i requires 0 <= i < |s| => if s[i] == from then to else s[i])
  }

  /** `Array::IndexOf` and `ArrayList::IndexOf`: position of the first equal element, or -1. */
  function IndexOf(table: seq<string>, s: string): (r: int)
    ensures -1 <= r < |table|
    ensures 0 <= r ==> table[r] == s && s !in table[..r]
    ensures r == -1 <==> s !in table
  {
    if table == [] then -1
    else if table[0] == s then 0
    else
      var r := IndexOf(table[1..], s);
      assert forall k :: 0 < k < |table| ==> table[k] == table[1..][k - 1];
      if r < 0 then -1 else
        assert table[..r + 1] == [table[0]] + table[1..][..r];
        r + 1
  }
}
