/**
 * Byte and string primitives the fixture engine relies on: substring search
 * (strings.Contains / bytes.Contains), prefix tests, and ASCII case folding
 * (strings.EqualFold restricted to ASCII).
 */
module Text {

  newtype byte = x: int | 0 <= x < 256

  /** `sub` occurs in `s` starting at index `i`. */
  predicate OccursAt<T(==)>(s: seq<T>, sub: seq<T>, i: int) {
    0 <= i && i + |sub| <= |s| && s[i..i + |sub|] == sub
  }

  lemma OccursAtShift<T>(s: seq<T>, sub: seq<T>, i: int)
    requires 0 < |s| && 0 <= i
    ensures OccursAt(s[1..], sub, i) <==> OccursAt(s, sub, i + 1)
  {
    if 0 <= i && i + |sub| <= |s| - 1 {
      assert s[1..][i..i + |sub|] == s[i + 1..i + 1 + |sub|];
    }
  }

  /**
   * Substring search, scanning candidate start positions left to right.
   * The result holds exactly when some position carries an occurrence, so
   * the empty needle is found in every haystack, including the empty one.
   */
  function Contains<T(==)>(s: seq<T>, sub: seq<T>): (r: bool)
    ensures r <==> exists i :: OccursAt(s, sub, i)
    decreases |s|
  {
    if |s| < |sub| then
      assert forall i :: !OccursAt(s, sub, i);
      false
    else if s[..|sub|] == sub then
      assert OccursAt(s, sub, 0);
      true
    else
      var rest := Contains(s[1..], sub);
      assert rest <==> exists i :: OccursAt(s, sub, i) by {
        forall i | 0 <= i
          ensures OccursAt(s[1..], sub, i) <==> OccursAt(s, sub, i + 1)
        {
          OccursAtShift(s, sub, i);
        }
        if !rest {
          forall j ensures !OccursAt(s, sub, j) {
            if j > 0 {
              OccursAtShift(s, sub, j - 1);
            }
          }
        }
      }
      rest
  }

  /** A one-element needle occurs exactly where that element sits. */
  lemma OccursAtSingle<T>(s: seq<T>, x: T, i: int)
    ensures OccursAt(s, [x], i) <==> 0 <= i < |s| && s[i] == x
  {
    if 0 <= i < |s| {
      assert s[i..i + 1] == [s[i]];
    }
  }

  /** ASCII lower-casing: 'A'..'Z' map to 'a'..'z', every other character is kept. */
  function Lower(c: char): (d: char)
    ensures 'A' <= c <= 'Z' ==> 'a' <= d <= 'z' && d as int == c as int + 32
    ensures !('A' <= c <= 'Z') ==> d == c
  {
    if 'A' <= c <= 'Z' then (c as int + 32) as char else c
  }

  /** ASCII upper-casing: 'a'..'z' map to 'A'..'Z', every other character is kept. */
  function Upper(c: char): (d: char)
    ensures 'a' <= c <= 'z' ==> 'A' <= d <= 'Z' && d as int + 32 == c as int
    ensures !('a' <= c <= 'z') ==> d == c
  {
    if 'a' <= c <= 'z' then (c as int - 32) as char else c
  }

  /** Two strings are equal once every ASCII letter is lower-cased. */
  ghost predicate FoldEqual(a: string, b: string) {
    |a| == |b| && forall i :: 0 <= i < |a| ==> Lower(a[i]) == Lower(b[i])
  }

  /**
   * strings.EqualFold, character by character: equal characters match; two
   * different characters match only when the smaller is an upper-case ASCII
   * letter and the larger its lower-case form. Folding outside ASCII is not
   * modelled, so two different non-ASCII characters never match.
   */
  function EqualFold(a: string, b: string): (r: bool)
    ensures r <==> FoldEqual(a, b)
    decreases |a|
  {
    if |a| == 0 || |b| == 0 then
      |a| == |b|
    else
      var lo := if a[0] < b[0] then a[0] else b[0];
      var hi := if a[0] < b[0] then b[0] else a[0];
      var head := a[0] == b[0] || ('A' <= lo <= 'Z' && hi as int == lo as int + 32);
      var rest := EqualFold(a[1..], b[1..]);
      assert head <==> Lower(a[0]) == Lower(b[0]);
      FoldEqualCons(a, b);
      head && rest
  }

  /** Folded equality of non-empty strings, split into the first character and the rest. */
  lemma FoldEqualCons(a: string, b: string)
    requires 0 < |a| && 0 < |b|
    ensures FoldEqual(a, b) <==> Lower(a[0]) == Lower(b[0]) && FoldEqual(a[1..], b[1..])
  {
    if |a| == |b| {
      assert forall i :: 0 < i < |a| ==> a[1..][i - 1] == a[i] && b[1..][i - 1] == b[i];
    }
  }

  /** Every character is ASCII. */
  predicate IsAscii(s: string) {
    forall i :: 0 <= i < |s| ==> s[i] < 128 as char
  }

  /**
   * The bytes of ASCII text (ASCII text is its own UTF-8 encoding); used to
   * write concrete request and response bodies.
   */
  function AsciiBytes(s: string): (r: seq<byte>)
    requires IsAscii(s)
    ensures |r| == |s|
    ensures forall i :: 0 <= i < |s| ==> r[i] as int == s[i] as int
  {
    seq(|s|, i requires 0 <= i < |s| => s[i] as int as byte)
  }

  /** Encoding distributes over concatenation. */
  lemma AsciiBytesAppend(a: string, b: string)
    requires IsAscii(a) && IsAscii(b)
    ensures IsAscii(a + b)
    ensures AsciiBytes(a + b) == AsciiBytes(a) + AsciiBytes(b)
  {
    assert forall i :: 0 <= i < |a + b| ==> (a + b)[i] == if i < |a| then a[i] else b[i - |a|];
  }
}
