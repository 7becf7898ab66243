/**
 * The incoming request as the fixture engine sees it, and header lookup as
 * net/http performs it (keys canonicalised before the map is consulted).
 */
module Requests {
  import opened Text

  /** The parsed request URL: its path, and its full text as URL.String() renders it. */
  datatype Url = Url(path: string, text: string)

  /**
   * A header multimap. Header.Add stores values under the canonical key;
   * entries put in the map directly may sit under any key.
   */
  type Header = map<string, seq<string>>

  /**
   * A request. `contentLength` is -1 when the length is unknown (for
   * example a chunked request body); `body` is the full body stream.
   */
  datatype Request = Request(
    verb: string,
    url: Url,
    header: Header,
    body: seq<byte>,
    contentLength: int)

  /** A character allowed in a header field name (an RFC 7230 token character). */
  predicate IsTokenChar(c: char) {
    || ('a' <= c <= 'z')
    || ('A' <= c <= 'Z')
    || ('0' <= c <= '9')
    || c in "!#$%&'*+-.^_`|~"
  }

  /** Every character of `k` may appear in a header field name. */
  predicate AllTokenChars(k: string) {
    forall i :: 0 <= i < |k| ==> IsTokenChar(k[i])
  }

  /**
   * The case rewrite of header-key canonicalisation, one character at a
   * time: a letter is upper-cased when `upper` holds (at the start and after
   * each '-') and lower-cased otherwise.
   */
  function Recase(k: string, upper: bool): (r: string)
    ensures |r| == |k|
    decreases |k|
  {
    if |k| == 0 then []
    else
      var c := if upper then Upper(k[0]) else Lower(k[0]);
      [c] + Recase(k[1..], c == '-')
  }

  /**
   * The canonical form of a header key (textproto.CanonicalMIMEHeaderKey):
   * a key holding a character that is not a token character is returned
   * unchanged; otherwise the first letter and every letter after a '-' are
   * upper-cased and all other letters lower-cased.
   */
  function CanonicalKey(k: string): (r: string)
    ensures !AllTokenChars(k) ==> r == k
    ensures AllTokenChars(k) ==>
      && |r| == |k|
      && forall i :: 0 <= i < |k| ==>
           r[i] == RecasedChar(k, true, i)
  {
    if AllTokenChars(k) then
      RecaseForm(k, true);
      Recase(k, true)
    else k
  }

  /** Recasing only changes letter case. */
  lemma {:induction false} RecaseFoldEqual(k: string, upper: bool)
    ensures FoldEqual(Recase(k, upper), k)
    decreases |k|
  {
    if |k| > 0 {
      RecaseFoldEqual(k[1..], (if upper then Upper(k[0]) else Lower(k[0])) == '-');
      FoldEqualCons(Recase(k, upper), k);
    }
  }

  /** Recasing depends on the letters of `k` only up to case. */
  lemma {:induction false} RecaseIgnoresCase(k1: string, k2: string, upper: bool)
    requires FoldEqual(k1, k2)
    ensures Recase(k1, upper) == Recase(k2, upper)
    decreases |k1|
  {
    if |k1| > 0 {
      FoldEqualCons(k1, k2);
      var c1 := if upper then Upper(k1[0]) else Lower(k1[0]);
      var c2 := if upper then Upper(k2[0]) else Lower(k2[0]);
      assert c1 == c2;
      RecaseIgnoresCase(k1[1..], k2[1..], c1 == '-');
    }
  }

  /** Recasing an already recased key changes nothing. */
  lemma {:induction false} RecaseIdempotent(k: string, upper: bool)
    ensures Recase(Recase(k, upper), upper) == Recase(k, upper)
    decreases |k|
  {
    if |k| > 0 {
      var c := if upper then Upper(k[0]) else Lower(k[0]);
      var r := Recase(k, upper);
      assert r[0] == c && r[1..] == Recase(k[1..], c == '-');
      var c' := if upper then Upper(c) else Lower(c);
      assert c' == c;
      RecaseIdempotent(k[1..], c == '-');
    }
  }

  /**
   * Recasing, position by position: a letter is upper-cased at the start
   * (when `upper` holds) and right after a '-', and lower-cased elsewhere.
   */
  lemma {:induction false} RecaseAt(k: string, upper: bool, i: nat)
    requires i < |k|
    ensures Recase(k, upper)[i] == RecasedChar(k, upper, i)
    decreases i
  {
    if i > 0 {
      var c := if upper then Upper(k[0]) else Lower(k[0]);
      assert c == '-' <==> k[0] == '-';
      RecaseAt(k[1..], c == '-', i - 1);
    }
  }

  /**
   * The character recasing puts at position `i` of `k`: upper case at the
   * start (when `upper` holds) and right after a '-', lower case elsewhere.
   */
  function RecasedChar(k: string, upper: bool, i: nat): char
    requires i < |k|
  {
    if (i == 0 && upper) || (i > 0 && k[i - 1] == '-') then Upper(k[i]) else Lower(k[i])
  }

  /** Recasing, at every position at once. */
  lemma RecaseForm(k: string, upper: bool)
    ensures forall i :: 0 <= i < |k| ==>
      Recase(k, upper)[i] == RecasedChar(k, upper, i)
  {
    forall i | 0 <= i < |k| {
      RecaseAt(k, upper, i);
    }
  }

  /** `k` is already in the form recasing produces. */
  predicate InRecasedForm(k: string, upper: bool) {
    forall i :: 0 <= i < |k| ==>
      k[i] == RecasedChar(k, upper, i)
  }

  /** Recasing leaves a key already in recased form unchanged. */
  lemma RecaseFixesRecasedForm(k: string, upper: bool)
    requires InRecasedForm(k, upper)
    ensures Recase(k, upper) == k
  {
    forall i | 0 <= i < |k| ensures Recase(k, upper)[i] == k[i] {
      RecaseAt(k, upper, i);
    }
  }

  /** The canonical key names the same header as the key it came from, up to case. */
  lemma CanonicalKeyFoldEqual(k: string)
    ensures FoldEqual(CanonicalKey(k), k)
  {
    if AllTokenChars(k) {
      RecaseFoldEqual(k, true);
    }
  }

  /**
   * Keys made of token characters that differ only in ASCII letter case
   * name the same header.
   */
  lemma CanonicalKeyIgnoresCase(k1: string, k2: string)
    requires AllTokenChars(k1)
    requires FoldEqual(k1, k2)
    ensures CanonicalKey(k1) == CanonicalKey(k2)
  {
    forall i | 0 <= i < |k2| ensures IsTokenChar(k2[i]) {
      assert Lower(k1[i]) == Lower(k2[i]);
    }
    RecaseIgnoresCase(k1, k2, true);
  }

  /** Canonicalising a canonical key changes nothing. */
  lemma CanonicalKeyIdempotent(k: string)
    ensures CanonicalKey(CanonicalKey(k)) == CanonicalKey(k)
  {
    if AllTokenChars(k) {
      var r := Recase(k, true);
      RecaseFoldEqual(k, true);
      forall i | 0 <= i < |r| ensures IsTokenChar(r[i]) {
        assert Lower(r[i]) == Lower(k[i]);
      }
      RecaseIdempotent(k, true);
    }
  }

  /** Header.Values: the values stored under the canonical form of `key`, or none. */
  function Values(h: Header, key: string): (vs: seq<string>)
    ensures CanonicalKey(key) !in h ==> vs == []
    ensures CanonicalKey(key) in h ==> vs == h[CanonicalKey(key)]
  {
    var ck := CanonicalKey(key);
    if ck in h then h[ck] else []
  }
}
