/**
 * The alignment alphabet of the teleprompter: the script and every recognised
 * fragment are reduced to CJK unified ideographs U+4E00..U+9FA5, ASCII letters
 * and ASCII digits before any matching is done.  All progress arithmetic works
 * in the index space of this normalised text.
 */
module Normalization {

  /** A CJK unified ideograph in the range the prompter recognises. */
  predicate IsCjk(c: char) {
    '\U{4E00}' <= c <= '\U{9FA5}'
  }

  /** An ASCII letter (either case) or an ASCII digit. */
  predicate IsAsciiAlnum(c: char) {
    ('a' <= c <= 'z') || ('A' <= c <= 'Z') || ('0' <= c <= '9')
  }

  /** A character that survives normalisation. */
  predicate IsAligned(c: char) {
    IsCjk(c) || IsAsciiAlnum(c)
  }

  predicate AllAligned(s: string) {
    forall i :: 0 <= i < |s| ==> IsAligned(s[i])
  }

  /**
   * Removes every character outside the alignment alphabet, keeping the order
   * of the rest (the global regular-expression replacement in `prompter.js`).
   */
  function Clean(s: string): (r: string)
    ensures |r| <= |s|
    ensures AllAligned(r)
  {
    if s == [] then []
    else (if IsAligned(s[0]) then [s[0]] else []) + Clean(s[1..])
  }

  /** Normalisation works piecewise: the text of a concatenation is the
      concatenation of the texts, so relative order is kept. */
  lemma {:induction false} CleanAppend(a: string, b: string)
    ensures Clean(a + b) == Clean(a) + Clean(b)
  {
    if a == [] {
      assert a + b == b;
    } else {
      var head := if IsAligned(a[0]) then [a[0]] else [];
      assert (a + b)[1..] == a[1..] + b;
      CleanAppend(a[1..], b);
      calc {
        Clean(a + b);
        head + Clean(a[1..] + b);
        head + (Clean(a[1..]) + Clean(b));
        (head + Clean(a[1..])) + Clean(b);
        Clean(a) + Clean(b);
      }
    }
  }

  /** Text that is already in the alphabet is left as it is. */
  lemma {:induction false} CleanAligned(s: string)
    requires AllAligned(s)
    ensures Clean(s) == s
  {
    if s != [] {
      assert AllAligned(s[1..]) by {
        forall i | 0 <= i < |s[1..]| ensures IsAligned(s[1..][i]) {
          assert s[1..][i] == s[i + 1];
        }
      }
      CleanAligned(s[1..]);
    }
  }

  /** Normalising twice is normalising once. */
  lemma CleanIdempotent(s: string)
    ensures Clean(Clean(s)) == Clean(s)
  {
    CleanAligned(Clean(s));
  }

  /** Exactly the alphabet characters are kept, each as often as it occurs. */
  lemma {:induction false} CleanKeepsExactlyAligned(s: string, c: char)
    ensures multiset(Clean(s))[c] == if IsAligned(c) then multiset(s)[c] else 0
  {
    if s != [] {
      CleanKeepsExactlyAligned(s[1..], c);
      assert s == [s[0]] + s[1..];
      assert multiset(s) == multiset([s[0]]) + multiset(s[1..]);
    }
  }
}
