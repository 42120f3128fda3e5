/**
 * Regrouping facts about sequences of any element type. Stated generically so
 * that the solver proves them once, without looking inside the elements.
 */
module SeqFacts {

  /** A non-empty suffix splits into its front and its last element. */
  lemma Snoc<T>(pre: seq<T>, post: seq<T>)
    requires post != []
    ensures pre + post == (pre + post[..|post| - 1]) + [post[|post| - 1]]
  {
  }

  /** A sequence is what comes before position `k`, the element there, and what follows. */
  lemma Around<T>(s: seq<T>, k: nat)
    requires k < |s|
    ensures s == (s[..k] + [s[k]]) + s[k + 1..]
  {
  }

  /** Taking back the front of a sequence extended by one element. */
  lemma DropLast<T>(s: seq<T>, x: T)
    ensures (s + [x])[..|s|] == s
  {
  }

  /** The empty sequence is a unit of concatenation. */
  lemma Unit<T>(s: seq<T>)
    ensures s + [] == s && [] + s == s
  {
  }

  /** The tail of `[x] + s` is `s`. */
  lemma TailOfCons<T>(x: T, s: seq<T>)
    ensures ([x] + s)[0] == x && ([x] + s)[1..] == s
  {
  }

  /** A sequence that differs from `p` at a position of both does not start with `p`. */
  lemma Differs<T>(p: seq<T>, s: seq<T>, i: nat)
    requires i < |p| && i < |s| && p[i] != s[i]
    ensures !(p <= s)
  {
  }

  /** A non-empty prefix splits off its last element. */
  lemma LastApart<T>(p: seq<T>, t: seq<T>)
    requires p != []
    ensures p + t == p[..|p| - 1] + [p[|p| - 1]] + t
  {
  }

  /** Sequences that agree at every index are equal. */
  lemma Pointwise<T>(s: seq<T>, t: seq<T>)
    requires |s| == |t| && forall i :: 0 <= i < |s| ==> s[i] == t[i]
    ensures s == t
  {
  }

  /** Five singletons prepended one by one form the five-element display. */
  lemma Five<T>(a: T, b: T, c: T, d: T, e: T)
    ensures [a] + ([b] + ([c] + ([d] + [e]))) == [a, b, c, d, e]
  {
  }

  lemma Four<T>(a: T, b: T, c: T, d: T)
    ensures [a] + ([b] + ([c] + [d])) == [a, b, c, d]
  {
  }

  lemma Three<T>(a: T, b: T, c: T)
    ensures [a] + ([b] + [c]) == [a, b, c]
  {
  }

  /** Five pieces joined by `s` and followed by `t`, regrouped from the right. */
  lemma Nest<T>(a: seq<T>, b: seq<T>, c: seq<T>, d: seq<T>, e: seq<T>, t: seq<T>, s: seq<T>)
    ensures a + s + b + s + c + s + d + s + e + t == a + s + (b + s + (c + s + (d + s + (e + t))))
  {
  }

  lemma FivePlus<T>(a: T, b: T, c: T, d: T, e: T, more: seq<T>)
    ensures [a] + ([b] + ([c] + ([d] + ([e] + more)))) == [a, b, c, d, e] + more
  {
  }

  lemma FiveAt<T>(cols: seq<T>, a: T, b: T, c: T, d: T, e: T, more: seq<T>)
    requires cols == [a, b, c, d, e] + more
    ensures |cols| >= 5 && cols[0] == a && cols[1] == b && cols[2] == c && cols[3] == d && cols[4] == e
  {
  }

  lemma Reassociate<T>(a: seq<T>, s: seq<T>, l: seq<T>, t: seq<T>)
    ensures a + (s + l) + t == a + s + (l + t)
  {
  }
}
