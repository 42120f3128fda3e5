/**
 * The handful of Python `str` operations the build scripts use, stated on
 * `seq<char>`. Case mapping covers the ASCII letters only.
 */
module PyStr {
  import opened SeqFacts

  /** The characters Python's `str.isspace()` accepts, i.e. what `strip()` removes. */
  predicate IsSpace(c: char)
  {
    c == ' ' || ('\t' <= c <= '\r') || ('\U{1C}' <= c <= '\U{1F}')
    || c == '\U{85}' || c == '\U{A0}' || c == '\U{1680}'
    || ('\U{2000}' <= c <= '\U{200A}') || c == '\U{2028}' || c == '\U{2029}'
    || c == '\U{202F}' || c == '\U{205F}' || c == '\U{3000}'
  }

  /** `s.lstrip()`: the suffix of `s` left after dropping leading white space. */
  function TrimLeft(s: string): (r: string)
    ensures |r| <= |s| && r == s[|s| - |r|..]
    ensures forall k :: 0 <= k < |s| - |r| ==> IsSpace(s[k])
    ensures r != [] ==> !IsSpace(r[0])
  {
    if s != [] && IsSpace(s[0]) then TrimLeft(s[1..]) else s
  }

  /** `s.rstrip()`: the prefix of `s` left after dropping trailing white space. */
  function TrimRight(s: string): (r: string)
    ensures |r| <= |s| && r == s[..|r|]
    ensures forall k :: |r| <= k < |s| ==> IsSpace(s[k])
    ensures r != [] ==> !IsSpace(r[|r| - 1])
  {
    if s != [] && IsSpace(s[|s| - 1]) then TrimRight(s[..|s| - 1]) else s
  }

  /** `s.strip()` */
  function Strip(s: string): string
  {
    TrimLeft(TrimRight(s))
  }

  /** Trimming the right end twice is trimming it once. */
  lemma TrimRightIdempotent(s: string)
    ensures TrimRight(TrimRight(s)) == TrimRight(s)
  {
  }

  /** Trailing white space after a part that ends in a non-space is all that goes. */
  lemma {:induction false} TrimRightAfter(p: string, v: string)
    requires p != [] && !IsSpace(p[|p| - 1])
    ensures TrimRight(p + v) == p + TrimRight(v)
    decreases |v|
  {
    if v == [] {
      assert p + v == p;
    } else if IsSpace(v[|v| - 1]) {
      assert (p + v)[..|p + v| - 1] == p + v[..|v| - 1];
      TrimRightAfter(p, v[..|v| - 1]);
    }
  }

  /** A line that starts with a non-space prefix keeps it; only the tail is trimmed. */
  lemma StripAfterPrefix(p: string, v: string)
    requires p != [] && !IsSpace(p[0]) && !IsSpace(p[|p| - 1])
    ensures Strip(p + v) == p + TrimRight(v)
  {
    TrimRightAfter(p, v);
    assert (p + TrimRight(v))[0] == p[0];
  }

  /** Stripping after trimming the right end is plain stripping. */
  lemma StripTrimRight(v: string)
    ensures Strip(TrimRight(v)) == Strip(v)
  {
    TrimRightIdempotent(v);
  }

  /** `strip()` is idempotent. */
  lemma StripIdempotent(s: string)
    ensures Strip(Strip(s)) == Strip(s)
  {
    var t := Strip(s);
    if t != [] {
      var r := TrimRight(s);
      assert t == r[|r| - |t|..];
      assert t[|t| - 1] == r[|r| - 1];
      assert TrimRight(t) == t;
    }
  }

  /** A string with no white space at either end is its own `strip()`. */
  lemma StripClean(s: string)
    requires s == [] || (!IsSpace(s[0]) && !IsSpace(s[|s| - 1]))
    ensures Strip(s) == s
  {
    if s != [] {
      StripAfterPrefix(s, []);
      assert s + [] == s;
    }
  }

  /** White space around a text that has none at its ends is exactly what `strip()` removes. */
  lemma StripPadded(ws1: string, s: string, ws2: string)
    requires forall k :: 0 <= k < |ws1| ==> IsSpace(ws1[k])
    requires forall k :: 0 <= k < |ws2| ==> IsSpace(ws2[k])
    requires s != [] && !IsSpace(s[0]) && !IsSpace(s[|s| - 1])
    ensures Strip(ws1 + s + ws2) == s
  {
    var p := ws1 + s;
    assert p[|p| - 1] == s[|s| - 1];
    TrimRightAfter(p, ws2);
    TrimRightSpaces(ws2);
    assert p + [] == p;
    TrimLeftBefore(ws1, s);
  }

  /** Only white space trims to nothing. */
  lemma {:induction false} TrimRightSpaces(ws: string)
    requires forall k :: 0 <= k < |ws| ==> IsSpace(ws[k])
    ensures TrimRight(ws) == []
    decreases |ws|
  {
    if ws != [] {
      TrimRightSpaces(ws[..|ws| - 1]);
    }
  }

  /** Leading white space before a non-space character is all that `lstrip()` removes. */
  lemma {:induction false} TrimLeftBefore(ws: string, s: string)
    requires forall k :: 0 <= k < |ws| ==> IsSpace(ws[k])
    requires s != [] && !IsSpace(s[0])
    ensures TrimLeft(ws + s) == s
    decreases |ws|
  {
    if ws == [] {
      assert ws + s == s;
    } else {
      assert (ws + s)[0] == ws[0] && (ws + s)[1..] == ws[1..] + s;
      TrimLeftBefore(ws[1..], s);
    }
  }

  /** A string that starts with a non-space character keeps that start under `strip()`. */
  lemma StripKeepsPrefix(p: string, s: string)
    requires p <= s
    requires p != [] && !IsSpace(p[0]) && !IsSpace(p[|p| - 1])
    ensures p <= Strip(s)
  {
    assert s == p + s[|p|..];
    StripAfterPrefix(p, s[|p|..]);
  }

  function UpperChar(c: char): char
  {
    if 'a' <= c <= 'z' then (c as int - 32) as char else c
  }

  function LowerChar(c: char): char
  {
    if 'A' <= c <= 'Z' then (c as int + 32) as char else c
  }

  /** `s.upper()` on ASCII letters. */
  function Upper(s: string): string
  {
    seq(|s|, i requires 0 <= i < |s| => UpperChar(s[i]))
  }

  lemma UpperMatches(s: string, t: string)
    requires |s| == |t| && forall i :: 0 <= i < |s| ==> UpperChar(s[i]) == t[i]
    ensures Upper(s) == t
  {
  }

  lemma UpperConcat(a: string, b: string)
    ensures Upper(a + b) == Upper(a) + Upper(b)
  {
    assert forall i :: 0 <= i < |a + b| ==> (a + b)[i] == if i < |a| then a[i] else b[i - |a|];
  }

  lemma UpperIdempotent(s: string)
    ensures Upper(Upper(s)) == Upper(s)
  {
  }

  /** Upper-casing never creates or removes white space, so it commutes with `strip()`. */
  lemma {:induction false} UpperTrimRight(s: string)
    ensures Upper(TrimRight(s)) == TrimRight(Upper(s))
    decreases |s|
  {
    if s != [] && IsSpace(s[|s| - 1]) {
      assert Upper(s)[..|s| - 1] == Upper(s[..|s| - 1]);
      UpperTrimRight(s[..|s| - 1]);
    }
  }

  lemma {:induction false} UpperTrimLeft(s: string)
    ensures Upper(TrimLeft(s)) == TrimLeft(Upper(s))
    decreases |s|
  {
    if s != [] && IsSpace(s[0]) {
      assert Upper(s)[1..] == Upper(s[1..]);
      UpperTrimLeft(s[1..]);
    }
  }

  lemma UpperStrip(s: string)
    ensures Upper(Strip(s)) == Strip(Upper(s))
  {
    UpperTrimRight(s);
    UpperTrimLeft(TrimRight(s));
  }

  /** `s.lower()` on ASCII letters. */
  function Lower(s: string): string
  {
    seq(|s|, i requires 0 <= i < |s| => LowerChar(s[i]))
  }

  lemma LowerConcat(a: string, b: string)
    ensures Lower(a + b) == Lower(a) + Lower(b)
  {
    assert forall i :: 0 <= i < |a + b| ==> (a + b)[i] == if i < |a| then a[i] else b[i - |a|];
  }

  lemma LowerMatches(s: string, t: string)
    requires |s| == |t| && forall i :: 0 <= i < |s| ==> LowerChar(s[i]) == t[i]
    ensures Lower(s) == t
  {
  }

  /** `s.endswith(x)` */
  predicate EndsWith(s: string, x: string)
  {
    |x| <= |s| && s[|s| - |x|..] == x
  }

  /** `s.isdigit()` on ASCII digits: non-empty and digits only. */
  predicate IsDigits(s: string)
  {
    s != [] && forall i :: 0 <= i < |s| ==> '0' <= s[i] <= '9'
  }

  /**
   * `s.replace(pat, rep)`: scans from the left and replaces every
   * non-overlapping occurrence of `pat`.
   */
  function Replace(s: string, pat: string, rep: string): string
    requires pat != []
    decreases |s|
  {
    if |s| < |pat| then s
    else if s[..|pat|] == pat then rep + Replace(s[|pat|..], pat, rep)
    else [s[0]] + Replace(s[1..], pat, rep)
  }

  /** Replacement scans from the left, so a leading occurrence is consumed first. */
  lemma ReplaceLeading(pat: string, s: string, rep: string)
    requires pat != []
    ensures Replace(pat + s, pat, rep) == rep + Replace(s, pat, rep)
  {
    assert (pat + s)[..|pat|] == pat;
    assert (pat + s)[|pat|..] == s;
  }

  /** A stretch that never holds the pattern's first character passes through unchanged. */
  lemma {:induction false} ReplaceSkip(a: string, b: string, pat: string, rep: string)
    requires pat != [] && pat[0] !in a
    ensures Replace(a + b, pat, rep) == a + Replace(b, pat, rep)
    decreases |a|
  {
    if a == [] {
      assert a + b == b;
    } else {
      var s := a + b;
      assert s[0] == a[0] && s[1..] == a[1..] + b;
      ReplaceSkip(a[1..], b, pat, rep);
      if |s| < |pat| {
        ReplaceShort(b, pat, rep);
        ReplaceShort(a[1..] + b, pat, rep);
      }
    }
  }

  lemma ReplaceShort(s: string, pat: string, rep: string)
    requires pat != [] && |s| < |pat|
    ensures Replace(s, pat, rep) == s
  {
  }

  /** Without the pattern's first character nothing is replaced. */
  lemma ReplaceAbsent(a: string, pat: string, rep: string)
    requires pat != [] && pat[0] !in a
    ensures Replace(a, pat, rep) == a
  {
    ReplaceSkip(a, [], pat, rep);
    assert a + [] == a;
  }

  /** Replacing one character by another maps the string character by character. */
  lemma {:induction false} ReplaceChar(s: string, a: char, b: char)
    ensures var r := Replace(s, [a], [b]);
      |r| == |s| && forall i :: 0 <= i < |s| ==> r[i] == if s[i] == a then b else s[i]
    decreases |s|
  {
    if s != [] {
      ReplaceChar(s[1..], a, b);
      assert s[..1] == [s[0]];
    }
  }

  /** The characters of `s` other than `c`, in order. */
  function Without(s: string, c: char): (r: string)
    ensures c !in r && |r| <= |s|
    ensures forall x :: x != c ==> (x in r <==> x in s)
  {
    if s == [] then [] else (if s[0] == c then [] else [s[0]]) + Without(s[1..], c)
  }

  /** Replacing a character by nothing deletes every occurrence of it and keeps the rest in order. */
  lemma {:induction false} ReplaceDelete(s: string, c: char)
    ensures Replace(s, [c], "") == Without(s, c)
    decreases |s|
  {
    if s != [] {
      ReplaceDelete(s[1..], c);
      assert s[..1] == [s[0]];
    }
  }

  /** `s.split(sep)` for a one-character separator. */
  function Split(s: string, sep: char): (r: seq<string>)
    ensures |r| >= 1
    ensures sep in s <==> |r| >= 2
    ensures forall i :: 0 <= i < |r| ==> sep !in r[i]
  {
    if s == [] then [""]
    else
      var rest := Split(s[1..], sep);
      if s[0] == sep then [""] + rest else [[s[0]] + rest[0]] + rest[1..]
  }

  /** `sep.join(parts)` */
  function JoinWith(parts: seq<string>, sep: string): string
  {
    if parts == [] then ""
    else if |parts| == 1 then parts[0]
    else parts[0] + sep + JoinWith(parts[1..], sep)
  }

  /** Joining the fields of a split with the separator gives the string back. */
  lemma {:induction false} SplitJoin(s: string, sep: char)
    ensures JoinWith(Split(s, sep), [sep]) == s
  {
    if s != [] {
      SplitJoin(s[1..], sep);
      var rest := Split(s[1..], sep);
      if s[0] == sep {
        assert [s[0]] + s[1..] == s;
      } else {
        if |rest| == 1 {
          assert [s[0]] + rest[0] == s;
        } else {
          assert JoinWith(rest, [sep]) == rest[0] + [sep] + JoinWith(rest[1..], [sep]);
          assert [s[0]] + s[1..] == s;
        }
      }
    }
  }

  /** A field that holds no separator splits off as the first field. */
  lemma {:induction false} SplitAt(a: string, sep: char, b: string)
    requires sep !in a
    ensures Split(a + [sep] + b, sep) == [a] + Split(b, sep)
  {
    if a != [] {
      SplitAt(a[1..], sep, b);
      assert (a + [sep] + b)[1..] == a[1..] + [sep] + b;
      assert [a[0]] + a[1..] == a;
    } else {
      assert a + [sep] + b == [sep] + b;
    }
  }

  /** A string without the separator is a single field. */
  lemma {:induction false} SplitNone(a: string, sep: char)
    requires sep !in a
    ensures Split(a, sep) == [a]
  {
    if a != [] {
      SplitNone(a[1..], sep);
      assert [a[0]] + a[1..] == a;
    }
  }

  /** Four separator-free fields joined by the separator split back into those fields. */
  lemma SplitFour(a: string, b: string, c: string, d: string, sep: char)
    requires sep !in a && sep !in b && sep !in c && sep !in d
    ensures Split(a + [sep] + (b + [sep] + (c + [sep] + d)), sep) == [a, b, c, d]
  {
    SplitAt(a, sep, b + [sep] + (c + [sep] + d));
    SplitAt(b, sep, c + [sep] + d);
    SplitAt(c, sep, d);
    SplitNone(d, sep);
    Four(a, b, c, d);
  }

  /** Three separator-free fields joined by the separator split back into those fields. */
  lemma SplitThree(a: string, b: string, c: string, sep: char)
    requires sep !in a && sep !in b && sep !in c
    ensures Split(a + [sep] + (b + [sep] + c), sep) == [a, b, c]
  {
    SplitAt(a, sep, b + [sep] + c);
    SplitAt(b, sep, c);
    SplitNone(c, sep);
    Three(a, b, c);
  }

  /** `s.split(c, 1)[1]`: everything after the first `c`. */
  function AfterFirst(s: string, c: char): (r: string)
    requires c in s
    ensures |r| < |s| && r == s[|s| - |r|..]
    ensures s[|s| - |r| - 1] == c && c !in s[..|s| - |r| - 1]
  {
    if s[0] == c then s[1..] else AfterFirst(s[1..], c)
  }

  /** After a prefix whose only `c` is its last character, the rest is what follows it. */
  lemma AfterFirstPrefix(p: string, v: string, c: char)
    requires p != [] && p[|p| - 1] == c && c !in p[..|p| - 1]
    ensures c in p + v && AfterFirst(p + v, c) == v
  {
    var s := p + v;
    assert s[|p| - 1] == c;
    var r := AfterFirst(s, c);
    var i := |s| - |r| - 1;
    assert forall j :: 0 <= j < |p| - 1 ==> s[j] == p[..|p| - 1][j];
  }
}
