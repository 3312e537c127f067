/**
 * The Python `str` operations the views and models rely on: `lower`,
 * `capitalize`, `strip`, `endswith`, the `in` operator, `split` with an
 * explicit separator, and `isdigit`. Case mapping is modelled for ASCII only.
 */
module Text {
  import opened Wrappers

  function LowerChar(c: char): char
  {
    if 'A' <= c <= 'Z' then (c as int + 32) as char else c
  }

  function UpperChar(c: char): char
  {
    if 'a' <= c <= 'z' then (c as int - 32) as char else c
  }

  /** `s.lower()` */
  function Lower(s: string): (r: string)
    ensures |r| == |s|
    ensures forall i :: 0 <= i < |s| ==> r[i] == LowerChar(s[i])
  {
    if s == [] then [] else [LowerChar(s[0])] + Lower(s[1..])
  }

  /** `s.capitalize()`: first character upper-cased, the rest lower-cased. */
  function Capitalize(s: string): (r: string)
    ensures |r| == |s|
    ensures s != [] ==> r[0] == UpperChar(s[0]) && r[1..] == Lower(s[1..])
  {
    if s == [] then [] else [UpperChar(s[0])] + Lower(s[1..])
  }

  lemma LowerIdempotent(s: string)
    ensures Lower(Lower(s)) == Lower(s)
  {
  }

  lemma {:induction false} LowerAppend(a: string, b: string)
    ensures Lower(a + b) == Lower(a) + Lower(b)
  {
    assert forall i :: 0 <= i < |a + b| ==> Lower(a + b)[i] == (Lower(a) + Lower(b))[i];
  }

  /** Normalising twice gives the same as normalising once. */
  lemma {:induction false} CapitalizeIdempotent(s: string)
    ensures Capitalize(Capitalize(s)) == Capitalize(s)
  {
    if s != [] {
      var c := Capitalize(s);
      assert c[1..] == Lower(s[1..]);
      LowerIdempotent(s[1..]);
    }
  }

  /** `capitalize` looks at letters without regard to their case. */
  lemma CapitalizeIgnoresCase(s: string)
    ensures Capitalize(Lower(s)) == Capitalize(s)
  {
    if s != [] {
      var l := Lower(s);
      assert UpperChar(l[0]) == UpperChar(s[0]);
      LowerSuffix(s, 1);
      LowerIdempotent(s[1..]);
    }
  }

  lemma LowerSuffix(s: string, n: nat)
    requires n <= |s|
    ensures Lower(s)[n..] == Lower(s[n..])
  {
    assert s == s[..n] + s[n..];
    LowerAppend(s[..n], s[n..]);
  }

  /** Concatenation regrouped; stated once so that proofs need not rediscover it. */
  lemma Regroup<T>(a: seq<T>, b: seq<T>, c: seq<T>)
    ensures a + b + c == a + (b + c)
  {
  }

  /** `str.isspace()` for one character: the characters Python's `strip()` removes. */
  predicate IsSpace(c: char)
  {
    var n := c as int;
    (9 <= n <= 13) || (28 <= n <= 32) || n == 0x85 || n == 0xA0 || n == 0x1680
    || (0x2000 <= n <= 0x200A) || n == 0x2028 || n == 0x2029 || n == 0x202F
    || n == 0x205F || n == 0x3000
  }

  /** `s.rstrip()` */
  function RStrip(s: string): (r: string)
    ensures |r| <= |s| && r == s[..|r|]
    ensures r == [] || !IsSpace(r[|r| - 1])
    ensures forall i :: |r| <= i < |s| ==> IsSpace(s[i])
  {
    if s == [] || !IsSpace(s[|s| - 1]) then s else RStrip(s[..|s| - 1])
  }

  /** `s.lstrip()` */
  function LStrip(s: string): (r: string)
    ensures |r| <= |s| && r == s[|s| - |r|..]
    ensures r == [] || !IsSpace(r[0])
    ensures forall i :: 0 <= i < |s| - |r| ==> IsSpace(s[i])
  {
    if s == [] || !IsSpace(s[0]) then s else LStrip(s[1..])
  }

  /** `s.strip()` */
  function Strip(s: string): (r: string)
    ensures |r| <= |s|
    ensures r == [] || (!IsSpace(r[0]) && !IsSpace(r[|r| - 1]))
    ensures Contains(s, r)
    ensures var n := |RStrip(s)|;
      |r| <= n && OccursAt(s, r, n - |r|)
      && (forall k :: 0 <= k < n - |r| ==> IsSpace(s[k]))
      && (forall k :: n <= k < |s| ==> IsSpace(s[k]))
  {
    StripInside(s);
    LStrip(RStrip(s))
  }

  /**
   * What stripping both ends keeps is a piece of the text with visible ends,
   * and everything cut off on either side is whitespace.
   */
  lemma StripInside(s: string)
    ensures var t := RStrip(s); var r := LStrip(t);
      (r == [] || (!IsSpace(r[0]) && !IsSpace(r[|r| - 1])))
      && OccursAt(s, r, |t| - |r|)
      && (forall k :: 0 <= k < |t| - |r| ==> IsSpace(s[k]))
  {
    var t := RStrip(s);
    var r := LStrip(t);
    var i := |t| - |r|;
    if r != [] {
      assert r[|r| - 1] == t[|t| - 1];
    }
    TailOfPrefix(s, t, i);
    forall k | 0 <= k < i
      ensures IsSpace(s[k])
    {
      assert s[k] == t[k];
    }
  }

  /** A tail of a prefix is a slice of the whole. */
  lemma TailOfPrefix(s: string, t: string, i: nat)
    requires |t| <= |s| && t == s[..|t|] && i <= |t|
    ensures t[i..] == s[i..|t|]
  {
  }

  /** `s.endswith(suffix)` */
  predicate EndsWith(s: string, suffix: string)
  {
    |suffix| <= |s| && s[|s| - |suffix|..] == suffix
  }

  /** `s.lower().endswith(".pdf")`, the document-type test of the views. */
  predicate EndsWithPdf(s: string)
  {
    EndsWith(Lower(s), ".pdf")
  }

  /** A character that lower-cases to '.' is '.' itself. */
  lemma LowerDot(c: char)
    ensures LowerChar(c) == '.' <==> c == '.'
  {
  }

  /** A trailing ".pdf" in any case is a '.' followed by three characters, none of them '.', '/' or whitespace. */
  lemma EndsWithPdfShape(s: string)
    requires EndsWithPdf(s)
    ensures |s| >= 4 && s[|s| - 4] == '.'
    ensures forall i :: |s| - 3 <= i < |s| ==> s[i] != '.' && s[i] != '/' && !IsSpace(s[i])
  {
    var l := Lower(s);
    assert l[|s| - 4..] == ".pdf";
    assert l[|s| - 4] == '.';
    LowerDot(s[|s| - 4]);
    forall i | |s| - 3 <= i < |s|
      ensures s[i] != '.' && s[i] != '/' && !IsSpace(s[i])
    {
      assert l[i] == ".pdf"[i - (|s| - 4)];
    }
  }

  /** The `.pdf` test only looks at the last four characters. */
  lemma EndsWithPdfSuffix(a: string, b: string)
    requires |b| >= 4
    ensures EndsWithPdf(a + b) <==> EndsWithPdf(b)
  {
    LowerAppend(a, b);
    assert (a + b)[|a + b| - 4..] == b[|b| - 4..];
    assert Lower(a + b)[|a + b| - 4..] == Lower(b)[|b| - 4..];
  }

  /** A `.pdf` ending cannot reach back into text whose last four characters hold no '.'. */
  lemma EndsWithPdfShort(a: string, b: string)
    requires |b| < 4 && |a| >= 4
    requires forall i :: |a| - 4 <= i < |a| ==> a[i] != '.'
    ensures !EndsWithPdf(a + b) && !EndsWithPdf(b)
  {
    if EndsWithPdf(a + b) {
      EndsWithPdfShape(a + b);
    }
  }

  // ---------------------------------------------------------------
  // Substrings: `w in s`, `s.find(w)` and `s.split(w)`
  // ---------------------------------------------------------------

  predicate OccursAt(s: string, w: string, i: int)
  {
    0 <= i && i + |w| <= |s| && s[i..i + |w|] == w
  }

  /** Python's `w in s`. */
  predicate Contains(s: string, w: string)
  {
    exists i :: 0 <= i <= |s| - |w| && OccursAt(s, w, i)
  }

  lemma OccursShift(s: string, w: string, i: int, m: nat)
    requires m <= |s|
    ensures OccursAt(s[m..], w, i) <==> i >= 0 && OccursAt(s, w, i + m)
  {
    if 0 <= i && i + |w| <= |s| - m {
      assert s[m..][i..i + |w|] == s[i + m..i + m + |w|];
    }
  }

  lemma OccursPrefix(s: string, w: string, i: int, n: nat)
    requires n <= |s|
    ensures OccursAt(s[..n], w, i) <==> OccursAt(s, w, i) && i + |w| <= n
  {
    if 0 <= i && i + |w| <= n {
      assert s[..n][i..i + |w|] == s[i..i + |w|];
    }
  }

  /** An occurrence in the front part is an occurrence in the whole. */
  lemma ContainsLeft(x: string, y: string, w: string)
    requires Contains(x, w)
    ensures Contains(x + y, w)
  {
    var i :| 0 <= i <= |x| - |w| && OccursAt(x, w, i);
    OccursPrefix(x + y, w, i, |x|);
    assert (x + y)[..|x|] == x;
  }

  /** An occurrence in the back part is an occurrence in the whole. */
  lemma ContainsRight(x: string, y: string, w: string)
    requires Contains(y, w)
    ensures Contains(x + y, w)
  {
    var i :| 0 <= i <= |y| - |w| && OccursAt(y, w, i);
    OccursShift(x + y, w, i, |x|);
    assert (x + y)[|x|..] == y;
  }

  /** Python's `s.find(w)`, with `None` for -1: the first index where `w` occurs. */
  function IndexOf(s: string, w: string): (r: Option<nat>)
    requires w != []
    ensures r.Some? ==> OccursAt(s, w, r.value)
    ensures r.Some? ==> forall j :: 0 <= j < r.value ==> !OccursAt(s, w, j)
    ensures r.None? <==> !Contains(s, w)
    decreases |s|
  {
    if |s| < |w| then
      None
    else if s[..|w|] == w then
      assert OccursAt(s, w, 0);
      Some(0)
    else
      var rest := IndexOf(s[1..], w);
      assert forall j :: OccursAt(s[1..], w, j) <==> j >= 0 && OccursAt(s, w, j + 1) by {
        forall j { OccursShift(s, w, j, 1); }
      }
      assert forall j :: OccursAt(s, w, j) ==> j >= 1 && OccursAt(s[1..], w, j - 1) by {
        forall j | OccursAt(s, w, j) { OccursShift(s, w, j - 1, 1); }
      }
      match rest
      case None => None
      case Some(k) => Some(k + 1)
  }

  /** The first occurrence is the only occurrence that has none before it. */
  lemma IndexOfUnique(s: string, w: string, i: nat)
    requires w != []
    requires OccursAt(s, w, i)
    requires forall j :: 0 <= j < i ==> !OccursAt(s, w, j)
    ensures IndexOf(s, w) == Some(i)
  {
  }

  /** The inverse of `Split`: `w.join(parts)`. */
  function Join(parts: seq<string>, w: string): string
    requires |parts| >= 1
  {
    if |parts| == 1 then parts[0] else parts[0] + w + Join(parts[1..], w)
  }

  /**
   * Python's `s.split(w)` for a non-empty separator: scan left to right,
   * cut at each occurrence, and resume the scan after it.
   */
  function Split(s: string, w: string): (parts: seq<string>)
    requires w != []
    ensures |parts| >= 1
    ensures Join(parts, w) == s
    ensures forall k :: 0 <= k < |parts| ==> !Contains(parts[k], w)
    ensures |parts| == 1 <==> !Contains(s, w)
    ensures forall k :: 0 <= k < |parts| - 1 ==> IndexOf(Join(parts[k..], w), w) == Some(|parts[k]|)
    decreases |s|
  {
    match IndexOf(s, w)
    case None => [s]
    case Some(i) =>
      SplitHead(s, w, i);
      [s[..i]] + Split(s[i + |w|..], w)
  }

  /** The text before the first occurrence holds no occurrence. */
  lemma SplitHead(s: string, w: string, i: nat)
    requires w != [] && IndexOf(s, w) == Some(i)
    ensures !Contains(s[..i], w)
    ensures s == s[..i] + w + s[i + |w|..]
  {
    forall j ensures !OccursAt(s[..i], w, j) { OccursPrefix(s, w, j, i); }
    Around(s, i, i + |w|);
  }

  /** A text is its three pieces around a cut, put back together. */
  lemma Around<T>(s: seq<T>, i: nat, j: nat)
    requires i <= j <= |s|
    ensures s == s[..i] + s[i..j] + s[j..]
  {
  }

  /** `s.split(w)` yields exactly two parts iff the scan finds one cut and nothing after it. */
  lemma SplitTwo(s: string, w: string)
    requires w != []
    ensures |Split(s, w)| == 2 <==>
      IndexOf(s, w).Some? && !Contains(s[IndexOf(s, w).value + |w|..], w)
    ensures |Split(s, w)| == 2 ==>
      Split(s, w) == [s[..IndexOf(s, w).value], s[IndexOf(s, w).value + |w|..]]
  {
  }

  // ---------------------------------------------------------------
  // Digits
  // ---------------------------------------------------------------

  predicate IsDigitChar(c: char)
  {
    '0' <= c <= '9'
  }

  /** `s.isdigit()`: non-empty and every character a digit. */
  predicate IsDigits(s: string)
  {
    s != [] && forall i :: 0 <= i < |s| ==> IsDigitChar(s[i])
  }
}
