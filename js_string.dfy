/**
 * The JavaScript string built-ins the core relies on (`trim`, `startsWith`, `endsWith`,
 * `includes`, `split` on one character, `Array.prototype.join`, `slice`, `substring`,
 * `toLowerCase`, a global `replace` of a literal pattern, and the decimal `toString`
 * of a non-negative integer), each stated on `seq<char>` together with what it means.
 */
module JsString {

  // ---------------------------------------------------------------------------------
  // Whitespace and trimming

  /** ECMAScript WhiteSpace and LineTerminator code points: exactly what `trim` removes
      (the Zs category as of Unicode 15, plus TAB, VT, FF, ZWNBSP, LF, CR, LS and PS). */
  predicate IsWhitespace(c: char) {
    c in WhitespaceSet || ('\U{2000}' <= c <= '\U{200A}')
  }

  const WhitespaceSet: set<char> := {
    '\t', '\n', '\U{000B}', '\U{000C}', '\r', ' ', '\U{00A0}', '\U{1680}',
    '\U{2028}', '\U{2029}', '\U{202F}', '\U{205F}', '\U{3000}', '\U{FEFF}'
  }

  /** The code points a regular-expression `.` does not match. */
  predicate IsLineTerminator(c: char) {
    c == '\n' || c == '\r' || c == '\U{2028}' || c == '\U{2029}'
  }

  predicate AllWhitespace(s: string) {
    forall i :: 0 <= i < |s| ==> IsWhitespace(s[i])
  }

  /** The index of the first non-whitespace character at or after `i` (or `|s|`). */
  function SkipWhitespace(s: string, i: nat): (r: nat)
    requires i <= |s|
    ensures i <= r <= |s|
    ensures forall k :: i <= k < r ==> IsWhitespace(s[k])
    ensures r < |s| ==> !IsWhitespace(s[r])
    decreases |s| - i
  {
    if i < |s| && IsWhitespace(s[i]) then SkipWhitespace(s, i + 1) else i
  }

  /** The end of `s[lo..j]` once its trailing whitespace is dropped. */
  function BackWhitespace(s: string, lo: nat, j: nat): (r: nat)
    requires lo <= j <= |s|
    ensures lo <= r <= j
    ensures forall k :: r <= k < j ==> IsWhitespace(s[k])
    ensures r > lo ==> !IsWhitespace(s[r - 1])
    decreases j
  {
    if j > lo && IsWhitespace(s[j - 1]) then BackWhitespace(s, lo, j - 1) else j
  }

  /** `String.prototype.trim`: the infix of `s` that starts after its leading whitespace
      and stops before its trailing whitespace; it is empty exactly when `s` is all
      whitespace. */
  function Trim(s: string): (r: string)
    ensures exists i, j ::
              && 0 <= i <= j <= |s| && r == s[i..j]
              && (forall k :: 0 <= k < i ==> IsWhitespace(s[k]))
              && (forall k :: j <= k < |s| ==> IsWhitespace(s[k]))
    ensures r != [] ==> !IsWhitespace(r[0]) && !IsWhitespace(r[|r| - 1])
    ensures r == [] <==> AllWhitespace(s)
  {
    var i := SkipWhitespace(s, 0);
    var j := BackWhitespace(s, i, |s|);
    assert j == i ==> AllWhitespace(s);
    s[i..j]
  }

  lemma {:induction false} TrimIdempotent(s: string)
    ensures Trim(Trim(s)) == Trim(s)
  {
    var r := Trim(s);
    TrimOfBordered(r);
  }

  /** A string with no whitespace at either end (or the empty string) is left as it is. */
  lemma {:induction false} TrimOfBordered(s: string)
    requires s == [] || (!IsWhitespace(s[0]) && !IsWhitespace(s[|s| - 1]))
    ensures Trim(s) == s
  {
  }

  lemma {:induction false} SkipPrefix(w: string, s: string, i: nat)
    requires i <= |w| && forall k :: i <= k < |w| ==> IsWhitespace(w[k])
    ensures SkipWhitespace(w + s, i) == |w| + SkipWhitespace(s, 0)
    decreases |w| - i
  {
    var t := w + s;
    if i < |w| {
      assert t[i] == w[i];
      SkipPrefix(w, s, i + 1);
    } else {
      SkipShift(w, s, 0);
    }
  }

  lemma {:induction false} SkipShift(w: string, s: string, i: nat)
    requires i <= |s|
    ensures SkipWhitespace(w + s, |w| + i) == |w| + SkipWhitespace(s, i)
    decreases |s| - i
  {
    var t := w + s;
    if i < |s| {
      assert t[|w| + i] == s[i];
      if IsWhitespace(s[i]) {
        SkipShift(w, s, i + 1);
      }
    }
  }

  lemma {:induction false} BackShift(w: string, s: string, lo: nat, j: nat)
    requires lo <= j <= |s|
    ensures BackWhitespace(w + s, |w| + lo, |w| + j) == |w| + BackWhitespace(s, lo, j)
    decreases j
  {
    var t := w + s;
    if j > lo {
      assert t[|w| + j - 1] == s[j - 1];
      if IsWhitespace(s[j - 1]) {
        BackShift(w, s, lo, j - 1);
      }
    }
  }

  /** Leading whitespace makes no difference to `trim`. */
  lemma TrimLeading(w: string, s: string)
    requires AllWhitespace(w)
    ensures Trim(w + s) == Trim(s)
  {
    var i := SkipWhitespace(s, 0);
    var j := BackWhitespace(s, i, |s|);
    SkipPrefix(w, s, 0);
    BackShift(w, s, i, |s|);
    TrimBounds(w + s, |w| + i, |w| + j);
    TrimBounds(s, i, j);
    SliceAfter(w, s, i, j);
  }

  lemma SliceAfter(w: string, s: string, i: nat, j: nat)
    requires i <= j <= |s|
    ensures (w + s)[|w| + i..|w| + j] == s[i..j]
  {
    assert (w + s)[|w|..] == s;
    assert (w + s)[|w| + i..|w| + j] == (w + s)[|w|..][i..j];
  }

  lemma TrimBounds(s: string, i: nat, j: nat)
    requires i == SkipWhitespace(s, 0) && i <= |s| && j == BackWhitespace(s, i, |s|)
    ensures Trim(s) == s[i..j]
  {
  }



  // ---------------------------------------------------------------------------------
  // Prefix, suffix and substring tests

  /** `s.startsWith(p)` */
  predicate StartsWith(s: string, p: string) {
    |p| <= |s| && s[..|p|] == p
  }

  /** `s.endsWith(p)` */
  predicate EndsWith(s: string, p: string) {
    |p| <= |s| && s[|s| - |p|..] == p
  }

  /** `t` occurs in `s` at index `i`. */
  predicate OccursAt(s: string, t: string, i: int) {
    0 <= i && i + |t| <= |s| && s[i..i + |t|] == t
  }

  /** `s.includes(t)`, computed as JavaScript's search does: try every start position.
      It holds exactly when `t` occurs somewhere in `s`. */
  function Includes(s: string, t: string): (r: bool)
    ensures r <==> exists i :: OccursAt(s, t, i)
    decreases |s|
  {
    OccursFirstOrLater(s, t);
    StartsWith(s, t) || (s != [] && Includes(s[1..], t))
  }

  /** `t` occurs in `s` either at the front or somewhere in the tail. */
  lemma OccursFirstOrLater(s: string, t: string)
    ensures (exists i :: OccursAt(s, t, i)) <==>
              StartsWith(s, t) || (s != [] && exists i :: OccursAt(s[1..], t, i))
  {
    if StartsWith(s, t) {
      assert OccursAt(s, t, 0);
    } else if s == [] {
      assert forall i :: !OccursAt(s, t, i);
    } else {
      if exists i :: OccursAt(s[1..], t, i) {
        var i :| OccursAt(s[1..], t, i);
        OccursTail(s, t, i + 1);
      }
      forall i | OccursAt(s, t, i) ensures OccursAt(s[1..], t, i - 1) {
        assert i != 0;
        OccursTail(s, t, i);
      }
    }
  }

  /** An occurrence after the first character is an occurrence in the tail. */
  lemma OccursTail(s: string, t: string, i: int)
    requires s != [] && 1 <= i
    ensures OccursAt(s, t, i) <==> OccursAt(s[1..], t, i - 1)
  {
    if i + |t| <= |s| {
      var a := s[i..i + |t|];
      var b := s[1..][i - 1..i - 1 + |t|];
      forall k | 0 <= k < |t|
        ensures a[k] == b[k]
      {
        assert a[k] == s[i + k];
        assert b[k] == s[1..][i - 1 + k];
      }
      assert a == b;
    }
  }

  /** `includes` of a part placed anywhere in a concatenation. */
  lemma IncludesInfix(a: string, t: string, b: string)
    ensures Includes(a + t + b, t)
  {
    var s := a + t + b;
    assert s[|a|..|a| + |t|] == t;
    assert OccursAt(s, t, |a|);
  }

  /** What a string includes, any longer string around it includes too. */
  lemma IncludesWrapped(p: string, m: string, q: string, t: string)
    requires Includes(m, t)
    ensures Includes(p + m + q, t)
  {
    var i :| OccursAt(m, t, i);
    var s := p + m + q;
    assert s[|p| + i..|p| + i + |t|] == m[i..i + |t|];
    assert OccursAt(s, t, |p| + i);
  }

  // ---------------------------------------------------------------------------------
  // Splitting on one character and joining

  /** `s.split(c)` for a one-character separator: the maximal runs between separators,
      always at least one (`"".split(c)` is `[""]`). */
  function Split(s: string, c: char): (r: seq<string>)
    ensures |r| >= 1
    decreases |s|
  {
    if s == [] then [""]
    else
      var rest := Split(s[1..], c);
      if s[0] == c then [""] + rest else [[s[0]] + rest[0]] + rest[1..]
  }

  /** A split yields one piece more than there are separators. */
  lemma {:induction false} SplitCount(s: string, c: char)
    ensures |Split(s, c)| == multiset(s)[c] + 1
    decreases |s|
  {
    if s != [] {
      SplitCount(s[1..], c);
      assert s == [s[0]] + s[1..];
      assert multiset(s) == multiset([s[0]]) + multiset(s[1..]);
    }
  }

  /** `xs.join(sep)`. */
  function Join(xs: seq<string>, sep: string): string
    decreases |xs|
  {
    if xs == [] then ""
    else if |xs| == 1 then xs[0]
    else xs[0] + sep + Join(xs[1..], sep)
  }

  /** Every element of a joined list appears in the joined string. */
  lemma {:induction false} JoinInfix(xs: seq<string>, sep: string, k: nat)
    requires k < |xs|
    ensures exists a, b :: Join(xs, sep) == a + xs[k] + b
    decreases k
  {
    if |xs| == 1 {
      assert Join(xs, sep) == "" + xs[k] + "";
    } else if k == 0 {
      assert Join(xs, sep) == "" + xs[0] + (sep + Join(xs[1..], sep));
    } else {
      JoinInfix(xs[1..], sep, k - 1);
      var a, b :| Join(xs[1..], sep) == a + xs[1..][k - 1] + b;
      assert Join(xs, sep) == (xs[0] + sep + a) + xs[k] + b;
    }
  }

  lemma JoinIncludes(xs: seq<string>, sep: string, k: nat)
    requires k < |xs|
    ensures Includes(Join(xs, sep), xs[k])
  {
    JoinInfix(xs, sep, k);
    var a, b :| Join(xs, sep) == a + xs[k] + b;
    IncludesInfix(a, xs[k], b);
  }

  /** Every element of a joined list appears in the joined string, whatever text is put
      around it. */
  lemma FramedJoinIncludes(p: string, xs: seq<string>, sep: string, q: string)
    ensures forall k :: 0 <= k < |xs| ==> Includes(p + Join(xs, sep) + q, xs[k])
  {
    forall k | 0 <= k < |xs| ensures Includes(p + Join(xs, sep) + q, xs[k]) {
      JoinIncludes(xs, sep, k);
      IncludesWrapped(p, Join(xs, sep), q, xs[k]);
    }
  }

  /** No piece of a split contains the separator. */
  lemma {:induction false} SplitPiecesFree(s: string, c: char)
    ensures forall k :: 0 <= k < |Split(s, c)| ==> c !in Split(s, c)[k]
    decreases |s|
  {
    if s != [] {
      SplitPiecesFree(s[1..], c);
    }
  }

  /** Joining the pieces of a split with the separator gives back the string. */
  lemma {:induction false} JoinSplit(s: string, c: char)
    ensures Join(Split(s, c), [c]) == s
    decreases |s|
  {
    if s != [] {
      JoinSplit(s[1..], c);
      if s[0] == c {
        JoinAfterSeparator(s, c);
      } else {
        JoinAfterChar(s, c);
      }
    }
  }

  lemma JoinAfterSeparator(s: string, c: char)
    requires s != [] && s[0] == c && Join(Split(s[1..], c), [c]) == s[1..]
    ensures Join(Split(s, c), [c]) == s
  {
    var rest := Split(s[1..], c);
    assert Split(s, c) == [""] + rest;
    assert ([""] + rest)[1..] == rest;
    assert Join([""] + rest, [c]) == "" + [c] + Join(rest, [c]);
    assert [s[0]] + s[1..] == s;
  }

  lemma JoinAfterChar(s: string, c: char)
    requires s != [] && s[0] != c && Join(Split(s[1..], c), [c]) == s[1..]
    ensures Join(Split(s, c), [c]) == s
  {
    var rest := Split(s[1..], c);
    assert Split(s, c) == [[s[0]] + rest[0]] + rest[1..];
    JoinPrepend([s[0]], rest, [c]);
    assert [s[0]] + s[1..] == s;
  }

  /** Putting text in front of the first element puts it in front of the join. */
  lemma JoinPrepend(a: string, rest: seq<string>, sep: string)
    requires |rest| >= 1
    ensures Join([a + rest[0]] + rest[1..], sep) == a + Join(rest, sep)
  {
    var xs := [a + rest[0]] + rest[1..];
    if |rest| > 1 {
      assert xs[1..] == rest[1..];
      assert Join(xs, sep) == (a + rest[0]) + sep + Join(rest[1..], sep);
    }
  }

  /** The first piece of a split is the longest separator-free prefix. */
  lemma {:induction false} SplitHead(s: string, c: char, j: nat)
    requires j <= |s| && c !in s[..j] && (j == |s| || s[j] == c)
    ensures Split(s, c)[0] == s[..j]
    ensures j < |s| ==> Split(s, c)[1..] == Split(s[j + 1..], c)
    decreases j
  {
    if j == 0 {
      if s != [] {
        assert s[0] == c;
      }
    } else {
      assert s[0] == s[..j][0];
      assert s[1..][..j - 1] == s[1..j];
      assert c !in s[1..][..j - 1] by {
        assert s[1..][..j - 1] == s[..j][1..];
      }
      SplitHead(s[1..], c, j - 1);
      if j < |s| {
        assert s[1..][j..] == s[j + 1..];
      }
      assert [s[0]] + s[1..j] == s[..j];
    }
  }

  // ---------------------------------------------------------------------------------
  // Slicing and case mapping

  /** The relative index of `slice`/`substring`: a negative index counts from the end. */
  function RelativeIndex(i: int, len: nat): (r: nat)
    ensures r <= len
  {
    if i < 0 then (if len + i < 0 then 0 else len + i) else if i > len then len else i
  }

  /** `s.slice(start, end)`: the part of `s` between the two relative indices, empty
      when the end does not come after the start. */
  function Slice(s: string, start: int, end: int): (r: string)
    ensures |r| <= |s|
    ensures RelativeIndex(start, |s|) < RelativeIndex(end, |s|) ==>
              |r| == RelativeIndex(end, |s|) - RelativeIndex(start, |s|) && OccursAt(s, r, RelativeIndex(start, |s|))
    ensures RelativeIndex(end, |s|) <= RelativeIndex(start, |s|) ==> r == ""
  {
    var from := RelativeIndex(start, |s|);
    var to := RelativeIndex(end, |s|);
    if from < to then s[from..to] else ""
  }

  /** `s.slice(k, -k)` keeps what lies between a prefix and a suffix of length `k`, and is
      empty when the two would overlap. */
  lemma SliceStrip(s: string, k: int)
    requires k > 0
    ensures 2 * k <= |s| ==> Slice(s, k, -k) == s[k..|s| - k]
    ensures 2 * k > |s| ==> Slice(s, k, -k) == ""
  {
  }

  /** `s.substring(start)` with one argument. */
  function Substring(s: string, start: int): string
  {
    s[if start < 0 then 0 else if start > |s| then |s| else start..]
  }

  function LowerChar(c: char): char {
    if 'A' <= c <= 'Z' then (c as int + 32) as char else c
  }

  /** `toLowerCase`, on the ASCII letters. */
  function ToLower(s: string): (r: string)
    ensures |r| == |s|
    ensures forall i :: 0 <= i < |s| ==> r[i] == LowerChar(s[i])
  {
    seq(|s|, i requires 0 <= i < |s| => LowerChar(s[i]))
  }

  // ---------------------------------------------------------------------------------
  // Global replacement of a literal pattern

  /** `s.replace(/pat/g, rep)` for a literal, non-empty pattern (and a replacement with
      no `$` patterns): matches are found left to right, never overlapping, and the
      inserted text is not searched again. */
  function ReplaceAll(s: string, pat: string, rep: string): string
    requires pat != []
    decreases |s|
  {
    if s == [] then []
    else if StartsWith(s, pat) then rep + ReplaceAll(s[|pat|..], pat, rep)
    else [s[0]] + ReplaceAll(s[1..], pat, rep)
  }

  /** A prefix that holds no first character of the pattern is passed through unchanged. */
  lemma {:induction false} ReplaceAllSkip(t: string, u: string, pat: string, rep: string)
    requires pat != [] && pat[0] !in t
    ensures ReplaceAll(t + u, pat, rep) == t + ReplaceAll(u, pat, rep)
    decreases |t|
  {
    if t != [] {
      assert (t + u)[0] == t[0];
      assert !StartsWith(t + u, pat);
      assert (t + u)[1..] == t[1..] + u;
      ReplaceAllSkip(t[1..], u, pat, rep);
      assert [t[0]] + t[1..] == t;
    } else {
      assert t + u == u;
    }
  }

  /** A piece that does not start a match, and holds no first character of the pattern
      after its own first one, is passed through unchanged. */
  lemma ReplaceAllMiss(e: string, u: string, pat: string, rep: string)
    requires pat != [] && e != [] && !StartsWith(e + u, pat) && pat[0] !in e[1..]
    ensures ReplaceAll(e + u, pat, rep) == e + ReplaceAll(u, pat, rep)
  {
    assert (e + u)[1..] == e[1..] + u;
    ReplaceAllSkip(e[1..], u, pat, rep);
    calc {
      ReplaceAll(e + u, pat, rep);
      [e[0]] + ReplaceAll(e[1..] + u, pat, rep);
      [e[0]] + (e[1..] + ReplaceAll(u, pat, rep));
      { assert [e[0]] + e[1..] == e; }
      e + ReplaceAll(u, pat, rep);
    }
  }

  /** An occurrence of the pattern at the front is replaced. */
  lemma ReplaceAllHere(u: string, pat: string, rep: string)
    requires pat != []
    ensures ReplaceAll(pat + u, pat, rep) == rep + ReplaceAll(u, pat, rep)
  {
    assert StartsWith(pat + u, pat);
    assert (pat + u)[|pat|..] == u;
  }

  /** For a one-character pattern the replacement works piece by piece. */
  lemma {:induction false} ReplaceAllCharAppend(a: string, b: string, x: char, rep: string)
    ensures ReplaceAll(a + b, [x], rep) == ReplaceAll(a, [x], rep) + ReplaceAll(b, [x], rep)
    decreases |a|
  {
    if a == [] {
      assert a + b == b;
    } else {
      assert (a + b)[0] == a[0];
      assert (a + b)[1..] == a[1..] + b;
      ReplaceAllCharAppend(a[1..], b, x, rep);
      var head := if a[0] == x then rep else [a[0]];
      assert StartsWith(a, [x]) <==> a[0] == x;
      assert StartsWith(a + b, [x]) <==> a[0] == x;
      calc {
        ReplaceAll(a + b, [x], rep);
        head + ReplaceAll(a[1..] + b, [x], rep);
        head + (ReplaceAll(a[1..], [x], rep) + ReplaceAll(b, [x], rep));
        (head + ReplaceAll(a[1..], [x], rep)) + ReplaceAll(b, [x], rep);
        ReplaceAll(a, [x], rep) + ReplaceAll(b, [x], rep);
      }
    }
  }

  // ---------------------------------------------------------------------------------
  // Decimal numerals

  function DigitChar(d: nat): char
    requires d < 10
  {
    "0123456789"[d]
  }

  function DigitValue(c: char): nat {
    if '0' <= c <= '9' then c as int - '0' as int else 0
  }

  /** The decimal numeral of `n`, as `Number.prototype.toString` writes an integer. */
  function NatToString(n: nat): (r: string)
    ensures |r| >= 1
    ensures forall i :: 0 <= i < |r| ==> '0' <= r[i] <= '9'
    ensures |r| > 1 ==> r[0] != '0'
  {
    if n < 10 then [DigitChar(n)] else NatToString(n / 10) + [DigitChar(n % 10)]
  }

  /** The value of a string of decimal digits. */
  function ParseDecimal(s: string): nat {
    if s == [] then 0 else 10 * ParseDecimal(s[..|s| - 1]) + DigitValue(s[|s| - 1])
  }

  /** Reading back the numeral gives the number: `NatToString` is injective. */
  lemma {:induction false} ParseNatToString(n: nat)
    ensures ParseDecimal(NatToString(n)) == n
  {
    if n >= 10 {
      var r := NatToString(n);
      var h := NatToString(n / 10);
      assert r == h + [DigitChar(n % 10)];
      assert r[..|r| - 1] == h;
      DigitValueOf(n % 10);
      ParseNatToString(n / 10);
    } else {
      DigitValueOf(n);
    }
  }

  /** A digit reads back as its value. */
  lemma DigitValueOf(d: nat)
    requires d < 10
    ensures DigitValue(DigitChar(d)) == d
  {
  }

  lemma NatToStringInjective(m: nat, n: nat)
    requires NatToString(m) == NatToString(n)
    ensures m == n
  {
    ParseNatToString(m);
    ParseNatToString(n);
  }

  /** The decimal numeral of an integer, with a minus sign for a negative one. */
  function IntToString(n: int): string
  {
    if n >= 0 then NatToString(n) else "-" + NatToString(-n)
  }
}
