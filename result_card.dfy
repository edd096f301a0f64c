/**
 * The text pipeline of components/ResultCard.tsx: `FormattedText` splits a field of the
 * answer into lines and classifies each as a bullet, a spacer or a plain line, and
 * `renderInline` splits a line with the capturing regular expression
 * `(\*\*.*?\*\*|\*.*?\*|`.*?`)` into plain runs and `**strong**`, `*em*` and `` `code` ``
 * tokens. The badge helpers pick an icon and a colour for the device category and the
 * command mode.
 */
module ResultCard {
  import opened Base
  import opened JsString

  // ---------------------------------------------------------------------------------
  // The regular expression, matched as a sticky `exec` at one position

  /** `**` starts at index `j`. */
  predicate PairAt(s: string, j: int) {
    0 <= j && j + 1 < |s| && s[j] == '*' && s[j + 1] == '*'
  }

  /** The lazy `.*?\*\*` from index `i`: the first `**` that is reached before any line
      terminator (which `.` does not match), or `None` when a line terminator or the end
      of the string comes first. */
  function FindPair(s: string, i: nat): (r: Option<nat>)
    requires i <= |s|
    ensures r.Some? ==> i <= r.value && PairAt(s, r.value)
    ensures r.Some? ==> forall j :: i <= j < r.value ==> !PairAt(s, j) && !IsLineTerminator(s[j])
    decreases |s| - i
  {
    if i + 1 >= |s| then None
    else if PairAt(s, i) then Some(i)
    else if IsLineTerminator(s[i]) then None
    else FindPair(s, i + 1)
  }

  /** No `**` lies in `s[i..m]`, and `m` is a line terminator or leaves no room for one. */
  predicate PairBlocked(s: string, i: nat, m: nat) {
    && i <= m <= |s|
    && (m + 1 >= |s| || IsLineTerminator(s[m]))
    && forall j :: i <= j < m ==> !PairAt(s, j)
  }

  /** The lazy search fails exactly when the line or the string ends before any `**`. */
  lemma {:induction false} FindPairNone(s: string, i: nat)
    requires i <= |s|
    ensures FindPair(s, i).None? <==> exists m :: PairBlocked(s, i, m)
    decreases |s| - i
  {
    if i + 1 >= |s| {
      assert PairBlocked(s, i, i);
    } else if PairAt(s, i) {
      forall m | PairBlocked(s, i, m) ensures false {
      }
    } else if IsLineTerminator(s[i]) {
      assert PairBlocked(s, i, i);
    } else {
      var next := i + 1;
      FindPairNone(s, next);
      if exists m :: PairBlocked(s, next, m) {
        var m :| PairBlocked(s, next, m);
        assert PairBlocked(s, i, m);
      }
      forall m | PairBlocked(s, i, m) ensures PairBlocked(s, next, m) {
        assert m != i;
      }
    }
  }

  /** The lazy `.*?d` from index `i` for a one-character delimiter `d`. */
  function FindChar(s: string, i: nat, d: char): (r: Option<nat>)
    requires i <= |s|
    ensures r.Some? ==> i <= r.value < |s| && s[r.value] == d
    ensures r.Some? ==> forall j :: i <= j < r.value ==> s[j] != d && !IsLineTerminator(s[j])
    decreases |s| - i
  {
    if i == |s| then None
    else if s[i] == d then Some(i)
    else if IsLineTerminator(s[i]) then None
    else FindChar(s, i + 1, d)
  }

  /** No `d` lies in `s[i..m]`, and `m` is a line terminator or the end. */
  predicate CharBlocked(s: string, i: nat, d: char, m: nat) {
    && i <= m <= |s|
    && (m == |s| || IsLineTerminator(s[m]))
    && forall j :: i <= j < m ==> s[j] != d
  }

  /** For a delimiter that is not a line terminator, the search fails exactly when the
      line or the string ends first. */
  lemma {:induction false} FindCharNone(s: string, i: nat, d: char)
    requires i <= |s| && !IsLineTerminator(d)
    ensures FindChar(s, i, d).None? <==> exists m :: CharBlocked(s, i, d, m)
    decreases |s| - i
  {
    if i == |s| {
      assert CharBlocked(s, i, d, i);
    } else if s[i] == d {
      forall m | CharBlocked(s, i, d, m) ensures false {
      }
    } else if IsLineTerminator(s[i]) {
      assert CharBlocked(s, i, d, i);
    } else {
      var next := i + 1;
      FindCharNone(s, next, d);
      if exists m :: CharBlocked(s, next, d, m) {
        var m :| CharBlocked(s, next, d, m);
        assert CharBlocked(s, i, d, m);
      }
      forall m | CharBlocked(s, i, d, m) ensures CharBlocked(s, next, d, m) {
        assert m != i;
      }
    }
  }

  /** A token the expression can match: at least two characters, opened and closed by
      `*` or by a backtick, and on one line. */
  predicate IsToken(t: string) {
    && |t| >= 2
    && ((t[0] == '*' && t[|t| - 1] == '*') || (t[0] == '`' && t[|t| - 1] == '`'))
    && forall j :: 0 <= j < |t| ==> !IsLineTerminator(t[j])
  }

  /** The end of the match that starts at `q`, trying the three alternatives in order:
      `**` up to the first closing `**`, else `*` up to the next `*`, else a backtick up
      to the next backtick, each on the same line; no match when none of them closes. */
  function MatchAt(s: string, q: nat): (r: Option<nat>)
    requires q < |s|
    ensures r.Some? ==> q + 2 <= r.value <= |s| && IsToken(s[q..r.value])
    ensures PairAt(s, q) && FindPair(s, q + 2).Some? ==> r == Some(FindPair(s, q + 2).value + 2)
    ensures !(PairAt(s, q) && FindPair(s, q + 2).Some?) && s[q] == '*' && FindChar(s, q + 1, '*').Some? ==>
              r == Some(FindChar(s, q + 1, '*').value + 1)
    ensures s[q] == '`' ==> r == (if FindChar(s, q + 1, '`').Some? then Some(FindChar(s, q + 1, '`').value + 1) else None)
    ensures s[q] != '*' && s[q] != '`' ==> r.None?
    ensures s[q] == '*' ==> (r.None? <==> FindChar(s, q + 1, '*').None?)
  {
    var strong := if PairAt(s, q) then FindPair(s, q + 2) else None;
    if strong.Some? then Some(strong.value + 2)
    else
      var em := if s[q] == '*' then FindChar(s, q + 1, '*') else None;
      if em.Some? then Some(em.value + 1)
      else
        var code := if s[q] == '`' then FindChar(s, q + 1, '`') else None;
        if code.Some? then Some(code.value + 1) else None
  }

  // ---------------------------------------------------------------------------------
  // `String.prototype.split` with a capturing expression

  /** The split loop from the end `p` of the last match, trying position `q`: the text
      before each match is emitted, then the captured match; what follows the last match
      ends the list. Every match is at least two characters long, so the loop never
      meets an empty match. */
  function SplitFrom(s: string, p: nat, q: nat): (r: seq<string>)
    requires p <= q <= |s|
    ensures |r| % 2 == 1
    ensures forall k :: 0 <= k < |r| && k % 2 == 1 ==> IsToken(r[k])
    decreases |s| - q
  {
    if q == |s| then [s[p..]]
    else
      match MatchAt(s, q)
      case Some(e) => [s[p..q], s[q..e]] + SplitFrom(s, e, e)
      case None => SplitFrom(s, p, q + 1)
  }

  /** `line.split(/(\*\*.*?\*\*|\*.*?\*|`.*?`)/g)`: plain runs at even indices, matched
      tokens at odd indices; the pieces tile the line, no match starts inside a plain run,
      and every token is the match that starts where it starts. */
  function SplitInline(line: string): (r: seq<string>)
    ensures |r| % 2 == 1
    ensures forall k :: 0 <= k < |r| && k % 2 == 1 ==> IsToken(r[k])
    ensures Tiles(line, 0, r)
  {
    SplitFromTiles(line, 0, 0);
    SplitFrom(line, 0, 0)
  }

  /** Where piece `k` starts, counted from the start of the first piece. */
  function PieceStart(r: seq<string>, k: nat): nat
    requires k <= |r|
  {
    if k == 0 then 0 else PieceStart(r, k - 1) + |r[k - 1]|
  }

  /** Where piece `k` starts in a string whose split from `p` is `r`. */
  function At(p: nat, r: seq<string>, k: nat): nat
    requires k <= |r|
  {
    p + PieceStart(r, k)
  }

  /** Where the expression matches when tried at each position of `s`. */
  function Matcher(s: string): nat -> Option<nat> {
    (j: nat) => if j < |s| then MatchAt(s, j) else None
  }

  /** `r` is the leftmost split of `s[p..]`: the pieces lie one after the other and end
      with `s`; no match starts at any position of an even-indexed piece; and each
      odd-indexed piece is exactly the match that starts at its first position. */
  predicate Tiles(s: string, p: nat, r: seq<string>) {
    TilesBy(s, p, r, Matcher(s))
  }

  /** The same, for any function `m` telling where a match tried at a position ends. */
  predicate TilesBy(s: string, p: nat, r: seq<string>, m: nat -> Option<nat>) {
    |r| >= 1 && p + PieceStart(r, |r|) == |s| && Covers(s, p, r) && PlainRuns(p, r, m) && Tokens(p, r, m)
  }

  /** Each piece is the slice of `s` at its position. */
  predicate Covers(s: string, p: nat, r: seq<string>) {
    forall k {:trigger At(p, r, k)} :: 0 <= k < |r| ==> Slot(s, At(p, r, k), r[k])
  }

  /** `piece` is the slice of `s` that starts at `at`. */
  predicate Slot(s: string, at: nat, piece: string) {
    at + |piece| <= |s| && piece == s[at..at + |piece|]
  }

  /** No match starts inside an even-indexed piece. */
  predicate PlainRuns(p: nat, r: seq<string>, m: nat -> Option<nat>) {
    forall k, j :: 0 <= k < |r| && k % 2 == 0 && At(p, r, k) <= j < At(p, r, k) + |r[k]| ==>
      m(j).None?
  }

  /** Each odd-indexed piece is the match starting at its position. */
  predicate Tokens(p: nat, r: seq<string>, m: nat -> Option<nat>) {
    forall k {:trigger At(p, r, k)} :: 0 <= k < |r| && k % 2 == 1 ==>
      m(At(p, r, k)) == Some(At(p, r, k) + |r[k]|)
  }

  /** After the first two pieces, the start of a piece is shifted by their lengths. */
  lemma {:induction false} PieceStartShift(a: string, b: string, rest: seq<string>, k: nat)
    requires 2 <= k <= |rest| + 2
    ensures PieceStart([a, b] + rest, k) == |a| + |b| + PieceStart(rest, k - 2)
    decreases k
  {
    var r := [a, b] + rest;
    if k > 2 {
      PieceStartShift(a, b, rest, k - 1);
      assert r[k - 1] == rest[k - 3];
    } else {
      assert PieceStart(r, 1) == |a|;
    }
  }

  /** The split loop produces the leftmost split from `p`, given that no match starts
      between `p` and `q`. */
  lemma {:induction false} SplitFromTiles(s: string, p: nat, q: nat)
    requires p <= q <= |s|
    requires forall j :: p <= j < q ==> MatchAt(s, j).None?
    ensures Tiles(s, p, SplitFrom(s, p, q))
    decreases |s| - q
  {
    if q == |s| {
      assert SplitFrom(s, p, q) == [s[p..]];
      TilesLast(s, p);
    } else if MatchAt(s, q).Some? {
      var e := MatchAt(s, q).value;
      var rest := SplitFrom(s, e, e);
      SplitFromTiles(s, e, e);
      assert SplitFrom(s, p, q) == [s[p..q], s[q..e]] + rest;
      TilesMatch(s, p, q, e, rest);
    } else {
      SplitFromTiles(s, p, q + 1);
    }
  }

  /** With no match left, the rest of the line is one plain piece. */
  lemma TilesLast(s: string, p: nat)
    requires p <= |s|
    requires forall j :: p <= j < |s| ==> MatchAt(s, j).None?
    ensures Tiles(s, p, [s[p..]])
  {
    var r := [s[p..]];
    assert PieceStart(r, 1) == |s| - p;
    assert Slot(s, At(p, r, 0), r[0]);
  }

  /** A plain run, the match after it, and a leftmost split of the rest. */
  lemma TilesMatch(s: string, p: nat, q: nat, e: nat, rest: seq<string>)
    requires p <= q < e <= |s|
    requires forall j :: p <= j < q ==> MatchAt(s, j).None?
    requires MatchAt(s, q) == Some(e)
    requires Tiles(s, e, rest)
    ensures Tiles(s, p, [s[p..q], s[q..e]] + rest)
  {
    var m := Matcher(s);
    assert forall j :: p <= j < q ==> m(j).None?;
    TilesStep(s, p, q, e, rest, m);
  }

  /** A plain run, a match, and a leftmost split of the rest give a leftmost split. */
  lemma TilesStep(s: string, p: nat, q: nat, e: nat, rest: seq<string>, m: nat -> Option<nat>)
    requires p <= q < e <= |s|
    requires forall j :: p <= j < q ==> m(j).None?
    requires m(q) == Some(e)
    requires TilesBy(s, e, rest, m)
    ensures TilesBy(s, p, [s[p..q], s[q..e]] + rest, m)
  {
    var r := [s[p..q], s[q..e]] + rest;
    PieceStartShift(s[p..q], s[q..e], rest, |r|);
    CoversStep(s, p, q, e, rest);
    PlainRunsStep(s, p, q, e, rest, m);
    TokensStep(s, p, q, e, rest, m);
  }

  /** Pieces from the third on sit where the same pieces of the rest sit. */
  lemma ShiftedPiece(s: string, p: nat, q: nat, e: nat, rest: seq<string>, k: nat)
    requires p <= q <= e <= |s| && 2 <= k < |rest| + 2
    ensures var r := [s[p..q], s[q..e]] + rest;
            At(p, r, k) == At(e, rest, k - 2) && r[k] == rest[k - 2]
  {
    PieceStartShift(s[p..q], s[q..e], rest, k);
  }

  lemma CoversStep(s: string, p: nat, q: nat, e: nat, rest: seq<string>)
    requires p <= q <= e <= |s|
    requires Covers(s, e, rest)
    ensures Covers(s, p, [s[p..q], s[q..e]] + rest)
  {
    var r := [s[p..q], s[q..e]] + rest;
    assert PieceStart(r, 1) == q - p;
    forall k | 0 <= k < |r|
      ensures Slot(s, At(p, r, k), r[k])
    {
      if k >= 2 {
        assert Slot(s, At(e, rest, k - 2), rest[k - 2]);
        ShiftedPiece(s, p, q, e, rest, k);
      }
    }
  }

  lemma PlainRunsStep(s: string, p: nat, q: nat, e: nat, rest: seq<string>, m: nat -> Option<nat>)
    requires p <= q <= e <= |s|
    requires forall j :: p <= j < q ==> m(j).None?
    requires PlainRuns(e, rest, m)
    ensures PlainRuns(p, [s[p..q], s[q..e]] + rest, m)
  {
    var r := [s[p..q], s[q..e]] + rest;
    forall k, j | 0 <= k < |r| && k % 2 == 0 && At(p, r, k) <= j < At(p, r, k) + |r[k]|
      ensures m(j).None?
    {
      if k >= 2 {
        ShiftedPiece(s, p, q, e, rest, k);
        var k2 := k - 2;
        assert At(e, rest, k2) <= j < At(e, rest, k2) + |rest[k2]|;
      }
    }
  }

  lemma TokensStep(s: string, p: nat, q: nat, e: nat, rest: seq<string>, m: nat -> Option<nat>)
    requires p <= q < e <= |s|
    requires m(q) == Some(e)
    requires Tokens(e, rest, m)
    ensures Tokens(p, [s[p..q], s[q..e]] + rest, m)
  {
    var r := [s[p..q], s[q..e]] + rest;
    forall k | 0 <= k < |r| && k % 2 == 1
      ensures m(At(p, r, k)) == Some(At(p, r, k) + |r[k]|)
    {
      if k == 1 {
        assert PieceStart(r, 1) == q - p;
      } else {
        assert (k - 2) % 2 == 1;
        TokenShift(s, p, q, e, rest, m, k);
      }
    }
  }

  /** A token of the rest is a token at the shifted position. */
  lemma TokenShift(s: string, p: nat, q: nat, e: nat, rest: seq<string>, m: nat -> Option<nat>, k: nat)
    requires p <= q <= e <= |s| && 2 <= k < |rest| + 2
    requires m(At(e, rest, k - 2)) == Some(At(e, rest, k - 2) + |rest[k - 2]|)
    ensures var r := [s[p..q], s[q..e]] + rest;
            m(At(p, r, k)) == Some(At(p, r, k) + |r[k]|)
  {
    ShiftedPiece(s, p, q, e, rest, k);
  }

  function Concat(xs: seq<string>): string
    decreases |xs|
  {
    if xs == [] then "" else xs[0] + Concat(xs[1..])
  }

  lemma {:induction false} SplitFromConcat(s: string, p: nat, q: nat)
    requires p <= q <= |s|
    ensures Concat(SplitFrom(s, p, q)) == s[p..]
    decreases |s| - q
  {
    if q < |s| {
      var m := MatchAt(s, q);
      if m.Some? {
        var e := m.value;
        SplitFromConcat(s, e, e);
        assert SplitFrom(s, p, q) == [s[p..q], s[q..e]] + SplitFrom(s, e, e);
        ConcatMatch(s, p, q, e, SplitFrom(s, e, e));
      } else {
        SplitFromConcat(s, p, q + 1);
      }
    }
  }

  /** A plain run and a match in front of the pieces of the rest. */
  lemma ConcatMatch(s: string, p: nat, q: nat, e: nat, rest: seq<string>)
    requires p <= q <= e <= |s| && Concat(rest) == s[e..]
    ensures Concat([s[p..q], s[q..e]] + rest) == s[p..]
  {
    ConcatStep(s[p..q], s[q..e], rest);
    assert s[p..] == s[p..q] + (s[q..e] + s[e..]);
  }

  lemma ConcatStep(a: string, b: string, rest: seq<string>)
    ensures Concat([a, b] + rest) == a + (b + Concat(rest))
  {
    assert ([a, b] + rest)[1..] == [b] + rest;
    assert ([b] + rest)[1..] == rest;
  }

  /** The pieces of the split put back together are the line, character for character. */
  lemma SplitInlineConcat(line: string)
    ensures Concat(SplitInline(line)) == line
  {
    SplitFromConcat(line, 0, 0);
  }

  /** A line in which no position starts a match is one plain run. */
  lemma {:induction false} SplitFromNoMatch(s: string, p: nat, q: nat)
    requires p <= q <= |s|
    requires forall j :: q <= j < |s| ==> MatchAt(s, j).None?
    ensures SplitFrom(s, p, q) == [s[p..]]
    decreases |s| - q
  {
    if q < |s| {
      SplitFromNoMatch(s, p, q + 1);
    }
  }

  /** A line with no `*` and no backtick is not split at all. */
  lemma SplitInlinePlain(line: string)
    requires '*' !in line && '`' !in line
    ensures SplitInline(line) == [line]
  {
    forall j | 0 <= j < |line| ensures MatchAt(line, j).None? {
      assert line[j] != '*' && line[j] != '`';
    }
    SplitFromNoMatch(line, 0, 0);
  }

  // ---------------------------------------------------------------------------------
  // Classifying a piece

  /** What `renderInline` makes of one piece. */
  datatype Inline = Strong(body: string) | Em(body: string) | Code(body: string) | Plain(text: string)

  /** The three prefix and suffix tests, in source order, with `slice(2, -2)` for strong
      text and `slice(1, -1)` for the other two. */
  function Classify(part: string): (r: Inline)
    ensures r.Strong? <==> StartsWith(part, "**") && EndsWith(part, "**")
    ensures r.Em? <==> !r.Strong? && StartsWith(part, "*") && EndsWith(part, "*")
    ensures r.Code? <==>
              && !(StartsWith(part, "*") && EndsWith(part, "*"))
              && StartsWith(part, "`") && EndsWith(part, "`")
    ensures r.Plain? ==> r.text == part
    ensures r.Strong? ==> r.body == (if |part| >= 4 then part[2..|part| - 2] else "")
    ensures r.Em? || r.Code? ==> r.body == (if |part| >= 2 then part[1..|part| - 1] else "")
  {
    SliceStrip(part, 2);
    SliceStrip(part, 1);
    if StartsWith(part, "**") && EndsWith(part, "**") then Strong(Slice(part, 2, -2))
    else if StartsWith(part, "*") && EndsWith(part, "*") then Em(Slice(part, 1, -1))
    else if StartsWith(part, "`") && EndsWith(part, "`") then Code(Slice(part, 1, -1))
    else Plain(part)
  }

  /** `renderInline(input)`: every piece of the split, classified. */
  function RenderInline(input: string): (r: seq<Inline>)
    ensures |r| == |SplitInline(input)|
    ensures forall k :: 0 <= k < |r| ==> r[k] == Classify(SplitInline(input)[k])
  {
    var parts := SplitInline(input);
    seq(|parts|, k requires 0 <= k < |parts| => Classify(parts[k]))
  }

  /** A matched token is always rendered as markup, never as plain text. */
  lemma TokenNotPlain(t: string)
    requires IsToken(t)
    ensures !Classify(t).Plain?
  {
    assert t[0] == '*' ==> StartsWith(t, "*") && EndsWith(t, "*");
    assert t[0] == '`' ==> StartsWith(t, "`") && EndsWith(t, "`");
  }

  /** Pieces alternate: odd positions hold the matched markup. */
  lemma RenderInlineMarkup(input: string)
    ensures forall k :: 0 <= k < |RenderInline(input)| && k % 2 == 1 ==> !RenderInline(input)[k].Plain?
  {
    var parts := SplitInline(input);
    forall k | 0 <= k < |parts| && k % 2 == 1 ensures !Classify(parts[k]).Plain? {
      TokenNotPlain(parts[k]);
    }
  }

  /** A line without markup characters is one plain run. */
  lemma RenderInlinePlain(line: string)
    requires '*' !in line && '`' !in line
    ensures RenderInline(line) == [Plain(line)]
  {
    SplitInlinePlain(line);
    assert !StartsWith(line, "*") && !StartsWith(line, "`") by {
      if |line| > 0 {
        assert line[0] in line;
      }
    }
  }

  /** A lone `*` or backtick is not a match, yet it passes the prefix and suffix tests of
      its own markup: it renders as an empty element. */
  lemma LoneDelimiters()
    ensures RenderInline("*") == [Em("")]
    ensures RenderInline("`") == [Code("")]
  {
    assert MatchAt("*", 0).None? by {
      assert FindChar("*", 1, '*').None?;
    }
    SplitFromNoMatch("*", 0, 0);
    assert "*"[0..] == "*";
    assert MatchAt("`", 0).None? by {
      assert FindChar("`", 1, '`').None?;
    }
    SplitFromNoMatch("`", 0, 0);
    assert "`"[0..] == "`";
  }

  // ---------------------------------------------------------------------------------
  // Lines

  /** One rendered line. */
  datatype Item = Bullet(parts: seq<Inline>) | TextLine(parts: seq<Inline>) | Spacer

  predicate IsBullet(trimmed: string) {
    StartsWith(trimmed, "- ") || StartsWith(trimmed, "* ")
  }

  /** The rendering of one line: a bullet when its trimmed form starts with `- ` or `* `
      (rendering the rest of the trimmed form), otherwise a spacer when the line is blank,
      otherwise the untrimmed line rendered inline. */
  function LineItem(line: string): (r: Item)
    ensures r.Bullet? <==> IsBullet(Trim(line))
    ensures r.Bullet? ==> r.parts == RenderInline(Trim(line)[2..])
    ensures r.Spacer? <==> AllWhitespace(line)
    ensures r.TextLine? ==> r.parts == RenderInline(line)
  {
    var trimmed := Trim(line);
    if IsBullet(trimmed) then Bullet(RenderInline(Substring(trimmed, 2)))
    else if trimmed != "" then TextLine(RenderInline(line))
    else Spacer
  }

  /** `FormattedText`: nothing for an absent or empty text, otherwise one item for each
      line of `text.split('\n')`, that is one more than the number of newlines. */
  function FormattedText(text: Option<string>): (r: Option<seq<Item>>)
    ensures r.None? <==> text.None? || text.value == ""
    ensures r.Some? ==> |r.value| == multiset(text.value)['\n'] + 1
    ensures r.Some? ==> |r.value| == |Split(text.value, '\n')|
    ensures r.Some? ==>
              forall k :: 0 <= k < |r.value| ==> r.value[k] == LineItem(Split(text.value, '\n')[k])
  {
    if text.None? || text.value == "" then None
    else
      var lines := Split(text.value, '\n');
      SplitCount(text.value, '\n');
      Some(seq(|lines|, k requires 0 <= k < |lines| => LineItem(lines[k])))
  }

  /** Leading whitespace does not change how a line is classified. */
  lemma IndentedBullet(indent: string, line: string)
    requires AllWhitespace(indent)
    ensures LineItem(indent + line).Bullet? <==> LineItem(line).Bullet?
    ensures LineItem(indent + line).Spacer? <==> LineItem(line).Spacer?
  {
    TrimLeading(indent, line);
    var s := indent + line;
    if AllWhitespace(line) {
      forall k | 0 <= k < |s| ensures IsWhitespace(s[k]) {
        if k >= |indent| {
          assert s[k] == line[k - |indent|];
        }
      }
    }
    if AllWhitespace(s) {
      forall k | 0 <= k < |line| ensures IsWhitespace(line[k]) {
        assert line[k] == s[k + |indent|];
      }
    }
  }

  // ---------------------------------------------------------------------------------
  // Badges

  /** The colour family of a badge (the dark and light shades are left to the theme). */
  datatype Palette = Blue | Orange | Emerald | Rose | Sky | Slate

  datatype Badge = Badge(palette: Palette, icon: string)

  /** `getCategoryStyles`: an exact match on `Switch` or `Router`, anything else global. */
  function CategoryBadge(category: string): (r: Badge)
    ensures r.icon == "fa-server" <==> category == "Switch"
    ensures r.icon == "fa-route" <==> category == "Router"
    ensures r.icon == "fa-globe" <==> category != "Switch" && category != "Router"
    ensures r.palette == (if category == "Switch" then Blue else if category == "Router" then Orange else Emerald)
  {
    match category
    case "Switch" => Badge(Blue, "fa-server")
    case "Router" => Badge(Orange, "fa-route")
    case _ => Badge(Emerald, "fa-globe")
  }

  /** `getModeStyles`: lower-case the mode (an absent or empty mode is the empty string),
      then configuration wins over exec, and anything else gets the chip icon. */
  function ModeBadge(mode: Option<string>): (r: Badge)
    ensures r.icon == "fa-wrench" <==> mode.Some? && exists i :: OccursAt(ToLower(mode.value), "config", i)
    ensures r.icon == "fa-terminal" <==>
              && mode.Some?
              && (forall i :: !OccursAt(ToLower(mode.value), "config", i))
              && (exists i :: OccursAt(ToLower(mode.value), "exec", i))
    ensures r.icon == "fa-microchip" <==>
              mode.None? || forall i :: !OccursAt(ToLower(mode.value), "config", i) && !OccursAt(ToLower(mode.value), "exec", i)
    ensures r.palette == (if r.icon == "fa-wrench" then Rose else if r.icon == "fa-terminal" then Sky else Slate)
  {
    var lowerMode := if mode.Some? && mode.value != "" then ToLower(mode.value) else "";
    assert lowerMode == ToLower(mode.GetOr(""));
    if Includes(lowerMode, "config") then Badge(Rose, "fa-wrench")
    else if Includes(lowerMode, "exec") then Badge(Sky, "fa-terminal")
    else Badge(Slate, "fa-microchip")
  }

  /** The mode test ignores the case of ASCII letters. */
  lemma ModeBadgeIgnoresCase(mode: string)
    ensures ModeBadge(Some(mode)) == ModeBadge(Some(ToLower(mode)))
  {
    assert ToLower(ToLower(mode)) == ToLower(mode);
  }
}
