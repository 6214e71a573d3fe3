/** `formatResponse(text)` of utils/api.js:
    `text.trim().replace(/\n{3,}/g, '\n\n').replace(/\s+$/gm, '')`.
    Each global replacement is modelled the way the regular expression engine
    runs it: a match is tried at each position from left to right, and after
    a match the scan resumes behind it. */
module ResponseFormat {
  import opened JsString

  /** The white-space character `s[i]` is immediately followed by a line
      terminator. */
  predicate SpaceBeforeLineEnd(s: string, i: int) {
    0 <= i && i + 1 < |s| && IsWhiteSpace(s[i]) && IsLineTerminator(s[i + 1])
  }

  /** No white-space character sits immediately before a line terminator. */
  predicate NoSpaceBeforeLineEnd(s: string) {
    forall i :: 0 <= i < |s| ==> !SpaceBeforeLineEnd(s, i)
  }

  /** The visible characters of `s`, in order. */
  function NonSpace(s: string): string {
    if s == [] then [] else (if IsWhiteSpace(s[0]) then [] else [s[0]]) + NonSpace(s[1..])
  }

  // ----- /\n{3,}/g replaced by "\n\n"

  /** The end of the run of line feeds starting at `p`. */
  function NewlineRunEnd(s: string, p: nat): (q: nat)
    requires p <= |s|
    ensures p <= q <= |s|
    ensures forall i :: p <= i < q ==> s[i] == '\n'
    ensures q == |s| || s[q] != '\n'
    decreases |s| - p
  {
    if p < |s| && s[p] == '\n' then NewlineRunEnd(s, p + 1) else p
  }

  /** The replacement scan from position `p`: at a line feed the greedy
      `\n{3,}` takes the whole run, and matches only if the run has three or
      more; a failed position is copied and the scan moves on by one. */
  function CollapseNewlinesFrom(s: string, p: nat): (r: string)
    requires p <= |s|
    ensures |r| <= |s| - p
    decreases |s| - p
  {
    if p == |s| then []
    else if s[p] == '\n' && NewlineRunEnd(s, p) - p >= 3 then
      "\n\n" + CollapseNewlinesFrom(s, NewlineRunEnd(s, p))
    else
      [s[p]] + CollapseNewlinesFrom(s, p + 1)
  }

  // ----- /\s+$/gm replaced by ""

  /** The end of the run of white space starting at `p`. */
  function SpaceRunEnd(s: string, p: nat): (q: nat)
    requires p <= |s|
    ensures p <= q <= |s|
    ensures forall i :: p <= i < q ==> IsWhiteSpace(s[i])
    ensures q == |s| || !IsWhiteSpace(s[q])
    decreases |s| - p
  {
    if p < |s| && IsWhiteSpace(s[p]) then SpaceRunEnd(s, p + 1) else p
  }

  /** Where a multiline `$` holds: at the end of the input or in front of a
      line terminator. */
  predicate AtLineEnd(s: string, t: nat) {
    t >= |s| || IsLineTerminator(s[t])
  }

  /** The backtracking of the greedy `\s+` before `$`: the largest `t` in
      `(p, q]` where `$` holds, or `p` when there is none. */
  function LastLineEnd(s: string, p: nat, q: nat): (t: nat)
    requires p <= q <= |s|
    ensures p <= t <= q
    ensures t > p ==> AtLineEnd(s, t)
    ensures forall u :: t < u <= q ==> !AtLineEnd(s, u)
    decreases q - p
  {
    if q == p then p
    else if AtLineEnd(s, q) then q
    else LastLineEnd(s, p, q - 1)
  }

  /** When `$` holds nowhere in `(p, q]`, the backtracking finds no match. */
  lemma {:induction false} LastLineEndNone(s: string, p: nat, q: nat)
    requires p <= q <= |s|
    requires forall u :: p < u <= q ==> !AtLineEnd(s, u)
    ensures LastLineEnd(s, p, q) == p
    decreases q - p
  {
    if q > p {
      LastLineEndNone(s, p, q - 1);
    }
  }

  /** The replacement scan from position `p`: at white space the match is the
      longest run of white space that ends at a line end; it is deleted and
      the scan resumes at that line end. A failed position is copied. */
  function StripLineEndSpaceFrom(s: string, p: nat): (r: string)
    requires p <= |s|
    ensures |r| <= |s| - p
    decreases |s| - p
  {
    if p == |s| then []
    else if !IsWhiteSpace(s[p]) then
      [s[p]] + StripLineEndSpaceFrom(s, p + 1)
    else
      var t := LastLineEnd(s, p, SpaceRunEnd(s, p));
      if t > p then StripLineEndSpaceFrom(s, t)
      else [s[p]] + StripLineEndSpaceFrom(s, p + 1)
  }

  /** `formatResponse(text)`. */
  function FormatResponse(text: string): (r: string)
    ensures |r| <= |text|
  {
    StripLineEndSpaceFrom(CollapseNewlinesFrom(Trim(text), 0), 0)
  }

  // ----- lemmas about the visible text

  lemma {:induction false} NonSpaceConcat(a: string, b: string)
    ensures NonSpace(a + b) == NonSpace(a) + NonSpace(b)
  {
    if a == [] {
      assert a + b == b;
    } else {
      assert (a + b)[0] == a[0];
      assert (a + b)[1..] == a[1..] + b;
      NonSpaceConcat(a[1..], b);
    }
  }

  lemma {:induction false} NonSpaceOfSpace(s: string)
    requires AllSpace(s)
    ensures NonSpace(s) == []
  {
    if s != [] {
      NonSpaceOfSpace(s[1..]);
    }
  }

  /** Splitting the unscanned part at `p`: its first character, then the rest. */
  lemma NonSpaceStep(s: string, p: nat)
    requires p < |s|
    ensures NonSpace(s[p..]) == NonSpace([s[p]]) + NonSpace(s[p + 1..])
  {
    assert s[p..] == [s[p]] + s[p + 1..];
    NonSpaceConcat([s[p]], s[p + 1..]);
  }

  /** Deleting the white space `s[p..t]` keeps the visible text. */
  lemma NonSpaceSkip(s: string, p: nat, t: nat)
    requires p <= t <= |s| && AllSpace(s[p..t])
    ensures NonSpace(s[p..]) == NonSpace(s[t..])
  {
    assert s[p..] == s[p..t] + s[t..];
    NonSpaceConcat(s[p..t], s[t..]);
    NonSpaceOfSpace(s[p..t]);
  }

  lemma {:induction false} CollapseKeepsText(s: string, p: nat)
    requires p <= |s|
    ensures NonSpace(CollapseNewlinesFrom(s, p)) == NonSpace(s[p..])
    decreases |s| - p
  {
    if p < |s| {
      if s[p] == '\n' && NewlineRunEnd(s, p) - p >= 3 {
        var q := NewlineRunEnd(s, p);
        CollapseKeepsText(s, q);
        NonSpaceConcat("\n\n", CollapseNewlinesFrom(s, q));
        NonSpaceOfSpace("\n\n");
        NonSpaceSkip(s, p, q);
      } else {
        CollapseKeepsText(s, p + 1);
        NonSpaceConcat([s[p]], CollapseNewlinesFrom(s, p + 1));
        NonSpaceStep(s, p);
      }
    }
  }

  lemma {:induction false} StripKeepsText(s: string, p: nat)
    requires p <= |s|
    ensures NonSpace(StripLineEndSpaceFrom(s, p)) == NonSpace(s[p..])
    decreases |s| - p
  {
    if p < |s| {
      var t := if IsWhiteSpace(s[p]) then LastLineEnd(s, p, SpaceRunEnd(s, p)) else p;
      if t > p {
        StripKeepsText(s, t);
        NonSpaceSkip(s, p, t);
      } else {
        StripKeepsText(s, p + 1);
        NonSpaceConcat([s[p]], StripLineEndSpaceFrom(s, p + 1));
        NonSpaceStep(s, p);
      }
    }
  }

  /** White space around `r` adds no visible text. */
  lemma NonSpacePadded(pre: string, r: string, post: string)
    requires AllSpace(pre) && AllSpace(post)
    ensures NonSpace(pre + r + post) == NonSpace(r)
  {
    NonSpaceConcat(pre + r, post);
    NonSpaceConcat(pre, r);
    NonSpaceOfSpace(pre);
    NonSpaceOfSpace(post);
  }

  lemma TrimKeepsText(s: string)
    ensures NonSpace(Trim(s)) == NonSpace(s)
  {
    var r := Trim(s);
    var a :| 0 <= a <= |s| - |r| && TrimmedAt(s, r, a);
    TrimmedAtSplit(s, r, a);
    NonSpacePadded(s[..a], r, s[a + |r|..]);
  }

  /** formatResponse deletes white space only: the visible characters of the
      result are exactly those of the input, in the same order. */
  lemma FormatResponseKeepsText(text: string)
    ensures NonSpace(FormatResponse(text)) == NonSpace(text)
  {
    var c := CollapseNewlinesFrom(Trim(text), 0);
    TrimKeepsText(text);
    CollapseKeepsText(Trim(text), 0);
    StripKeepsText(c, 0);
    assert Trim(text)[0..] == Trim(text);
    assert c[0..] == c;
  }

  // ----- lemmas about the shape of the result

  /** Prepending one character keeps the property when it is not white space
      in front of a line terminator. */
  lemma ConsNoSpaceBeforeLineEnd(c: char, rest: string)
    requires NoSpaceBeforeLineEnd(rest)
    requires rest == [] || !IsWhiteSpace(c) || !IsLineTerminator(rest[0])
    ensures NoSpaceBeforeLineEnd([c] + rest)
  {
    var r := [c] + rest;
    forall i | 0 <= i < |r| ensures !SpaceBeforeLineEnd(r, i) {
      if 0 < i < |r| - 1 {
        assert r[i] == rest[i - 1] && r[i + 1] == rest[i];
        assert !SpaceBeforeLineEnd(rest, i - 1);
      }
    }
  }

  /** A white-space character the scan copies is followed, in the output, by
      a character that is not a line terminator. */
  lemma {:induction false} KeptSpaceFollower(s: string, p: nat)
    requires p < |s| && IsWhiteSpace(s[p])
    requires LastLineEnd(s, p, SpaceRunEnd(s, p)) == p
    ensures StripLineEndSpaceFrom(s, p + 1) != []
    ensures !IsLineTerminator(StripLineEndSpaceFrom(s, p + 1)[0])
  {
    var q := SpaceRunEnd(s, p);
    // `$` holds at the end of the input, so the run stops before it.
    assert AtLineEnd(s, |s|);
    assert q < |s|;
    if p + 1 < q {
      assert SpaceRunEnd(s, p + 1) == q;
      LastLineEndNone(s, p + 1, q);
      assert !AtLineEnd(s, p + 1);
    }
  }

  /** The scan's output never has white space before a line terminator and
      never ends in white space. */
  lemma {:induction false} StripShape(s: string, p: nat)
    requires p <= |s|
    ensures NoSpaceBeforeLineEnd(StripLineEndSpaceFrom(s, p))
    ensures var r := StripLineEndSpaceFrom(s, p); r == [] || !IsWhiteSpace(r[|r| - 1])
    decreases |s| - p
  {
    if p < |s| {
      var t := if IsWhiteSpace(s[p]) then LastLineEnd(s, p, SpaceRunEnd(s, p)) else p;
      if t > p {
        StripShape(s, t);
      } else {
        var rest := StripLineEndSpaceFrom(s, p + 1);
        StripShape(s, p + 1);
        if IsWhiteSpace(s[p]) {
          KeptSpaceFollower(s, p);
        }
        ConsNoSpaceBeforeLineEnd(s[p], rest);
      }
    }
  }

  /** A scan starting at a visible character copies it first. */
  lemma FirstCharKept(s: string)
    requires s != [] && !IsWhiteSpace(s[0])
    ensures CollapseNewlinesFrom(s, 0) != [] && CollapseNewlinesFrom(s, 0)[0] == s[0]
    ensures StripLineEndSpaceFrom(s, 0) != [] && StripLineEndSpaceFrom(s, 0)[0] == s[0]
  {
  }

  /** Without white space before a line terminator there is no blank line:
      `\n\n` does not occur. */
  lemma NoBlankLine(r: string)
    requires NoSpaceBeforeLineEnd(r)
    ensures !Includes(r, "\n\n")
  {
    forall i | 0 <= i < |r| ensures !OccursAt(r, "\n\n", i) {
      if i + 1 < |r| {
        assert !SpaceBeforeLineEnd(r, i);
        assert r[i..i + 2] == [r[i], r[i + 1]];
      }
    }
  }

  /** The result of formatResponse has no leading or trailing white space,
      no white space in front of a line terminator, and therefore no blank
      line (no two consecutive line feeds). */
  lemma FormatResponseClean(text: string)
    ensures NoEdgeSpace(FormatResponse(text))
    ensures NoSpaceBeforeLineEnd(FormatResponse(text))
    ensures !Includes(FormatResponse(text), "\n\n")
  {
    var t := Trim(text);
    var c := CollapseNewlinesFrom(t, 0);
    var r := StripLineEndSpaceFrom(c, 0);
    assert r == FormatResponse(text);
    StripShape(c, 0);
    if t != [] {
      FirstCharKept(t);
      FirstCharKept(c);
    }
    NoBlankLine(r);
  }

  // ----- idempotence

  /** A string with no white space before a line terminator has no run of
      three line feeds, so the first replacement leaves it unchanged. */
  lemma {:induction false} CollapseUnchanged(s: string, p: nat)
    requires p <= |s| && NoSpaceBeforeLineEnd(s)
    ensures CollapseNewlinesFrom(s, p) == s[p..]
    decreases |s| - p
  {
    if p < |s| {
      CollapseUnchanged(s, p + 1);
      if s[p] == '\n' {
        var q := NewlineRunEnd(s, p);
        assert !SpaceBeforeLineEnd(s, p);
        assert q == p + 1;
      }
      assert s[p..] == [s[p]] + s[p + 1..];
    }
  }

  /** A string with no white space before a line terminator and none at its
      end gives the second replacement nothing to match. */
  lemma {:induction false} StripUnchanged(s: string, p: nat)
    requires p <= |s| && NoSpaceBeforeLineEnd(s)
    requires s == [] || !IsWhiteSpace(s[|s| - 1])
    ensures StripLineEndSpaceFrom(s, p) == s[p..]
    decreases |s| - p
  {
    if p < |s| {
      StripUnchanged(s, p + 1);
      if IsWhiteSpace(s[p]) {
        var q := SpaceRunEnd(s, p);
        // The run is followed by a visible character, since `s` does not end
        // in white space; inside the run no line terminator follows white space.
        assert IsWhiteSpace(s[q - 1]);
        assert q < |s|;
        forall u | p < u <= q ensures !AtLineEnd(s, u) {
          assert !SpaceBeforeLineEnd(s, u - 1);
        }
        LastLineEndNone(s, p, q);
      }
      assert s[p..] == [s[p]] + s[p + 1..];
    }
  }

  /** formatResponse leaves a string without edge white space and without
      white space before a line terminator unchanged. */
  lemma FormatResponseFixesClean(r: string)
    requires NoEdgeSpace(r) && NoSpaceBeforeLineEnd(r)
    ensures FormatResponse(r) == r
  {
    TrimUnchanged(r);
    CollapseUnchanged(r, 0);
    assert r[0..] == r;
    StripUnchanged(r, 0);
  }

  /** Formatting an already formatted response changes nothing. */
  lemma FormatResponseIdempotent(text: string)
    ensures FormatResponse(FormatResponse(text)) == FormatResponse(text)
  {
    FormatResponseClean(text);
    FormatResponseFixesClean(FormatResponse(text));
  }

  // ----- the line structure: a reference for the second replacement

  /** What `\s+$` leaves of a white-space run that a visible character
      follows: the part from its last line terminator on, where the
      backtracking stops, or all of the run when it holds no line terminator. */
  function FromLastLineTerminator(run: string): (r: string)
    ensures |r| <= |run|
    ensures run != [] ==> r != []
  {
    if run == [] then []
    else if IsLineTerminator(run[|run| - 1]) then [run[|run| - 1]]
    else FromLastLineTerminator(run[..|run| - 1]) + [run[|run| - 1]]
  }

  /** A run `s[p..q]` whose last line terminator is at `t` keeps `s[t..q]`. */
  lemma {:induction false} FromLastLineTerminatorAt(s: string, p: nat, q: nat, t: nat)
    requires p <= t < q <= |s| && IsLineTerminator(s[t])
    requires forall u :: t < u < q ==> !IsLineTerminator(s[u])
    ensures FromLastLineTerminator(s[p..q]) == s[t..q]
    decreases q
  {
    assert s[p..q][|s[p..q]| - 1] == s[q - 1];
    if t < q - 1 {
      assert s[p..q][..q - 1 - p] == s[p..q - 1];
      FromLastLineTerminatorAt(s, p, q - 1, t);
      assert s[t..q - 1] + [s[q - 1]] == s[t..q];
    } else {
      assert s[t..q] == [s[t]];
    }
  }

  /** A run `s[p..q]` without a line terminator is kept whole. */
  lemma {:induction false} FromLastLineTerminatorNone(s: string, p: nat, q: nat)
    requires p <= q <= |s|
    requires forall u :: p <= u < q ==> !IsLineTerminator(s[u])
    ensures FromLastLineTerminator(s[p..q]) == s[p..q]
    decreases q
  {
    if p < q {
      assert s[p..q][|s[p..q]| - 1] == s[q - 1];
      assert s[p..q][..q - 1 - p] == s[p..q - 1];
      FromLastLineTerminatorNone(s, p, q - 1);
      assert s[p..q - 1] + [s[q - 1]] == s[p..q];
    }
  }

  /** One more character in front of a run: it is kept unless the run
      already keeps a line terminator at its start. */
  lemma {:induction false} FromLastLineTerminatorCons(c: char, run: string)
    ensures var y := FromLastLineTerminator(run);
      FromLastLineTerminator([c] + run) == if y != [] && IsLineTerminator(y[0]) then y else [c] + y
  {
    var s := [c] + run;
    if run == [] {
      assert s[..0] == [];
    } else {
      var init := run[..|run| - 1];
      assert s[|s| - 1] == run[|run| - 1];
      assert s[..|s| - 1] == [c] + init;
      FromLastLineTerminatorCons(c, init);
    }
  }

  /** What `\s+$` under the `m` flag makes of `[c] + x`, given what it makes
      of `x`: a visible character is kept; white space is deleted when
      nothing visible follows it, or when what follows is a line terminator
      that stays; otherwise it is kept. */
  function Prepend(c: char, y: string): string {
    if !IsWhiteSpace(c) then [c] + y
    else if y == [] || IsLineTerminator(y[0]) then y
    else [c] + y
  }

  /** The reference for `text.replace(/\s+$/gm, '')`, built from the right
      one character at a time. SquashRunsRun states it run by run. */
  function SquashRuns(s: string): string {
    if s == [] then [] else Prepend(s[0], SquashRuns(s[1..]))
  }

  /** A white-space run is determined by where it ends. */
  lemma SpaceRunEndUnique(s: string, p: nat, q: nat)
    requires p <= q <= |s|
    requires forall i :: p <= i < q ==> IsWhiteSpace(s[i])
    requires q == |s| || !IsWhiteSpace(s[q])
    ensures SpaceRunEnd(s, p) == q
  {
  }

  /** Unfolding SquashRuns at position `u` of `s`. */
  lemma SquashRunsAt(s: string, u: nat)
    requires u < |s|
    ensures SquashRuns(s[u..]) == Prepend(s[u], SquashRuns(s[u + 1..]))
  {
    assert s[u..][1..] == s[u + 1..];
  }

  /** SquashRuns is a right fold of Prepend. */
  lemma SquashRunsCons(c: char, x: string)
    ensures SquashRuns([c] + x) == Prepend(c, SquashRuns(x))
  {
    assert ([c] + x)[1..] == x;
  }

  /** Prepend on a result that starts with what a run keeps. */
  lemma PrependRun(c: char, y: string, z: string)
    requires IsWhiteSpace(c) && y != []
    ensures Prepend(c, y + z) == (if IsLineTerminator(y[0]) then y else [c] + y) + z
  {
    assert (y + z)[0] == y[0];
  }

  /** The reference on a text that a visible character starts. */
  lemma SquashRunsVisible(s: string, q: nat)
    requires q < |s| && !IsWhiteSpace(s[q])
    ensures SquashRuns(s[q..]) != [] && SquashRuns(s[q..])[0] == s[q]
  {
    SquashRunsAt(s, q);
  }

  /** One more white-space character at the front of a run that a visible
      character follows. */
  lemma SquashRunsRunStep(s: string, u: nat, q: nat)
    requires u < q < |s| && IsWhiteSpace(s[u]) && !IsWhiteSpace(s[q])
    requires SquashRuns(s[u + 1..]) == FromLastLineTerminator(s[u + 1..q]) + SquashRuns(s[q..])
    ensures SquashRuns(s[u..]) == FromLastLineTerminator(s[u..q]) + SquashRuns(s[q..])
  {
    SquashRunsAt(s, u);
    SquashRunsVisible(s, q);
    assert s[u..q] == [s[u]] + s[u + 1..q];
    FromLastLineTerminatorCons(s[u], s[u + 1..q]);
    var y := FromLastLineTerminator(s[u + 1..q]);
    if y == [] {
      assert SquashRuns(s[u + 1..]) == SquashRuns(s[q..]);
    } else {
      PrependRun(s[u], y, SquashRuns(s[q..]));
    }
  }

  /** The reference run by run: from position `u` of a white-space run that
      ends at `q`, the run goes when it reaches the end of the text, and
      otherwise keeps the part from its last line terminator on. */
  lemma {:induction false} SquashRunsFrom(s: string, u: nat, q: nat)
    requires u <= q <= |s| && SpaceRunEnd(s, u) == q
    ensures SquashRuns(s[u..])
      == (if q == |s| then [] else FromLastLineTerminator(s[u..q])) + SquashRuns(s[q..])
    decreases q - u
  {
    if u < q {
      assert SpaceRunEnd(s, u + 1) == q;
      SquashRunsFrom(s, u + 1, q);
      if q == |s| {
        SquashRunsAt(s, u);
      } else {
        SquashRunsRunStep(s, u, q);
      }
    } else {
      assert s[u..q] == [];
    }
  }

  /** The reference on the maximal white-space run at `p`. */
  lemma SquashRunsRun(s: string, p: nat)
    requires p < |s| && IsWhiteSpace(s[p])
    ensures var q := SpaceRunEnd(s, p);
      SquashRuns(s[p..])
      == (if q == |s| then [] else FromLastLineTerminator(s[p..q])) + SquashRuns(s[q..])
  {
    SquashRunsFrom(s, p, SpaceRunEnd(s, p));
  }

  /** A non-empty run of line feeds in front of `x` counts as one. */
  lemma {:induction false} SquashRunsLineFeeds(feeds: string, x: string)
    requires feeds != [] && forall i :: 0 <= i < |feeds| ==> feeds[i] == '\n'
    ensures SquashRuns(feeds + x) == Prepend('\n', SquashRuns(x))
    decreases |feeds|
  {
    assert feeds + x == [feeds[0]] + (feeds[1..] + x);
    SquashRunsCons('\n', feeds[1..] + x);
    if |feeds| > 1 {
      SquashRunsLineFeeds(feeds[1..], x);
    } else {
      assert feeds[1..] + x == x;
    }
  }

  /** Copying `s[u]` in front of a copy of `s[u + 1..q]` copies `s[u..q]`. */
  lemma CopiedPrefix(s: string, u: nat, q: nat, a: string, b: string, rest: string)
    requires u < q <= |s| && a == [s[u]] + b && b == s[u + 1..q] + rest
    ensures a == s[u..q] + rest
  {
    assert s[u..q] == [s[u]] + s[u + 1..q];
  }

  /** A white-space position with no line end ahead in its run is copied. */
  lemma StripCopiesStep(s: string, u: nat, q: nat)
    requires u < q < |s| && SpaceRunEnd(s, u) == q
    requires forall v :: u < v <= q ==> !AtLineEnd(s, v)
    ensures StripLineEndSpaceFrom(s, u) == [s[u]] + StripLineEndSpaceFrom(s, u + 1)
    ensures SpaceRunEnd(s, u + 1) == q
  {
    assert IsWhiteSpace(s[u]);
    LastLineEndNone(s, u, q);
  }

  /** A scan position inside a white-space run with no line end ahead in the
      run copies the rest of the run. */
  lemma {:induction false} StripCopies(s: string, u: nat, q: nat)
    requires u <= q < |s| && SpaceRunEnd(s, u) == q
    requires forall v :: u < v <= q ==> !AtLineEnd(s, v)
    ensures StripLineEndSpaceFrom(s, u) == s[u..q] + StripLineEndSpaceFrom(s, q)
    decreases q - u
  {
    if u < q {
      StripCopiesStep(s, u, q);
      StripCopies(s, u + 1, q);
      CopiedPrefix(s, u, q, StripLineEndSpaceFrom(s, u), StripLineEndSpaceFrom(s, u + 1),
        StripLineEndSpaceFrom(s, q));
    } else {
      assert s[u..q] == [];
    }
  }

  /** A white-space run that reaches the end of the text is deleted. */
  lemma StripFinalRun(s: string, p: nat)
    requires p < |s| && IsWhiteSpace(s[p]) && SpaceRunEnd(s, p) == |s|
    ensures StripLineEndSpaceFrom(s, p) == []
  {
    assert AtLineEnd(s, |s|);
  }

  /** In a run that a visible character follows, a match stops in front of
      the run's last line terminator, which is copied with the rest of the
      run. */
  lemma StripMatchedRun(s: string, p: nat)
    requires p < |s| && IsWhiteSpace(s[p]) && SpaceRunEnd(s, p) < |s|
    requires LastLineEnd(s, p, SpaceRunEnd(s, p)) > p
    ensures var q := SpaceRunEnd(s, p); var t := LastLineEnd(s, p, q);
      && t < q && IsLineTerminator(s[t])
      && (forall u :: t < u < q ==> !IsLineTerminator(s[u]))
      && StripLineEndSpaceFrom(s, p) == s[t..q] + StripLineEndSpaceFrom(s, q)
  {
    var q := SpaceRunEnd(s, p);
    var t := LastLineEnd(s, p, q);
    assert !AtLineEnd(s, q);
    forall u | t < u < q ensures !IsLineTerminator(s[u]) {
      assert !AtLineEnd(s, u);
    }
    assert StripLineEndSpaceFrom(s, p) == StripLineEndSpaceFrom(s, t);
    SpaceRunEndUnique(s, t, q);
    StripCopies(s, t, q);
  }

  /** In a run that a visible character follows and that holds no line end
      after its first character, nothing matches and the run is copied. */
  lemma StripUnmatchedRun(s: string, p: nat)
    requires p < |s| && IsWhiteSpace(s[p]) && SpaceRunEnd(s, p) < |s|
    requires LastLineEnd(s, p, SpaceRunEnd(s, p)) == p
    ensures var q := SpaceRunEnd(s, p);
      && (forall u :: p < u < q ==> !IsLineTerminator(s[u]))
      && StripLineEndSpaceFrom(s, p) == s[p..q] + StripLineEndSpaceFrom(s, q)
  {
    var q := SpaceRunEnd(s, p);
    forall u | p < u < q ensures !IsLineTerminator(s[u]) {
      assert !AtLineEnd(s, u);
    }
    StripCopies(s, p, q);
  }

  /** A matched run keeps the part from its last line terminator on. */
  lemma StripMatchedRunKept(s: string, p: nat)
    requires p < |s| && IsWhiteSpace(s[p]) && SpaceRunEnd(s, p) < |s|
    requires LastLineEnd(s, p, SpaceRunEnd(s, p)) > p
    ensures var q := SpaceRunEnd(s, p);
      StripLineEndSpaceFrom(s, p) == FromLastLineTerminator(s[p..q]) + StripLineEndSpaceFrom(s, q)
  {
    StripMatchedRun(s, p);
    FromLastLineTerminatorAt(s, p, SpaceRunEnd(s, p), LastLineEnd(s, p, SpaceRunEnd(s, p)));
  }

  /** An unmatched run is kept whole. */
  lemma StripUnmatchedRunKept(s: string, p: nat)
    requires p < |s| && IsWhiteSpace(s[p]) && SpaceRunEnd(s, p) < |s|
    requires LastLineEnd(s, p, SpaceRunEnd(s, p)) == p
    ensures var q := SpaceRunEnd(s, p);
      StripLineEndSpaceFrom(s, p) == FromLastLineTerminator(s[p..q]) + StripLineEndSpaceFrom(s, q)
  {
    var q := SpaceRunEnd(s, p);
    StripUnmatchedRun(s, p);
    if IsLineTerminator(s[p]) {
      FromLastLineTerminatorAt(s, p, q, p);
    } else {
      FromLastLineTerminatorNone(s, p, q);
    }
  }

  /** The second replacement on the white-space run at `p`: a run that
      reaches the end of the text is deleted; otherwise the line terminator
      the match stops in front of is kept, with the rest of the run. */
  lemma StripRun(s: string, p: nat)
    requires p < |s| && IsWhiteSpace(s[p])
    ensures var q := SpaceRunEnd(s, p);
      StripLineEndSpaceFrom(s, p)
      == (if q == |s| then [] else FromLastLineTerminator(s[p..q])) + StripLineEndSpaceFrom(s, q)
  {
    var q := SpaceRunEnd(s, p);
    if q == |s| {
      StripFinalRun(s, p);
    } else if LastLineEnd(s, p, q) > p {
      StripMatchedRunKept(s, p);
    } else {
      StripUnmatchedRunKept(s, p);
    }
  }

  /** The backtracking scan of `\s+$` computes the reference. */
  lemma {:induction false} StripIsSquash(s: string, p: nat)
    requires p <= |s|
    ensures StripLineEndSpaceFrom(s, p) == SquashRuns(s[p..])
    decreases |s| - p
  {
    if p < |s| {
      if !IsWhiteSpace(s[p]) {
        StripIsSquash(s, p + 1);
        SquashRunsAt(s, p);
      } else {
        StripIsSquash(s, SpaceRunEnd(s, p));
        StripRun(s, p);
        SquashRunsRun(s, p);
      }
    }
  }

  /** A run of line feeds shorter than three is copied whole by the first
      replacement. */
  lemma {:induction false} CollapseCopiesShortRun(s: string, u: nat, q: nat)
    requires u <= q <= |s| && NewlineRunEnd(s, u) == q && q - u < 3
    ensures CollapseNewlinesFrom(s, u) == s[u..q] + CollapseNewlinesFrom(s, q)
    decreases q - u
  {
    if u < q {
      assert NewlineRunEnd(s, u + 1) == q;
      CollapseCopiesShortRun(s, u + 1, q);
      assert s[u..q] == [s[u]] + s[u + 1..q];
    }
  }

  /** The first replacement on the line-feed run at `p`: three or more line
      feeds become exactly two, a shorter run is copied. */
  lemma CollapseRun(s: string, p: nat)
    requires p < |s| && s[p] == '\n'
    ensures var q := NewlineRunEnd(s, p);
      CollapseNewlinesFrom(s, p)
      == (if q - p >= 3 then "\n\n" else s[p..q]) + CollapseNewlinesFrom(s, q)
  {
    var q := NewlineRunEnd(s, p);
    if q - p < 3 {
      CollapseCopiesShortRun(s, p, q);
    }
  }

  /** The reference on the collapsed run: the two line feeds count as one. */
  lemma SquashCollapsedRun(s: string, p: nat)
    requires p < |s| && s[p] == '\n' && NewlineRunEnd(s, p) - p >= 3
    ensures SquashRuns(CollapseNewlinesFrom(s, p))
      == Prepend('\n', SquashRuns(CollapseNewlinesFrom(s, NewlineRunEnd(s, p))))
  {
    SquashRunsLineFeeds("\n\n", CollapseNewlinesFrom(s, NewlineRunEnd(s, p)));
  }

  /** The reference on the run before collapsing: its line feeds count as one. */
  lemma SquashLineFeedRun(s: string, p: nat)
    requires p < |s| && s[p] == '\n'
    ensures SquashRuns(s[p..]) == Prepend('\n', SquashRuns(s[NewlineRunEnd(s, p)..]))
  {
    var q := NewlineRunEnd(s, p);
    assert s[p..] == s[p..q] + s[q..];
    forall i | 0 <= i < q - p ensures s[p..q][i] == '\n' {
      assert s[p..q][i] == s[p + i];
    }
    SquashRunsLineFeeds(s[p..q], s[q..]);
  }

  /** A character the first replacement copies makes the same difference
      on both sides. */
  lemma CollapseSquashChar(s: string, p: nat)
    requires p < |s| && !(s[p] == '\n' && NewlineRunEnd(s, p) - p >= 3)
    requires SquashRuns(CollapseNewlinesFrom(s, p + 1)) == SquashRuns(s[p + 1..])
    ensures SquashRuns(CollapseNewlinesFrom(s, p)) == SquashRuns(s[p..])
  {
    SquashRunsCons(s[p], CollapseNewlinesFrom(s, p + 1));
    assert s[p..] == [s[p]] + s[p + 1..];
    SquashRunsCons(s[p], s[p + 1..]);
  }

  /** The first replacement does not change what the reference makes of a
      text: whatever it does to a run of line feeds, the second replacement
      cuts that run back to its last line feed. */
  lemma {:induction false} CollapseSquash(s: string, p: nat)
    requires p <= |s|
    ensures SquashRuns(CollapseNewlinesFrom(s, p)) == SquashRuns(s[p..])
    decreases |s| - p
  {
    if p < |s| {
      if s[p] == '\n' && NewlineRunEnd(s, p) - p >= 3 {
        CollapseSquash(s, NewlineRunEnd(s, p));
        SquashCollapsedRun(s, p);
        SquashLineFeedRun(s, p);
      } else {
        CollapseSquash(s, p + 1);
        CollapseSquashChar(s, p);
      }
    }
  }

  /** formatResponse is the run-by-run reference on the trimmed text: between
      two visible characters a white-space run keeps its last line terminator
      and what follows it, so a line break survives as one line break. */
  lemma FormatResponseSquashesRuns(text: string)
    ensures FormatResponse(text) == SquashRuns(Trim(text))
  {
    var t := Trim(text);
    var c := CollapseNewlinesFrom(t, 0);
    StripIsSquash(c, 0);
    CollapseSquash(t, 0);
    assert c[0..] == c && t[0..] == t;
  }

  /** The `\n{3,}` replacement never changes the result of the `\s+$` one. */
  lemma CollapseRedundant(s: string)
    ensures StripLineEndSpaceFrom(CollapseNewlinesFrom(s, 0), 0) == StripLineEndSpaceFrom(s, 0)
  {
    var c := CollapseNewlinesFrom(s, 0);
    StripIsSquash(c, 0);
    StripIsSquash(s, 0);
    CollapseSquash(s, 0);
    assert c[0..] == c && s[0..] == s;
  }

  /** The reference on `"a \nb"`. */
  lemma SquashRunsLineBreakExample()
    ensures SquashRuns("a \nb") == "a\nb"
  {
    var s := "a \nb";
    assert s[1..] == " \nb" && s[1..][1..] == "\nb" && s[1..][1..][1..] == "b";
    assert "b"[1..] == [];
  }

  /** A line break behind trailing white space survives as a line break. */
  lemma FormatResponseKeepsLineBreak()
    ensures FormatResponse("a \nb") == "a\nb"
  {
    TrimUnchanged("a \nb");
    FormatResponseSquashesRuns("a \nb");
    SquashRunsLineBreakExample();
  }

  /** The reference on `"a\n\nb"`. */
  lemma SquashRunsBlankLineExample()
    ensures SquashRuns("a\n\nb") == "a\nb"
  {
    var s := "a\n\nb";
    assert s[1..] == "\n\nb" && s[1..][1..] == "\nb" && s[1..][1..][1..] == "b";
    assert "b"[1..] == [];
  }

  /** A blank line does not survive: the multiline `\s+$` also matches the
      line feed in front of it. */
  lemma FormatResponseDropsBlankLine()
    ensures FormatResponse("a\n\nb") == "a\nb"
  {
    TrimUnchanged("a\n\nb");
    FormatResponseSquashesRuns("a\n\nb");
    SquashRunsBlankLineExample();
  }
}
