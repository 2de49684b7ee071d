/** The JavaScript string built-ins that the generators and helpers use, with
    JavaScript's own edge-case semantics: clamped search positions for
    `indexOf`/`lastIndexOf`, negative indices for `slice`, first-occurrence
    `replace` with a string pattern, global `replace` with a literal regular
    expression, `trim` over JavaScript's white-space set, `split`/`join` on a
    separator, and `toLowerCase` (ASCII letters only). Strings are sequences of
    characters. */
module JsString {

  /** `p` occurs in `s` starting at index `k`. */
  predicate OccursAt(s: string, p: string, k: int)
  {
    0 <= k && k + |p| <= |s| && s[k..k + |p|] == p
  }

  predicate Contains(s: string, p: string)
  {
    exists k | 0 <= k <= |s| :: OccursAt(s, p, k)
  }

  predicate StartsWith(s: string, p: string)
  {
    |p| <= |s| && s[..|p|] == p
  }

  predicate EndsWith(s: string, p: string)
  {
    |p| <= |s| && s[|s| - |p|..] == p
  }

  /** The start position `indexOf` and `lastIndexOf` use for a numeric
      position argument: clamped into 0..|s|. */
  function Clamp(pos: int, len: nat): (r: nat)
    ensures r <= len
    ensures 0 <= pos <= len ==> r == pos
  {
    if pos < 0 then 0 else if pos > len then len else pos
  }

  /** Leftmost occurrence of `p` at or after `k`, or -1. */
  function IndexOfFrom(s: string, p: string, k: nat): (r: int)
    requires k <= |s|
    ensures r == -1 || (k <= r && OccursAt(s, p, r))
    ensures forall j :: k <= j && (r == -1 || j < r) ==> !OccursAt(s, p, j)
    decreases |s| - k
  {
    if OccursAt(s, p, k) then k
    else if k == |s| then -1
    else IndexOfFrom(s, p, k + 1)
  }

  /** `s.indexOf(p, pos)`. */
  function IndexOf(s: string, p: string, pos: int): (r: int)
    ensures r == -1 || (Clamp(pos, |s|) <= r && OccursAt(s, p, r))
    ensures forall j :: Clamp(pos, |s|) <= j && (r == -1 || j < r) ==> !OccursAt(s, p, j)
  {
    IndexOfFrom(s, p, Clamp(pos, |s|))
  }

  /** Rightmost occurrence of `p` at or before `k`, or -1. */
  function LastIndexOfAtMost(s: string, p: string, k: nat): (r: int)
    ensures r == -1 || (r <= k && OccursAt(s, p, r))
    ensures forall j :: r < j <= k ==> !OccursAt(s, p, j)
    decreases k
  {
    if OccursAt(s, p, k) then k
    else if k == 0 then -1
    else LastIndexOfAtMost(s, p, k - 1)
  }

  /** `s.lastIndexOf(p, pos)`; with no position argument JavaScript searches
      from the end, which is `pos == |s|`. */
  function LastIndexOf(s: string, p: string, pos: int): (r: int)
    ensures r == -1 || (r <= Clamp(pos, |s|) && OccursAt(s, p, r))
    ensures forall j :: r < j <= Clamp(pos, |s|) ==> !OccursAt(s, p, j)
  {
    LastIndexOfAtMost(s, p, Clamp(pos, |s|))
  }

  /** `s.includes(p)`. */
  function Includes(s: string, p: string): (b: bool)
    ensures b <==> Contains(s, p)
  {
    var i := IndexOf(s, p, 0);
    assert i != -1 ==> OccursAt(s, p, i);
    i != -1
  }

  /** `s.charAt(i)`: the character at `i` as a string, or the empty
      string outside the bounds. */
  function CharAt(s: string, i: int): (r: string)
    ensures 0 <= i < |s| ==> r == [s[i]]
    ensures !(0 <= i < |s|) ==> r == ""
  {
    if 0 <= i < |s| then [s[i]] else ""
  }

  /** How `slice` resolves an index: a negative one counts from the end,
      and the result is clamped into 0..len. */
  function RelIndex(i: int, len: nat): (r: nat)
    ensures r <= len
    ensures 0 <= i ==> r == if i <= len then i else len
    ensures i < 0 ==> r == if len + i < 0 then 0 else len + i
  {
    if i < 0 then (if len + i < 0 then 0 else len + i)
    else if i > len then len
    else i
  }

  /** `s.slice(start, end)`. */
  function Slice(s: string, start: int, end: int): string
  {
    var a, b := RelIndex(start, |s|), RelIndex(end, |s|);
    if a < b then s[a..b] else []
  }

  /** `s.slice(0, at) + ins + s.slice(at)`: the splice every patcher performs.
      A negative `at` counts from the end, so -1 (a failed search) puts `ins`
      before the final character; removing `ins` again gives back `s`. */
  function Splice(s: string, at: int, ins: string): (r: string)
    ensures var k := RelIndex(at, |s|); r == s[..k] + ins + s[k..]
    ensures |r| == |s| + |ins|
    ensures var k := RelIndex(at, |s|); r[..k] + r[k + |ins|..] == s && r[k..k + |ins|] == ins
  {
    var k := RelIndex(at, |s|);
    var r := Slice(s, 0, at) + ins + Slice(s, at, |s|);
    assert r == s[..k] + ins + s[k..];
    assert r[..k] == s[..k] && r[k..k + |ins|] == ins && r[k + |ins|..] == s[k..];
    assert s[..k] + s[k..] == s;
    r
  }

  /** The replacement text of a `replace` with a string pattern, after
      the replacement patterns are expanded: `$$` gives `$`, `$&` the
      matched text, `` $` `` the text before the match and `$'` the text
      after it. A string pattern has no capture groups, so `$1` and `$<`
      stay literal, as does any other `$`. */
  function Expand(r: string, matched: string, before: string, after: string): (t: string)
    ensures '$' !in r ==> t == r
    decreases |r|
  {
    if |r| == 0 then []
    else if r[0] == '$' && |r| >= 2 && r[1] == '$' then "$" + Expand(r[2..], matched, before, after)
    else if r[0] == '$' && |r| >= 2 && r[1] == '&' then matched + Expand(r[2..], matched, before, after)
    else if r[0] == '$' && |r| >= 2 && r[1] == '`' then before + Expand(r[2..], matched, before, after)
    else if r[0] == '$' && |r| >= 2 && r[1] == '\'' then after + Expand(r[2..], matched, before, after)
    else [r[0]] + Expand(r[1..], matched, before, after)
  }

  /** Each of the four patterns, and a `$` that starts none of them. */
  lemma ExpandPatterns(matched: string, before: string, after: string)
    ensures Expand("$$", matched, before, after) == "$"
    ensures Expand("$&", matched, before, after) == matched
    ensures Expand("$`", matched, before, after) == before
    ensures Expand("$'", matched, before, after) == after
    ensures Expand("$1", matched, before, after) == "$1"
  {
    assert "$$"[2..] == [] && "$&"[2..] == [] && "$`"[2..] == [] && "$'"[2..] == [];
    assert "$1"[1..] == "1" && "1"[1..] == [];
  }

  /** `s.replace(p, r)` with a string pattern: only the first occurrence is
      replaced, by `r` with its replacement patterns expanded, and nothing
      happens when there is none. */
  function ReplaceFirst(s: string, p: string, r: string): (t: string)
    ensures !Contains(s, p) ==> t == s
    ensures forall k :: OccursAt(s, p, k) && (forall j :: 0 <= j < k ==> !OccursAt(s, p, j)) ==>
              t == s[..k] + Expand(r, p, s[..k], s[k + |p|..]) + s[k + |p|..]
    ensures '$' !in r ==> forall k :: OccursAt(s, p, k) && (forall j :: 0 <= j < k ==> !OccursAt(s, p, j)) ==>
              t == s[..k] + r + s[k + |p|..]
  {
    var i := IndexOf(s, p, 0);
    FirstIndex(s, p);
    if i == -1 then s
    else
      SpliceFirst(s, p, r);
      SpliceAt(s, p, r, i)
  }

  /** `s` with the occurrence of `p` at `i` replaced by the expansion of `r`. */
  function SpliceAt(s: string, p: string, r: string, i: nat): (t: string)
    requires i + |p| <= |s|
    ensures '$' !in r ==> t == s[..i] + r + s[i + |p|..]
  {
    s[..i] + Expand(r, p, s[..i], s[i + |p|..]) + s[i + |p|..]
  }

  /** Splicing at `indexOf(p)` is splicing at the first occurrence. */
  lemma SpliceFirst(s: string, p: string, r: string)
    requires IndexOf(s, p, 0) != -1
    ensures forall k :: OccursAt(s, p, k) && (forall j :: 0 <= j < k ==> !OccursAt(s, p, j)) ==>
              SpliceAt(s, p, r, IndexOf(s, p, 0)) == s[..k] + Expand(r, p, s[..k], s[k + |p|..]) + s[k + |p|..]
  {
    forall k | OccursAt(s, p, k) && (forall j :: 0 <= j < k ==> !OccursAt(s, p, j))
      ensures SpliceAt(s, p, r, IndexOf(s, p, 0)) == s[..k] + Expand(r, p, s[..k], s[k + |p|..]) + s[k + |p|..]
    {
      FirstIndexAt(s, p, k);
      assert SpliceAt(s, p, r, k) == s[..k] + Expand(r, p, s[..k], s[k + |p|..]) + s[k + |p|..];
    }
  }

  /** `indexOf(p)` finds the first occurrence. */
  lemma FirstIndexAt(s: string, p: string, k: nat)
    requires OccursAt(s, p, k) && forall j :: 0 <= j < k ==> !OccursAt(s, p, j)
    ensures IndexOf(s, p, 0) == k
  {
    var i := IndexOf(s, p, 0);
    assert i != -1 && !(i < k) && !(k < i);
  }

  /** `indexOf(p)` is -1 without an occurrence, and otherwise the first one. */
  lemma FirstIndex(s: string, p: string)
    ensures !Contains(s, p) ==> IndexOf(s, p, 0) == -1
    ensures forall k :: OccursAt(s, p, k) && (forall j :: 0 <= j < k ==> !OccursAt(s, p, j)) ==>
              IndexOf(s, p, 0) == k
  {
    var i := IndexOf(s, p, 0);
    if i != -1 {
      assert OccursAt(s, p, i) && 0 <= i <= |s|;
    }
    forall k | OccursAt(s, p, k) && (forall j :: 0 <= j < k ==> !OccursAt(s, p, j))
      ensures i == k
    {
      FirstIndexAt(s, p, k);
    }
  }

  /** `s.replace(/p/g, r)` for a literal, non-empty pattern `p`: a
      left-to-right scan that replaces non-overlapping occurrences. The
      replacement is inserted as it is, which is what JavaScript does for a
      replacement without `$`. */
  function ReplaceAll(s: string, p: string, r: string): string
    requires |p| > 0
    decreases |s|
  {
    if |s| < |p| then s
    else if s[..|p|] == p then r + ReplaceAll(s[|p|..], p, r)
    else [s[0]] + ReplaceAll(s[1..], p, r)
  }

  /** Without an occurrence of the pattern, a global replace changes nothing. */
  lemma {:induction false} ReplaceAllAbsent(s: string, p: string, r: string)
    requires |p| > 0 && !Contains(s, p)
    ensures ReplaceAll(s, p, r) == s
    decreases |s|
  {
    if |s| >= |p| {
      assert !OccursAt(s, p, 0);
      assert s[..|p|] != p;
      forall k ensures !OccursAt(s[1..], p, k) {
        if OccursAt(s[1..], p, k) {
          assert s[1..][k..k + |p|] == s[k + 1..k + 1 + |p|];
          assert OccursAt(s, p, k + 1);
        }
      }
      ReplaceAllAbsent(s[1..], p, r);
      assert s == [s[0]] + s[1..];
    }
  }

  /** A prefix that does not contain the pattern's first character is copied
      unchanged, since no occurrence can start inside it. */
  lemma {:induction false} ReplaceAllSkipsPrefix(x: string, b: string, p: string, r: string)
    requires |p| > 0 && p[0] !in x
    ensures ReplaceAll(x + b, p, r) == x + ReplaceAll(b, p, r)
    decreases |x|
  {
    if |x| > 0 {
      var s := x + b;
      assert s[0] == x[0] && x[0] != p[0];
      if |s| >= |p| {
        assert s[..|p|] != p;
      }
      assert s[1..] == x[1..] + b;
      ReplaceAllSkipsPrefix(x[1..], b, p, r);
      assert x == [x[0]] + x[1..];
    } else {
      assert x + b == b;
    }
  }

  /** A prefix in which no occurrence of the pattern starts is copied
      unchanged. */
  lemma {:induction false} ReplaceAllKeepsPrefix(x: string, b: string, p: string, r: string)
    requires |p| > 0 && forall k :: 0 <= k < |x| ==> !OccursAt(x + b, p, k)
    ensures ReplaceAll(x + b, p, r) == x + ReplaceAll(b, p, r)
    decreases |x|
  {
    var s := x + b;
    if |x| > 0 {
      assert !OccursAt(s, p, 0);
      forall k | 0 <= k < |x| - 1 ensures !OccursAt(x[1..] + b, p, k) {
        assert !OccursAt(s, p, k + 1);
        assert x[1..] + b == s[1..];
        if k + |p| <= |s| - 1 {
          assert s[1..][k..k + |p|] == s[k + 1..k + 1 + |p|];
        }
      }
      assert s[1..] == x[1..] + b;
      ReplaceAllKeepsPrefix(x[1..], b, p, r);
      assert x == [x[0]] + x[1..];
    } else {
      assert x + b == b;
    }
  }

  /** A separator character that the pattern does not contain splits a
      global replace: no occurrence can straddle it. */
  lemma {:induction false} ReplaceAllSplits(a: string, c: char, b: string, p: string, r: string)
    requires |p| > 0 && c !in p
    ensures ReplaceAll(a + [c] + b, p, r) == ReplaceAll(a, p, r) + [c] + ReplaceAll(b, p, r)
    decreases |a|
  {
    var s := a + [c] + b;
    if |a| < |p| {
      ShortSideSplits(a, c, b, p, r);
    } else {
      assert a[..|p|] == s[..|p|];
      if s[..|p|] == p {
        assert s[|p|..] == a[|p|..] + [c] + b;
        ReplaceAllSplits(a[|p|..], c, b, p, r);
      } else {
        assert s[1..] == a[1..] + [c] + b;
        ReplaceAllSplits(a[1..], c, b, p, r);
      }
    }
  }

  /** A global replace of a pattern without line breaks acts line by line
      on joined lines. */
  lemma {:induction false} JoinReplaceAll(xs: seq<string>, ys: seq<string>, p: string, r: string)
    requires |p| > 0 && '\n' !in p && |xs| == |ys| > 0
    requires forall i :: 0 <= i < |xs| ==> ReplaceAll(xs[i], p, r) == ys[i]
    ensures ReplaceAll(Join(xs, "\n"), p, r) == Join(ys, "\n")
    decreases |xs|
  {
    if |xs| > 1 {
      JoinReplaceAll(xs[1..], ys[1..], p, r);
      ReplaceAllSplits(xs[0], '\n', Join(xs[1..], "\n"), p, r);
      assert Join(xs, "\n") == xs[0] + ['\n'] + Join(xs[1..], "\n");
      assert Join(ys, "\n") == ys[0] + ['\n'] + Join(ys[1..], "\n");
    }
  }

  /** The case of `ReplaceAllSplits` where `a` is shorter than the
      pattern: nothing in `a + [c]` can start an occurrence. */
  lemma ShortSideSplits(a: string, c: char, b: string, p: string, r: string)
    requires |p| > 0 && c !in p && |a| < |p|
    ensures ReplaceAll(a + [c] + b, p, r) == ReplaceAll(a, p, r) + [c] + ReplaceAll(b, p, r)
  {
    var s := a + [c] + b;
    forall k | 0 <= k < |a + [c]| ensures !OccursAt((a + [c]) + b, p, k) {
      if k + |p| <= |s| {
        assert s[k..k + |p|][|a| - k] == c;
      }
    }
    ReplaceAllKeepsPrefix(a + [c], b, p, r);
    assert s == (a + [c]) + b;
  }

  // ---- Case mapping -------------------------------------------------------

  function LowerChar(c: char): char
  {
    if 'A' <= c <= 'Z' then (c as int + 32) as char else c
  }

  /** `s.toLowerCase()`, for the ASCII letters. */
  function Lower(s: string): (r: string)
    ensures |r| == |s|
    ensures forall i :: 0 <= i < |s| ==> r[i] == LowerChar(s[i])
  {
    seq(|s|, i requires 0 <= i < |s| => LowerChar(s[i]))
  }

  lemma LowerConcat(a: string, b: string)
    ensures Lower(a + b) == Lower(a) + Lower(b)
  {
  }

  /** Lowering adds no character that is not a lower-case letter. */
  lemma LowerKeepsOut(s: string, c: char)
    requires c !in s && !('a' <= c <= 'z')
    ensures c !in Lower(s)
  {
    forall i | 0 <= i < |s| ensures Lower(s)[i] != c {
      assert s[i] != c;
    }
  }

  // ---- White space and trim -----------------------------------------------

  /** JavaScript's WhiteSpace and LineTerminator characters: what `trim`
      removes and what `\s` matches. */
  predicate IsJsSpace(c: char)
  {
    c == '\t' || c == '\n' || c == '\U{000B}' || c == '\U{000C}' || c == '\r' || c == ' '
    || c == '\U{00A0}' || c == '\U{1680}' || ('\U{2000}' <= c <= '\U{200A}')
    || c == '\U{2028}' || c == '\U{2029}' || c == '\U{202F}' || c == '\U{205F}'
    || c == '\U{3000}' || c == '\U{FEFF}'
  }

  /** The characters `.` does not match and `$` (multi-line) stops before. */
  predicate IsLineTerminator(c: char)
  {
    c == '\n' || c == '\r' || c == '\U{2028}' || c == '\U{2029}'
  }

  predicate AllSpace(s: string)
  {
    forall i :: 0 <= i < |s| ==> IsJsSpace(s[i])
  }

  function TrimStart(s: string): (r: string)
    ensures |r| <= |s| && r == s[|s| - |r|..]
    ensures AllSpace(s[..|s| - |r|])
    ensures r != [] ==> !IsJsSpace(r[0])
    decreases |s|
  {
    if |s| > 0 && IsJsSpace(s[0]) then
      var t := s[1..];
      var r := TrimStart(t);
      var n := |s| - |r|;
      assert AllSpace(s[..n]) by {
        forall i | 0 <= i < n ensures IsJsSpace(s[..n][i]) {
          if i > 0 {
            assert s[..n][i] == t[..n - 1][i - 1];
          }
        }
      }
      r
    else s
  }

  function TrimEnd(s: string): (r: string)
    ensures |r| <= |s| && r == s[..|r|]
    ensures AllSpace(s[|r|..])
    ensures r != [] ==> !IsJsSpace(r[|r| - 1])
    decreases |s|
  {
    if |s| > 0 && IsJsSpace(s[|s| - 1]) then
      var t := s[..|s| - 1];
      var r := TrimEnd(t);
      assert AllSpace(s[|r|..]) by {
        forall i | 0 <= i < |s| - |r| ensures IsJsSpace(s[|r|..][i]) {
          if i < |s| - 1 - |r| {
            assert s[|r|..][i] == t[|r|..][i];
          }
        }
      }
      r
    else s
  }

  /** `s.trim()`: the infix left between leading and trailing white space. */
  function Trim(s: string): string
  {
    TrimEnd(TrimStart(s))
  }

  /** What `trim` leaves is an infix with white space on both sides. */
  lemma TrimInfix(s: string)
    ensures var r := Trim(s);
            exists i :: 0 <= i && i + |r| <= |s| && r == s[i..i + |r|]
                        && AllSpace(s[..i]) && AllSpace(s[i + |r|..])
  {
    TrimWitness(s, TrimStart(s), Trim(s));
  }

  /** Trimming the start and then the end leaves an infix of `s` with
      white space on both sides. */
  lemma TrimWitness(s: string, t: string, r: string)
    requires |t| <= |s| && t == s[|s| - |t|..] && AllSpace(s[..|s| - |t|])
    requires |r| <= |t| && r == t[..|r|] && AllSpace(t[|r|..])
    ensures exists i :: 0 <= i && i + |r| <= |s| && r == s[i..i + |r|]
                        && AllSpace(s[..i]) && AllSpace(s[i + |r|..])
  {
    var i := |s| - |t|;
    assert r == s[i..i + |r|];
    assert s[i + |r|..] == t[|r|..];
  }

  /** What `trim` leaves neither starts nor ends with white space. */
  lemma TrimEnds(s: string)
    ensures var r := Trim(s); r != [] ==> !IsJsSpace(r[0]) && !IsJsSpace(r[|r| - 1])
  {
  }

  /** A blank line in the sense of `line.trim() === ''`. */
  lemma TrimEmptyIffAllSpace(s: string)
    ensures Trim(s) == [] <==> AllSpace(s)
  {
    var t := TrimStart(s);
    var i := |s| - |t|;
    if Trim(s) == [] {
      assert t[|TrimEnd(t)|..] == t;
      assert s[..i] == s;
    }
  }

  /** Trimming a text that is white space, a core with non-space ends, and
      white space again gives back the core. */
  lemma {:induction false} TrimAround(pre: string, core: string, post: string)
    requires AllSpace(pre) && AllSpace(post)
    requires core != [] && !IsJsSpace(core[0]) && !IsJsSpace(core[|core| - 1])
    ensures Trim(pre + core + post) == core
  {
    var s := pre + core + post;
    assert s == pre + (core + post);
    TrimStartSkips(pre, core + post);
    TrimEndSkips(core, post);
    assert Trim(s) == TrimEnd(TrimStart(s));
  }

  /** Trimming a text with non-space ends followed by a line break drops
      just the line break. */
  lemma TrimFinalNewline(core: string)
    requires core != [] && !IsJsSpace(core[0]) && !IsJsSpace(core[|core| - 1])
    ensures Trim(core + "\n") == core
  {
    assert core + "\n" == [] + core + "\n";
    TrimAround([], core, "\n");
  }

  lemma {:induction false} TrimStartSkips(pre: string, rest: string)
    requires AllSpace(pre) && rest != [] && !IsJsSpace(rest[0])
    ensures TrimStart(pre + rest) == rest
    decreases |pre|
  {
    if pre == [] {
      assert pre + rest == rest;
    } else {
      assert (pre + rest)[1..] == pre[1..] + rest;
      TrimStartSkips(pre[1..], rest);
    }
  }

  lemma {:induction false} TrimEndSkips(rest: string, post: string)
    requires AllSpace(post) && rest != [] && !IsJsSpace(rest[|rest| - 1])
    ensures TrimEnd(rest + post) == rest
    decreases |post|
  {
    if post == [] {
      assert rest + post == rest;
    } else {
      assert (rest + post)[..|rest + post| - 1] == rest + post[..|post| - 1];
      TrimEndSkips(rest, post[..|post| - 1]);
    }
  }

  // ---- split / join ---------------------------------------------------------

  /** `parts.join(sep)`. */
  function Join(parts: seq<string>, sep: string): string
  {
    if |parts| == 0 then []
    else if |parts| == 1 then parts[0]
    else parts[0] + sep + Join(parts[1..], sep)
  }

  function CountChar(s: string, c: char): (n: nat)
    ensures n <= |s|
  {
    if s == [] then 0 else (if s[0] == c then 1 else 0) + CountChar(s[1..], c)
  }

  /** `s.split(c)` for a one-character separator: the pieces between the
      separators, never containing it, that `join` glues back into `s`. */
  function Split(s: string, c: char): (parts: seq<string>)
    ensures |parts| == CountChar(s, c) + 1
    ensures forall i :: 0 <= i < |parts| ==> c !in parts[i]
    ensures Join(parts, [c]) == s
    decreases |s|
  {
    if s == [] then [[]]
    else
      var rest := Split(s[1..], c);
      if s[0] == c then
        assert Join([[]] + rest, [c]) == [] + [c] + Join(rest, [c]);
        [[]] + rest
      else
        var parts := [[s[0]] + rest[0]] + rest[1..];
        assert Join(parts, [c]) == [s[0]] + Join(rest, [c]) by {
          if |rest| > 1 {
            assert parts[1..] == rest[1..];
          }
        }
        parts
  }

  lemma SplitWithout(s: string, c: char)
    requires c !in s
    ensures Split(s, c) == [s]
  {
    var parts := Split(s, c);
    assert CountChar(s, c) == 0 by { CountCharAbsent(s, c); }
    assert Join(parts, [c]) == parts[0];
  }

  lemma {:induction false} CountCharAbsent(s: string, c: char)
    requires c !in s
    ensures CountChar(s, c) == 0
    decreases |s|
  {
    if s != [] {
      assert c !in s[1..];
      CountCharAbsent(s[1..], c);
    }
  }

  lemma {:induction false} CountCharPresent(s: string, c: char)
    requires c in s
    ensures CountChar(s, c) >= 1
    decreases |s|
  {
    if s[0] != c {
      assert c in s[1..] by {
        var i :| 0 <= i < |s| && s[i] == c;
        assert s[1..][i - 1] == c;
      }
      CountCharPresent(s[1..], c);
    }
  }

  /** The first piece of `split` is the text before the first separator. */
  lemma {:induction false} SplitHead(a: string, c: char, b: string)
    requires c !in a
    ensures Split(a + [c] + b, c)[0] == a
    ensures |Split(a + [c] + b, c)| >= 2
    ensures Split(a + [c] + b, c)[1..] == Split(b, c)
    decreases |a|
  {
    var s := a + [c] + b;
    if a == [] {
      assert s[0] == c && s[1..] == b;
    } else {
      assert s[0] == a[0] && s[1..] == a[1..] + [c] + b;
      SplitHead(a[1..], c, b);
      assert a == [a[0]] + a[1..];
    }
  }

  /** Splitting a join undoes it when no piece holds the separator. */
  lemma {:induction false} SplitJoin(lines: seq<string>, c: char)
    requires |lines| > 0 && forall i :: 0 <= i < |lines| ==> c !in lines[i]
    ensures Split(Join(lines, [c]), c) == lines
    decreases |lines|
  {
    if |lines| == 1 {
      SplitWithout(lines[0], c);
    } else {
      SplitHead(lines[0], c, Join(lines[1..], [c]));
      SplitJoin(lines[1..], c);
      var parts := Split(Join(lines, [c]), c);
      assert parts == [parts[0]] + parts[1..];
    }
  }

  /** Appending a piece appends the separator and the piece. */
  lemma {:induction false} JoinSnoc(parts: seq<string>, last: string, sep: string)
    requires |parts| > 0
    ensures Join(parts + [last], sep) == Join(parts, sep) + sep + last
    decreases |parts|
  {
    var all := parts + [last];
    if |parts| > 1 {
      assert all[1..] == parts[1..] + [last];
      JoinSnoc(parts[1..], last, sep);
    }
  }

  /** A join of two or more pieces ends with the separator and the last. */
  lemma JoinEndsWithLast(parts: seq<string>, sep: string)
    requires |parts| >= 2
    ensures EndsWith(Join(parts, sep), sep + parts[|parts| - 1])
  {
    var n := |parts| - 1;
    assert parts == parts[..n] + [parts[n]];
    JoinSnoc(parts[..n], parts[n], sep);
    var j := Join(parts, sep);
    assert j[|j| - |sep + parts[n]|..] == sep + parts[n];
  }

  /** Every piece of `parts` is a substring of its join. */
  lemma {:induction false} JoinContainsPart(parts: seq<string>, sep: string, i: nat)
    requires i < |parts|
    ensures Contains(Join(parts, sep), parts[i])
    decreases |parts|
  {
    var j := Join(parts, sep);
    if |parts| == 1 || i == 0 {
      assert j[0..|parts[0]|] == parts[0];
      assert OccursAt(j, parts[i], 0);
    } else {
      JoinContainsPart(parts[1..], sep, i - 1);
      var rest := Join(parts[1..], sep);
      assert j == parts[0] + sep + rest;
      ContainsTransitive(j, rest, parts[i], |parts[0] + sep|);
    }
  }

  /** A substring of a substring is a substring. */
  lemma ContainsTransitive(s: string, t: string, p: string, k: int)
    requires 0 <= k && k + |t| <= |s| && s[k..k + |t|] == t
    requires Contains(t, p)
    ensures Contains(s, p)
  {
    var j :| 0 <= j <= |t| && OccursAt(t, p, j);
    assert j + |p| <= |t|;
    var w := s[k + j..k + j + |p|];
    forall m | 0 <= m < |p| ensures w[m] == p[m] {
      assert w[m] == s[k..k + |t|][j + m] == t[j + m] == t[j..j + |p|][m];
    }
    assert w == p;
    assert OccursAt(s, p, k + j);
  }

  /** A string contains each of its infixes, and so whatever they contain. */
  lemma ContainsInfix(a: string, b: string, c: string, p: string)
    requires Contains(b, p)
    ensures Contains(a + b + c, p)
  {
    var s := a + b + c;
    assert s[|a|..|a| + |b|] == b;
    ContainsTransitive(s, b, p, |a|);
  }

  lemma OccursAtStart(p: string)
    ensures Contains(p, p)
  {
    assert OccursAt(p, p, 0);
  }

  /** Containment is transitive. */
  lemma ContainsWithin(s: string, t: string, p: string)
    requires Contains(s, t) && Contains(t, p)
    ensures Contains(s, p)
  {
    var k :| 0 <= k <= |s| && OccursAt(s, t, k);
    ContainsTransitive(s, t, p, k);
  }

  // ---- Locating a marker ----------------------------------------------------

  /** No proper suffix of `p` is also a prefix of `p`, so two occurrences of
      `p` can never overlap. */
  predicate BorderFree(p: string)
  {
    forall d :: 0 < d < |p| ==> !StartsWith(p, p[d..])
  }

  /** A pattern whose first character does not recur is border free. */
  lemma BorderFreeByHead(p: string)
    requires forall d :: 0 < d < |p| ==> p[d] != p[0]
    ensures BorderFree(p)
  {
    forall d | 0 < d < |p| ensures !StartsWith(p, p[d..]) {
      assert p[d..][0] == p[d];
    }
  }

  /** In `x + p + y`, the occurrence after `x` is the first one when `x`
      holds none. */
  lemma FirstOccurrence(x: string, p: string, y: string)
    requires !Contains(x, p) && BorderFree(p)
    ensures IndexOf(x + p + y, p, 0) == |x|
  {
    var s := x + p + y;
    assert OccursAt(s, p, |x|) by {
      assert s[|x|..|x| + |p|] == p;
    }
    forall j | 0 <= j < |x| ensures !OccursAt(s, p, j) {
      if j + |p| <= |x| {
        assert s[j..j + |p|] == x[j..j + |p|];
        assert !OccursAt(x, p, j);
      } else {
        var d := |x| - j;
        assert !StartsWith(p, p[d..]);
        assert s[j..j + |p|][d..] == p[..|p| - d];
      }
    }
  }

  /** `replace` acts on the occurrence after `x` when `x` holds none. */
  lemma ReplaceFirstAfter(x: string, p: string, y: string, r: string)
    requires !Contains(x, p) && BorderFree(p)
    ensures ReplaceFirst(x + p + y, p, r) == x + Expand(r, p, x, y) + y
    ensures '$' !in r ==> ReplaceFirst(x + p + y, p, r) == x + r + y
  {
    var s := x + p + y;
    FirstOccurrence(x, p, y);
    assert s[..|x|] == x && s[|x| + |p|..] == y;
  }

  /** In `x + p + y`, the occurrence before `y` is the last one when `y`
      holds none. */
  lemma LastOccurrence(x: string, p: string, y: string)
    requires !Contains(y, p) && BorderFree(p)
    ensures LastIndexOf(x + p + y, p, |x + p + y|) == |x|
  {
    var s := x + p + y;
    assert OccursAt(s, p, |x|) by {
      assert s[|x|..|x| + |p|] == p;
    }
    forall j | |x| < j <= |s| ensures !OccursAt(s, p, j) {
      if j >= |x| + |p| {
        var i := j - |x| - |p|;
        if j + |p| <= |s| {
          assert s[j..j + |p|] == y[i..i + |p|];
        }
        assert !OccursAt(y, p, i);
      } else {
        var d := j - |x|;
        assert !StartsWith(p, p[d..]);
        if j + |p| <= |s| {
          assert s[j..j + |p|][..|p| - d] == p[d..];
        }
      }
    }
  }

  /** Splicing at the last occurrence of a border-free `p` inserts right
      before it. */
  lemma SpliceBeforeLast(x: string, p: string, y: string, ins: string)
    requires !Contains(y, p) && BorderFree(p)
    ensures var s := x + p + y; Splice(s, LastIndexOf(s, p, |s|), ins) == x + ins + (p + y)
  {
    var s := x + p + y;
    LastOccurrence(x, p, y);
    assert s[..|x|] == x && s[|x|..] == p + y;
  }

  /** A character the pattern lacks cannot complete an occurrence. */
  lemma ContainsExtendChar(x: string, c: char, p: string)
    requires !Contains(x, p) && c !in p
    ensures !Contains(x + [c], p)
  {
    var s := x + [c];
    assert OccursAt(x, [], 0);
    forall j | 0 <= j <= |s| ensures !OccursAt(s, p, j) {
      if j + |p| <= |x| {
        assert s[j..j + |p|] == x[j..j + |p|];
        assert !OccursAt(x, p, j);
      } else if j + |p| == |s| && j < |s| {
        assert s[j..j + |p|][|p| - 1] == c;
      }
    }
  }

  /** Searching from the end of `a`, the first `c` is the one after `m`
      when `m` holds none. */
  lemma NextChar(a: string, m: string, c: char, z: string)
    requires c !in m
    ensures IndexOf(a + m + [c] + z, [c], |a|) == |a| + |m|
  {
    var s := a + m + [c] + z;
    assert s[|a| + |m|..|a| + |m| + 1] == [c];
    assert OccursAt(s, [c], |a| + |m|);
    forall j | |a| <= j < |a| + |m| ensures !OccursAt(s, [c], j) {
      assert s[j..j + 1][0] == m[j - |a|];
    }
  }

  // ---- Arrays of strings ---------------------------------------------------

  /** `lines.filter(keep)`. */
  function Filter(lines: seq<string>, keep: string -> bool): seq<string>
  {
    if lines == [] then []
    else (if keep(lines[0]) then [lines[0]] else []) + Filter(lines[1..], keep)
  }

  /** An element that passes the test survives the filter. */
  lemma {:induction false} FilterKeeps(lines: seq<string>, keep: string -> bool, i: nat)
    requires i < |lines| && keep(lines[i])
    ensures lines[i] in Filter(lines, keep)
  {
    if i > 0 {
      assert lines[1..][i - 1] == lines[i];
      FilterKeeps(lines[1..], keep, i - 1);
    }
  }

  /** The filter keeps exactly the elements that pass the test. */
  lemma {:induction false} FilterMember(lines: seq<string>, keep: string -> bool)
    ensures forall x :: x in Filter(lines, keep) <==> x in lines && keep(x)
  {
    if lines != [] {
      FilterMember(lines[1..], keep);
      assert lines == [lines[0]] + lines[1..];
    }
  }

  /** A pattern absent from `[c] + t` is absent from `t`. */
  lemma NotContainsTail(c: char, t: string, p: string)
    requires !Contains([c] + t, p)
    ensures !Contains(t, p)
  {
    forall k | 0 <= k <= |t| ensures !OccursAt(t, p, k) {
      assert !OccursAt([c] + t, p, k + 1);
      if k + |p| <= |t| {
        assert ([c] + t)[k + 1..k + 1 + |p|] == t[k..k + |p|];
      }
    }
  }

  /** The filter works element by element. */
  lemma {:induction false} FilterAppend(a: seq<string>, b: seq<string>, keep: string -> bool)
    ensures Filter(a + b, keep) == Filter(a, keep) + Filter(b, keep)
  {
    if a != [] {
      assert (a + b)[1..] == a[1..] + b;
      FilterAppend(a[1..], b, keep);
    } else {
      assert a + b == b;
    }
  }

  /** At most one dropped element, then one kept element. */
  lemma FilterPair(dropped: seq<string>, kept: string, keep: string -> bool)
    requires |dropped| <= 1 && (forall x :: x in dropped ==> !keep(x)) && keep(kept)
    ensures Filter(dropped + [kept], keep) == [kept]
  {
    assert [kept][1..] == [];
    assert Filter([kept], keep) == [kept];
    if dropped != [] {
      assert dropped[0] in dropped && (dropped + [kept])[1..] == [kept];
    } else {
      assert dropped + [kept] == [kept];
    }
  }
}
