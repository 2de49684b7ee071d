/** The dependency checker: which packages a JavaScript file asks for, and
    which of those `package.json` does not declare. Comments are stripped,
    `require('x')` and `from 'x'` literals are collected, local paths and
    scoped names are dropped, duplicates are merged, and the names the
    declared dependencies do not cover are handed to one `npm install`.
    The checker caches the declared dependencies after the first load. */
module DependencyChecker {
  import opened JsString
  import opened Wrappers
  import opened PackageJson

  // ---- Comment stripping ------------------------------------------------------

  /** The length of the first line of `s`: the index of its first line
      terminator, or the whole length. */
  function LineLength(s: string): (k: nat)
    ensures k <= |s|
    ensures forall i :: 0 <= i < k ==> !IsLineTerminator(s[i])
    ensures k < |s| ==> IsLineTerminator(s[k])
  {
    if s == [] || IsLineTerminator(s[0]) then 0 else 1 + LineLength(s[1..])
  }

  // `s.replace(/\/\/.*$/gm, '')`: each `//` goes together with the rest of
  // its line; the line terminator stays.
  function StripLineComments(s: string): string
    decreases |s|
  {
    if s == [] then []
    else if StartsWith(s, "//") then
      assert !IsLineTerminator(s[0]) && !IsLineTerminator(s[1]);
      StripLineComments(s[LineLength(s)..])
    else [s[0]] + StripLineComments(s[1..])
  }

  // `s.replace(/\/\*[\s\S]*?\*\//g, '')`: each `/*` that a later `*/`
  // closes goes, with the shortest text up to and including that `*/`;
  // an unclosed `/*` stays.
  function StripBlockComments(s: string): string
    decreases |s|
  {
    if s == [] then []
    else
      var close := IndexOf(s, "*/", 2);
      if StartsWith(s, "/*") && close >= 0 then StripBlockComments(s[close + 2..])
      else [s[0]] + StripBlockComments(s[1..])
  }

  /** Line comments first, then block comments. */
  function StripComments(content: string): string
  {
    StripBlockComments(StripLineComments(content))
  }

  // ---- The two patterns ---------------------------------------------------------

  /** `require\(['"]([^'"]+)['"]\)` and `from\s+['"]([^'"]+)['"]`. */
  datatype Pattern = RequireCall | FromClause

  /** A match: the captured name and the index just after the match. */
  datatype Hit = Hit(name: string, end: nat)

  predicate IsQuote(c: char)
  {
    c == '\'' || c == '"'
  }

  /** The end of the run of characters from `k` that `test` accepts. */
  function RunEnd(s: string, k: nat, test: char -> bool): (j: nat)
    requires k <= |s|
    ensures k <= j <= |s|
    ensures forall i :: k <= i < j ==> test(s[i])
    ensures j < |s| ==> !test(s[j])
    decreases |s| - k
  {
    if k == |s| || !test(s[k]) then k else RunEnd(s, k + 1, test)
  }

  predicate NotQuote(c: char)
  {
    !IsQuote(c)
  }

  /** `['"]([^'"]+)['"]` at `k`. The greedy run of non-quotes stops at the
      first quote, so no shorter run can succeed where it fails. */
  function QuotedAt(s: string, k: nat): (r: Option<Hit>)
    ensures r.Some? ==> var n := r.value.name;
      k + |n| + 2 == r.value.end <= |s| && s[k..r.value.end] == [s[k]] + n + [s[r.value.end - 1]]
      && IsQuote(s[k]) && IsQuote(s[r.value.end - 1]) && n != [] && forall c :: c in n ==> !IsQuote(c)
  {
    if k < |s| && IsQuote(s[k]) then
      var j := RunEnd(s, k + 1, NotQuote);
      if j > k + 1 && j < |s| then
        var n := s[k + 1..j];
        assert forall c :: c in n ==> !IsQuote(c) by {
          forall c | c in n ensures !IsQuote(c) {
            var i :| 0 <= i < |n| && n[i] == c;
            assert n[i] == s[k + 1 + i];
          }
        }
        assert s[k..j + 1] == [s[k]] + n + [s[j]];
        Some(Hit(n, j + 1))
      else None
    else None
  }

  /** The pattern tried at position `i` only. */
  function MatchAt(p: Pattern, s: string, i: nat): (r: Option<Hit>)
    ensures r.Some? ==> i < r.value.end <= |s|
  {
    match p
    case RequireCall =>
      if i + 8 <= |s| && s[i..i + 8] == "require(" then
        match QuotedAt(s, i + 8)
        case Some(h) => if h.end < |s| && s[h.end] == ')' then Some(Hit(h.name, h.end + 1)) else None
        case None => None
      else None
    case FromClause =>
      if i + 4 <= |s| && s[i..i + 4] == "from" then
        var k := RunEnd(s, i + 4, IsJsSpace);
        if k > i + 4 then QuotedAt(s, k) else None
      else None
  }

  /** `s.match(pattern/g)` from position `i`, each match reduced to its
      capture: a left-to-right search that resumes after every match. */
  function Captures(p: Pattern, s: string, i: nat): seq<string>
    requires i <= |s|
    decreases |s| - i
  {
    if i == |s| then []
    else
      match MatchAt(p, s, i)
      case Some(h) => [h.name] + Captures(p, s, h.end)
      case None => Captures(p, s, i + 1)
  }

  // ---- Extraction ----------------------------------------------------------------

  /** Names that are not local paths or scoped packages. */
  predicate NotLocal(name: string)
  {
    !StartsWith(name, ".") && !StartsWith(name, "/") && !StartsWith(name, "@")
  }

  /** `[...new Set(names)]`: the first occurrence of each name, in order. */
  function Dedup(names: seq<string>): (r: seq<string>)
    ensures forall x :: x in r <==> x in names
    ensures forall i, j :: 0 <= i < j < |r| ==> r[i] != r[j]
  {
    if names == [] then []
    else
      var d := Dedup(names[..|names| - 1]);
      var x := names[|names| - 1];
      assert forall y :: y in names ==> y in names[..|names| - 1] || y == x by {
        assert names == names[..|names| - 1] + [x];
      }
      if x in d then d else d + [x]
  }

  /** What `extractRequiredPackages` returns: `None` is a file that does
      not exist. */
  function RequiredPackages(file: Option<string>): seq<string>
  {
    match file
    case None => []
    case Some(content) =>
      var t := StripComments(content);
      Dedup(Filter(Captures(RequireCall, t, 0), NotLocal) + Filter(Captures(FromClause, t, 0), NotLocal))
  }

  // ---- The decision ----------------------------------------------------------

  /** How a call ends: normally with a value, or with the `TypeError` that
      `name in null` throws. */
  datatype Completion<T> = Normal(value: T) | TypeError

  /** What `checkAndInstallForFile` asks npm for. */
  datatype Decision = NoInstall | Install(packages: seq<string>)

  /** `loadDependencies` on a parsed file: the merged dependency object. */
  function Loaded(pkg: PackageFile): Option<map<string, JsonValue>>
  {
    if pkg.Parsed? then Some(Merged(pkg.dependencies, pkg.devDependencies)) else None
  }

  /** The cache after `isInstalled`: loaded only while it is `null`, and
      still `null` when the load fails. */
  function Cached(cache: Option<map<string, JsonValue>>, pkg: PackageFile): Option<map<string, JsonValue>>
  {
    if cache.Some? then cache else Loaded(pkg)
  }

  /** The names that `in` does not find, in order. */
  function NotInstalled(required: seq<string>, installed: map<string, JsonValue>): (r: seq<string>)
    ensures forall x :: x in r <==> x in required && !HasProperty(installed, x)
  {
    if required == [] then []
    else
      var n := |required| - 1;
      assert required == required[..n] + [required[n]];
      NotInstalled(required[..n], installed) + (if HasProperty(installed, required[n]) then [] else [required[n]])
  }

  lemma NotInstalledStep(required: seq<string>, i: nat, installed: map<string, JsonValue>)
    requires i < |required|
    ensures NotInstalled(required[..i + 1], installed)
            == NotInstalled(required[..i], installed) + (if HasProperty(installed, required[i]) then [] else [required[i]])
  {
    assert required[..i + 1][..i] == required[..i];
  }

  /** `checkAndInstallForFile` on the extracted names: the outcome and the
      cache afterwards. */
  function CheckForFile(cache: Option<map<string, JsonValue>>, pkg: PackageFile, required: seq<string>)
    : (Completion<Decision>, Option<map<string, JsonValue>>)
  {
    if required == [] then (Normal(NoInstall), cache)
    else
      var c := Cached(cache, pkg);
      if c.None? then (TypeError, cache)
      else
        var missing := NotInstalled(required, c.value);
        (if missing == [] then Normal(NoInstall) else Normal(Install(missing)), c)
  }

  /** The command `installMultiplePackages` runs for a non-empty list. */
  function InstallCommand(packages: seq<string>, isDev: bool): string
  {
    "npm install " + (if isDev then "--save-dev" else "--save") + " " + Join(packages, " ")
  }

  class Checker {
    /** `installedDependencies`: `None` is `null`. */
    var installedDependencies: Option<map<string, JsonValue>>

    constructor()
      ensures installedDependencies == None
    {
      installedDependencies := None;
    }

    /** `loadDependencies`: the merged object, or `{}` without touching the
        cache when the file is missing or does not parse. */
    method LoadDependencies(pkg: PackageFile) returns (r: map<string, JsonValue>)
      modifies this
      ensures pkg.Parsed? ==> r == Merged(pkg.dependencies, pkg.devDependencies)
                              && installedDependencies == Some(r)
      ensures !pkg.Parsed? ==> r == map[] && installedDependencies == old(installedDependencies)
    {
      match pkg
      case Missing =>
        return map[];
      case Unparsable =>
        return map[];
      case Parsed(dependencies, devDependencies) =>
        installedDependencies := Some(dependencies + devDependencies);
        return installedDependencies.value;
    }

    /** `isInstalled`: loads while the cache is `null`, then tests `in`. */
    method IsInstalled(pkg: PackageFile, name: string) returns (r: Completion<bool>)
      modifies this
      ensures installedDependencies == Cached(old(installedDependencies), pkg)
      ensures r == if installedDependencies.None? then TypeError
                   else Normal(HasProperty(installedDependencies.value, name))
    {
      if installedDependencies.None? {
        var _ := LoadDependencies(pkg);
      }
      if installedDependencies.None? {
        return TypeError;
      }
      return Normal(name in installedDependencies.value || name in ObjectPrototype);
    }

    /** `extractRequiredPackages`: the names of both kinds of match that
        are not local, then duplicates merged. */
    method ExtractRequiredPackages(file: Option<string>) returns (packages: seq<string>)
      ensures packages == RequiredPackages(file)
    {
      if file.None? {
        return [];
      }
      var withoutComments := StripComments(file.value);
      var requireMatches := Captures(RequireCall, withoutComments, 0);
      var importMatches := Captures(FromClause, withoutComments, 0);
      var found := PushNotLocal([], requireMatches);
      assert found == Filter(requireMatches, NotLocal);
      found := PushNotLocal(found, importMatches);
      packages := Dedup(found);
    }

    /** One `forEach` loop: each match that is not local is pushed. */
    method PushNotLocal(packages: seq<string>, matches: seq<string>) returns (r: seq<string>)
      ensures r == packages + Filter(matches, NotLocal)
    {
      r := packages;
      for i := 0 to |matches|
        invariant r == packages + Filter(matches[..i], NotLocal)
      {
        FilterAppend(matches[..i], [matches[i]], NotLocal);
        assert matches[..i + 1] == matches[..i] + [matches[i]];
        if NotLocal(matches[i]) {
          r := r + [matches[i]];
        }
      }
      assert matches[..|matches|] == matches;
    }

    /** `checkAndInstallForFile`, up to the install call: the names `in`
        does not find, in extraction order. */
    method CheckAndInstallForFile(pkg: PackageFile, file: Option<string>) returns (r: Completion<Decision>)
      modifies this
      ensures (r, installedDependencies) ==
              CheckForFile(old(installedDependencies), pkg, RequiredPackages(file))
    {
      var requiredPackages := ExtractRequiredPackages(file);
      var packagesToInstall := [];
      for i := 0 to |requiredPackages|
        invariant i == 0 ==> installedDependencies == old(installedDependencies) && packagesToInstall == []
        invariant i > 0 ==> installedDependencies == Cached(old(installedDependencies), pkg)
                            && installedDependencies.Some?
                            && packagesToInstall == NotInstalled(requiredPackages[..i], installedDependencies.value)
      {
        var installed := IsInstalled(pkg, requiredPackages[i]);
        match installed
        case TypeError =>
          return TypeError;
        case Normal(b) =>
          NotInstalledStep(requiredPackages, i, installedDependencies.value);
          if !b {
            packagesToInstall := packagesToInstall + [requiredPackages[i]];
          }
      }
      assert requiredPackages[..|requiredPackages|] == requiredPackages;
      if |packagesToInstall| > 0 {
        return Normal(Install(packagesToInstall));
      }
      return Normal(NoInstall);
    }
  }

  // ---- Properties of comment stripping -----------------------------------------

  /** The first line ends where the terminator after `p` starts. */
  lemma LineLengthOf(p: string, y: string)
    requires forall i :: 0 <= i < |p| ==> !IsLineTerminator(p[i])
    requires y == [] || IsLineTerminator(y[0])
    ensures LineLength(p + y) == |p|
  {
    var s := p + y;
    assert s[..|p|] == p;
    if y != [] {
      assert s[|p|] == y[0];
    }
  }

  /** Text whose every slash-started pair differs from `p` does not start
      with `p` when it is followed by a slash, and its tail has the same
      property. */
  lemma NoMarkerAtFront(x: string, r: string, p: string)
    requires x != [] && |p| == 2 && !Contains(x + "/", p) && r != [] && r[0] == '/'
    ensures !StartsWith(x + r, p) && !Contains(x[1..] + "/", p)
  {
    assert !OccursAt(x + "/", p, 0);
    assert (x + r)[0] == (x + "/")[0];
    assert (x + r)[1] == (x + "/")[1];
    assert x + "/" == [x[0]] + (x[1..] + "/");
    NotContainsTail(x[0], x[1..] + "/", p);
  }

  /** A line comment goes up to its line terminator and nothing else
      changes: text before it that holds no `//` (and does not end in `/`)
      is kept as it is. A `//` inside a string literal counts too, so a
      `require` after `'http://…'` on the same line is never seen. */
  lemma LineCommentRemoved(x: string, c: string, y: string)
    requires !Contains(x + "/", "//")
    requires forall i :: 0 <= i < |c| ==> !IsLineTerminator(c[i])
    requires y == [] || IsLineTerminator(y[0])
    ensures StripLineComments(x + "//" + c + y) == x + StripLineComments(y)
  {
    var t := "//" + c + y;
    calc {
      StripLineComments(x + "//" + c + y);
      { assert x + "//" + c + y == x + t; }
      StripLineComments(x + t);
      { LinePrefixKept(x, t); }
      x + StripLineComments(t);
      { LineDropsComment(c, y); }
      x + StripLineComments(y);
    }
  }

  lemma LineKeepsFirst(s: string)
    requires s != [] && !StartsWith(s, "//")
    ensures StripLineComments(s) == [s[0]] + StripLineComments(s[1..])
  {
  }

  /** A line comment at the front goes, up to its line terminator. */
  lemma LineDropsComment(c: string, y: string)
    requires forall i :: 0 <= i < |c| ==> !IsLineTerminator(c[i])
    requires y == [] || IsLineTerminator(y[0])
    ensures StripLineComments("//" + c + y) == StripLineComments(y)
  {
    var s := "//" + c + y;
    assert s == ("//" + c) + y;
    LineLengthOf("//" + c, y);
    assert s[|c| + 2..] == y;
  }

  // Text before a slash that holds no `//` is kept as it is.
  lemma {:induction false} LinePrefixKept(x: string, t: string)
    requires !Contains(x + "/", "//") && t != [] && t[0] == '/'
    ensures StripLineComments(x + t) == x + StripLineComments(t)
    decreases |x|
  {
    if x != [] {
      NoMarkerAtFront(x, t, "//");
      calc {
        StripLineComments(x + t);
        { LineKeepsFirst(x + t); }
        [(x + t)[0]] + StripLineComments((x + t)[1..]);
        { assert (x + t)[1..] == x[1..] + t; }
        [x[0]] + StripLineComments(x[1..] + t);
        { LinePrefixKept(x[1..], t); }
        [x[0]] + (x[1..] + StripLineComments(t));
        { assert x == [x[0]] + x[1..]; }
        x + StripLineComments(t);
      }
    } else {
      assert x + t == t;
    }
  }

  // The first closing `*/` after an opening `/*` is the one that ends `c`.
  lemma CloseAfter(c: string, y: string)
    requires !Contains(c, "*/")
    ensures IndexOf("/*" + c + "*/" + y, "*/", 2) == 2 + |c|
  {
    var s := "/*" + c + "*/" + y;
    assert OccursAt(s, "*/", 2 + |c|);
    forall j | 2 <= j < 2 + |c| ensures !OccursAt(s, "*/", j) {
      if j + 1 < 2 + |c| {
        assert s[j..j + 2] == c[j - 2..j];
        assert !OccursAt(c, "*/", j - 2);
      } else {
        assert s[j + 1] == '*';
        assert s[j..j + 2] != "*/" by { assert s[j..j + 2][1] == '*'; }
      }
    }
  }

  /** Text that does not open a block comment keeps its first character. */
  lemma BlockKeepsFirst(s: string)
    requires s != [] && !StartsWith(s, "/*")
    ensures StripBlockComments(s) == [s[0]] + StripBlockComments(s[1..])
  {
  }

  /** A closed block comment at the front goes, up to its first `*` `/`. */
  lemma BlockDropsComment(c: string, y: string)
    requires !Contains(c, "*/")
    ensures StripBlockComments("/*" + c + "*/" + y) == StripBlockComments(y)
  {
    var s := "/*" + c + "*/" + y;
    CloseAfter(c, y);
    assert s[2 + |c| + 2..] == y;
  }

  // Text before a slash that holds no `/*` is kept as it is.
  lemma {:induction false} BlockPrefixKept(x: string, t: string)
    requires !Contains(x + "/", "/*") && t != [] && t[0] == '/'
    ensures StripBlockComments(x + t) == x + StripBlockComments(t)
    decreases |x|
  {
    if x != [] {
      NoMarkerAtFront(x, t, "/*");
      calc {
        StripBlockComments(x + t);
        { BlockKeepsFirst(x + t); }
        [(x + t)[0]] + StripBlockComments((x + t)[1..]);
        { assert (x + t)[1..] == x[1..] + t; }
        [x[0]] + StripBlockComments(x[1..] + t);
        { BlockPrefixKept(x[1..], t); }
        [x[0]] + (x[1..] + StripBlockComments(t));
        { assert x == [x[0]] + x[1..]; }
        x + StripBlockComments(t);
      }
    } else {
      assert x + t == t;
    }
  }

  // A closed block comment goes and nothing else changes: text before it
  // that holds no `/*` (and does not end in `/`) is kept as it is.
  lemma BlockCommentRemoved(x: string, c: string, y: string)
    requires !Contains(x + "/", "/*") && !Contains(c, "*/")
    ensures StripBlockComments(x + "/*" + c + "*/" + y) == x + StripBlockComments(y)
  {
    var t := "/*" + c + "*/" + y;
    calc {
      StripBlockComments(x + "/*" + c + "*/" + y);
      { assert x + "/*" + c + "*/" + y == x + t; }
      StripBlockComments(x + t);
      { BlockPrefixKept(x, t); }
      x + StripBlockComments(t);
      { BlockDropsComment(c, y); }
      x + StripBlockComments(y);
    }
  }

  // ---- Properties of matching ---------------------------------------------------

  /** What a `require` match consists of: `require(`, a quote, the name, a
      quote and `)`. The name is never empty and holds no quote. */
  lemma RequireMatchSound(s: string, i: nat)
    requires MatchAt(RequireCall, s, i).Some?
    ensures var h := MatchAt(RequireCall, s, i).value; var q := i + 8;
      i + 4 < q && q + |h.name| + 2 <= h.end <= |s| && h.name != [] && (forall c :: c in h.name ==> !IsQuote(c))
      && IsQuote(s[q]) && s[q + 1..q + 1 + |h.name|] == h.name && IsQuote(s[q + 1 + |h.name|])
      && s[i..i + 8] == "require(" && h.end == i + 11 + |h.name| && s[h.end - 1] == ')'
  {
    var g := QuotedAt(s, i + 8).value;
    assert s[i + 8..g.end] == [s[i + 8]] + g.name + [s[g.end - 1]];
    assert s[i + 9..i + 9 + |g.name|] == s[i + 8..g.end][1..1 + |g.name|];
  }

  /** What a `from` match consists of: `from`, at least one white-space
      character, a quote, the name and a quote. The name is never empty and
      holds no quote. */
  lemma FromMatchSound(s: string, i: nat)
    requires MatchAt(FromClause, s, i).Some?
    ensures var h := MatchAt(FromClause, s, i).value; var q := h.end - |h.name| - 2;
      i + 4 < q && q + |h.name| + 2 <= h.end <= |s| && h.name != [] && (forall c :: c in h.name ==> !IsQuote(c))
      && IsQuote(s[q]) && s[q + 1..q + 1 + |h.name|] == h.name && IsQuote(s[q + 1 + |h.name|])
      && s[i..i + 4] == "from" && forall j :: i + 4 <= j < q ==> IsJsSpace(s[j])
  {
    var k := RunEnd(s, i + 4, IsJsSpace);
    var g := QuotedAt(s, k).value;
    assert s[k..g.end] == [s[k]] + g.name + [s[g.end - 1]];
    assert s[k + 1..k + 1 + |g.name|] == s[k..g.end][1..1 + |g.name|];
  }

  /** A run ends at the first character the test refuses. */
  lemma RunEndAt(s: string, k: nat, m: nat, test: char -> bool)
    requires k <= m < |s| && !test(s[m]) && forall j :: k <= j < m ==> test(s[j])
    ensures RunEnd(s, k, test) == m
  {
  }

  /** A quote, a non-empty quote-free name and a quote are matched as that
      name. */
  lemma QuotedFound(s: string, k: nat, name: string)
    requires k + |name| + 2 <= |s| && IsQuote(s[k]) && IsQuote(s[k + 1 + |name|])
    requires s[k + 1..k + 1 + |name|] == name && name != [] && forall c :: c in name ==> !IsQuote(c)
    ensures QuotedAt(s, k) == Some(Hit(name, k + 2 + |name|))
  {
    forall j | k + 1 <= j < k + 1 + |name| ensures NotQuote(s[j]) {
      assert s[j] == name[j - k - 1];
    }
    RunEndAt(s, k + 1, k + 1 + |name|, NotQuote);
  }

  /** Every `require` statement with a non-empty, quote-free name is a match
      at its own position, whatever the two quotes are. */
  lemma RequireFound(x: string, q1: char, name: string, q2: char, y: string)
    requires IsQuote(q1) && IsQuote(q2) && name != [] && forall c :: c in name ==> !IsQuote(c)
    ensures MatchAt(RequireCall, x + "require(" + [q1] + name + [q2] + ")" + y, |x|)
            == Some(Hit(name, |x| + 11 + |name|))
  {
    var s := x + "require(" + [q1] + name + [q2] + ")" + y;
    var k := |x| + 8;
    assert s[|x|..k] == "require(";
    assert s[k] == q1 && s[k + 1 + |name|] == q2 && s[k + 2 + |name|] == ')';
    assert s[k + 1..k + 1 + |name|] == name;
    QuotedFound(s, k, name);
  }

  /** Every `from` clause with white space up to `k`, a quote, a non-empty
      quote-free name and a quote is a match at its own position. */
  lemma FromFound(s: string, i: nat, k: nat, name: string)
    requires i + 4 < k && k + |name| + 2 <= |s| && s[i..i + 4] == "from"
    requires forall j :: i + 4 <= j < k ==> IsJsSpace(s[j])
    requires IsQuote(s[k]) && IsQuote(s[k + 1 + |name|]) && s[k + 1..k + 1 + |name|] == name
    requires name != [] && forall c :: c in name ==> !IsQuote(c)
    ensures MatchAt(FromClause, s, i) == Some(Hit(name, k + 2 + |name|))
  {
    RunEndAt(s, i + 4, k, IsJsSpace);
    QuotedFound(s, k, name);
  }

  /** Every captured name is the name of a match in the text. */
  lemma {:induction false} CapturesSound(p: Pattern, s: string, i: nat)
    requires i <= |s|
    ensures forall x :: x in Captures(p, s, i) ==>
      exists k :: i <= k < |s| && MatchAt(p, s, k).Some? && MatchAt(p, s, k).value.name == x
    decreases |s| - i
  {
    if i < |s| {
      match MatchAt(p, s, i)
      case Some(h) => CapturesSound(p, s, h.end);
      case None => CapturesSound(p, s, i + 1);
    }
  }

  /** Positions where the pattern does not match add nothing: the first
      match from `i` gives the first capture. */
  lemma {:induction false} CapturesSkip(p: Pattern, s: string, i: nat, k: nat)
    requires i <= k <= |s| && forall j :: i <= j < k ==> MatchAt(p, s, j).None?
    ensures Captures(p, s, i) == Captures(p, s, k)
    decreases k - i
  {
    if i < k {
      CapturesNoMatch(p, s, i);
      CapturesSkip(p, s, i + 1, k);
    }
  }

  lemma CapturesNoMatch(p: Pattern, s: string, i: nat)
    requires i < |s| && MatchAt(p, s, i).None?
    ensures Captures(p, s, i) == Captures(p, s, i + 1)
  {
  }

  // ---- Properties of extraction -------------------------------------------------

  /** Merging duplicates keeps the first occurrences in place: the merged
      `a` is a prefix of the merged `a + b`, and what follows it is new. */
  lemma {:induction false} DedupAppend(a: seq<string>, b: seq<string>)
    ensures |Dedup(a)| <= |Dedup(a + b)| && Dedup(a + b)[..|Dedup(a)|] == Dedup(a)
    ensures forall i :: |Dedup(a)| <= i < |Dedup(a + b)| ==> Dedup(a + b)[i] !in a
    decreases |b|
  {
    if b == [] {
      assert a + b == a;
    } else {
      var n := |b| - 1;
      DedupAppend(a, b[..n]);
      assert (a + b)[..|a + b| - 1] == a + b[..n];
    }
  }

  /** The extracted names are exactly the non-local names of the matches of
      either pattern in the text without comments, each once; scoped
      packages (`@scope/name`) are never among them. */
  lemma RequiredPackagesMembers(content: string, x: string)
    ensures var t := StripComments(content);
      x in RequiredPackages(Some(content)) <==>
        NotLocal(x) && (x in Captures(RequireCall, t, 0) || x in Captures(FromClause, t, 0))
    ensures x in RequiredPackages(Some(content)) ==> !StartsWith(x, "@")
  {
    var t := StripComments(content);
    var a, b := Captures(RequireCall, t, 0), Captures(FromClause, t, 0);
    FilterMember(a, NotLocal);
    FilterMember(b, NotLocal);
  }

  /** All `require` names come before the `from` names they do not repeat. */
  lemma RequiresBeforeImports(content: string)
    ensures var t := StripComments(content);
      var reqs := Dedup(Filter(Captures(RequireCall, t, 0), NotLocal));
      var r := RequiredPackages(Some(content));
      |reqs| <= |r| && r[..|reqs|] == reqs
      && forall i :: |reqs| <= i < |r| ==> r[i] !in Captures(RequireCall, t, 0)
  {
    var t := StripComments(content);
    var a := Filter(Captures(RequireCall, t, 0), NotLocal);
    DedupAppend(a, Filter(Captures(FromClause, t, 0), NotLocal));
    FilterMember(Captures(RequireCall, t, 0), NotLocal);
    forall i | |Dedup(a)| <= i < |RequiredPackages(Some(content))|
      ensures RequiredPackages(Some(content))[i] !in Captures(RequireCall, t, 0)
    {
      var x := RequiredPackages(Some(content))[i];
      RequiredPackagesMembers(content, x);
    }
  }

  // ---- Properties of the decision -------------------------------------------

  /** A file without packages installs nothing and never loads
      `package.json`. */
  lemma NoPackagesNoLoad(cache: Option<map<string, JsonValue>>, pkg: PackageFile)
    ensures CheckForFile(cache, pkg, []) == (Normal(NoInstall), cache)
  {
  }

  /** Without a readable `package.json` the cache stays `null`, and the
      first package looked up throws. */
  lemma UnreadableManifestThrows(pkg: PackageFile, required: seq<string>)
    requires !pkg.Parsed? && required != []
    ensures CheckForFile(None, pkg, required) == (TypeError, None)
  {
  }

  /** With dependencies loaded, the install list holds exactly the names
      `in` does not find, each once, in extraction order; nothing is
      installed when all are found. */
  lemma InstallsExactlyMissing(cache: Option<map<string, JsonValue>>, pkg: PackageFile,
                               required: seq<string>)
    requires required != [] && Cached(cache, pkg).Some?
    ensures var m := Cached(cache, pkg).value;
      var r := CheckForFile(cache, pkg, required);
      r.1 == Cached(cache, pkg) && r.0.Normal?
      && (r.0.value == NoInstall <==> forall x :: x in required ==> HasProperty(m, x))
      && (r.0.value.Install? ==> forall x :: x in r.0.value.packages <==> x in required && !HasProperty(m, x))
  {
    var m := Cached(cache, pkg).value;
    var missing := NotInstalled(required, m);
    if missing != [] {
      assert missing[0] in missing;
    }
  }

  /** Once loaded, the cache is never refreshed: later edits to
      `package.json` are not seen. */
  lemma CacheNotReloaded(m: map<string, JsonValue>, before: PackageFile, after: PackageFile,
                         required: seq<string>)
    ensures CheckForFile(Some(m), before, required) == CheckForFile(Some(m), after, required)
  {
  }

  /** A name inherited from `Object.prototype` counts as installed, so
      `require('constructor')` never triggers an install. */
  lemma InheritedNamesCountAsInstalled(cache: Option<map<string, JsonValue>>, pkg: PackageFile,
                                       required: seq<string>, x: string)
    requires x in ObjectPrototype
    ensures var r := CheckForFile(cache, pkg, required).0;
      r.Normal? && r.value.Install? ==> x !in r.value.packages
  {
  }

  /** The install command names every package. */
  lemma InstallCommandNames(packages: seq<string>, isDev: bool, i: nat)
    requires i < |packages|
    ensures Contains(InstallCommand(packages, isDev), packages[i])
    ensures StartsWith(InstallCommand(packages, isDev), if isDev then "npm install --save-dev " else "npm install --save ")
  {
    var flag := if isDev then "--save-dev" else "--save";
    JoinContainsPart(packages, " ", i);
    ContainsInfix("npm install " + flag + " ", Join(packages, " "), "", packages[i]);
    assert InstallCommand(packages, isDev) == "npm install " + flag + " " + Join(packages, " ") + "";
  }
}
