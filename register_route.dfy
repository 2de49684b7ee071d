/** `registerRouteInIndex` (lib/helpers/registerRoute.js): registers the
    routes of a resource in `src/routes/index.js`. The file is split into
    lines, each line is sorted into one of four sections by a scan that
    keeps a running brace count, and the file is rebuilt from the sections
    with the new `require` after the imports and the new `router.use` after
    the other routes. */
module RegisterRoute {
  import opened JsString
  import opened Workspace

  const IndexPath := "src/routes/index.js"

  // ---- Pluralisation ---------------------------------------------------------

  const Vowels: seq<string> := ["a", "e", "i", "o", "u"]

  /** The endings that take `es`. */
  predicate Sibilant(lower: string)
  {
    EndsWith(lower, "s") || EndsWith(lower, "x") || EndsWith(lower, "z")
    || EndsWith(lower, "ch") || EndsWith(lower, "sh")
  }

  /** The mount-path plural of a lower-cased name: `es` after s, x, z, ch
      and sh; `s` after a vowel and `y`; `ies` for any other `y` (also a
      lone `y`, whose `charAt(-1)` is empty); `s` otherwise. */
  function Plural(lower: string): (r: string)
    ensures EndsWith(r, "s")
    ensures Sibilant(lower) ==> r == lower + "es"
    ensures EndsWith(lower, "y") && |lower| >= 2 && lower[|lower| - 2] in "aeiou" ==> r == lower + "s"
    ensures EndsWith(lower, "y") && !(|lower| >= 2 && lower[|lower| - 2] in "aeiou")
            ==> r == lower[..|lower| - 1] + "ies"
    ensures !Sibilant(lower) && !EndsWith(lower, "y") ==> r == lower + "s"
  {
    if Sibilant(lower) then
      SibilantNotY(lower);
      lower + "es"
    else if EndsWith(lower, "y") then
      var secondLast := CharAt(lower, |lower| - 2);
      YEnding(lower);
      if secondLast in Vowels then lower + "s"
      else Slice(lower, 0, -1) + "ies"
    else lower + "s"
  }

  /** No `es` ending is a `y` ending. */
  lemma SibilantNotY(lower: string)
    requires Sibilant(lower)
    ensures !EndsWith(lower, "y")
  {
    LastChar(lower, "s");
    LastChar(lower, "x");
    LastChar(lower, "z");
    LastChar(lower, "ch");
    LastChar(lower, "sh");
    LastChar(lower, "y");
  }

  /** A string ends in the last character of each of its suffixes. */
  lemma LastChar(s: string, p: string)
    ensures EndsWith(s, p) && |p| > 0 ==> s[|s| - 1] == p[|p| - 1]
  {
    if EndsWith(s, p) && |p| > 0 {
      assert s[|s| - |p|..][|p| - 1] == s[|s| - 1];
    }
  }

  /** What `charAt(length - 2)` and `slice(0, -1)` give on a name ending in
      `y`, written on its characters. */
  lemma YEnding(lower: string)
    requires EndsWith(lower, "y")
    ensures CharAt(lower, |lower| - 2) in Vowels <==> |lower| >= 2 && lower[|lower| - 2] in "aeiou"
    ensures Slice(lower, 0, -1) == lower[..|lower| - 1]
  {
    if |lower| >= 2 {
      var c := lower[|lower| - 2];
      assert CharAt(lower, |lower| - 2) == [c];
      assert [c] in Vowels <==> c in "aeiou";
    } else {
      assert CharAt(lower, |lower| - 2) == "";
      assert "" !in Vowels;
    }
  }

  /** A name ending in `s`, `x`, `z`, `ch` or `sh` takes `es`: `box`
      becomes `boxes`. */
  lemma PluralSibilant(stem: string, end: string)
    requires end in ["s", "x", "z", "ch", "sh"]
    ensures Plural(stem + end) == stem + end + "es"
  {
    SibilantEnding(stem, end);
  }

  lemma SibilantEnding(stem: string, end: string)
    requires end in ["s", "x", "z", "ch", "sh"]
    ensures Sibilant(stem + end)
  {
    var w := stem + end;
    var n := |w|;
    assert w[n - |end|..] == end;
    if |end| == 1 {
      assert w[n - 1..] == end;
    } else {
      assert w[n - 2..] == end;
    }
  }

  /** A vowel before a final `y` keeps it: `day` becomes `days`. */
  lemma PluralVowelY(stem: string, v: char)
    requires v in "aeiou"
    ensures Plural(stem + [v, 'y']) == stem + [v, 'y', 's']
  {
    var w := stem + [v, 'y'];
    assert w[|w| - 1..] == "y" && w[|w| - 2] == v;
  }

  /** Any other letter before a final `y` turns it into `ies`: `city`
      becomes `cities`. */
  lemma PluralConsonantY(stem: string, c: char)
    requires c !in "aeiou"
    ensures Plural(stem + [c, 'y']) == stem + [c] + "ies"
  {
    var w := stem + [c, 'y'];
    assert w[|w| - 1..] == "y" && w[|w| - 2] == c;
    assert w[..|w| - 1] == stem + [c];
  }

  /** A lone `y` has no second-last letter: `charAt(-1)` is empty, so it
      becomes `ies`. */
  lemma PluralLoneY(lower: string)
    requires |lower| == 1 && EndsWith(lower, "y")
    ensures Plural(lower) == "ies"
  {
    assert lower[0] == 'y';
    assert !EndsWith(lower, "s") && !EndsWith(lower, "x") && !EndsWith(lower, "z");
    assert CharAt(lower, -1) == "";
    assert "" !in Vowels;
    assert Slice(lower, 0, -1) == "";
  }

  /** `const <lower>Routes = require('./<lower>.routes');` */
  function RouteRequire(lower: string): string
  {
    "const " + lower + "Routes = " + Guard(lower) + ";"
  }

  /** What the duplicate check looks for. */
  function Guard(lower: string): string
  {
    "require('./" + lower + ".routes')"
  }

  /** `router.use('/<plural>', <lower>Routes);`: the mount path is plural,
      the variable singular. */
  function RouteUse(lower: string): string
  {
    "router.use('/" + Plural(lower) + "', " + lower + "Routes);"
  }

  // ---- The section scan ------------------------------------------------------

  datatype Section = Imports | HomeRoute | OtherRoutes | Exports

  datatype Sections = Sections(imports: seq<string>, homeRoute: seq<string>,
                               otherRoutes: seq<string>, exports: seq<string>)

  /** `(line.match(/{/g) || []).length - (line.match(/}/g) || []).length`. */
  function BraceDelta(line: string): int
  {
    CountChar(line, '{') - CountChar(line, '}')
  }

  /** The home-route test; its second pattern extends the first. */
  predicate IsHomeLine(line: string)
  {
    Includes(line, "router.get(\"/\"") || Includes(line, "router.get(\"/\",")
  }

  /** The section of one line, given the section of the line before and
      the brace count after this line. */
  function Assign(line: string, current: Section, braces: int): Section
  {
    if IsHomeLine(line) then HomeRoute
    else if Includes(line, "module.exports") then Exports
    else if current == HomeRoute && braces == 0 && !Includes(line, "router.get") then OtherRoutes
    else current
  }

  /** The brace count after `lines`. */
  function Braces(lines: seq<string>): int
  {
    if lines == [] then 0 else Braces(lines[..|lines| - 1]) + BraceDelta(lines[|lines| - 1])
  }

  /** The section after `labels`: that of the last line, `imports` at the
      start. */
  function Current(labels: seq<Section>): Section
  {
    if labels == [] then Imports else labels[|labels| - 1]
  }

  /** The section of every line, in order. */
  function Labels(lines: seq<string>): (labels: seq<Section>)
    ensures |labels| == |lines|
  {
    if lines == [] then []
    else
      var init := Labels(lines[..|lines| - 1]);
      init + [Assign(lines[|lines| - 1], Current(init), Braces(lines))]
  }

  /** The lines labelled `s`, in order. */
  function Pick(lines: seq<string>, labels: seq<Section>, s: Section): seq<string>
    requires |labels| == |lines|
  {
    if lines == [] then []
    else
      var n := |lines| - 1;
      Pick(lines[..n], labels[..n], s) + (if labels[n] == s then [lines[n]] else [])
  }

  /** What the scan produces. */
  function ParseSpec(lines: seq<string>): Sections
  {
    var labels := Labels(lines);
    Sections(Pick(lines, labels, Imports), Pick(lines, labels, HomeRoute),
             Pick(lines, labels, OtherRoutes), Pick(lines, labels, Exports))
  }

  /** One more line extends the brace count, the labels and the picked
      section of its label. */
  lemma ScanStep(lines: seq<string>, i: nat)
    requires i < |lines|
    ensures Braces(lines[..i + 1]) == Braces(lines[..i]) + BraceDelta(lines[i])
    ensures Labels(lines[..i + 1]) ==
      Labels(lines[..i]) + [Assign(lines[i], Current(Labels(lines[..i])), Braces(lines[..i + 1]))]
    ensures forall s :: (Pick(lines[..i + 1], Labels(lines[..i + 1]), s) ==
      Pick(lines[..i], Labels(lines[..i]), s) + (if Labels(lines[..i + 1])[i] == s then [lines[i]] else []))
  {
    assert lines[..i + 1][..i] == lines[..i];
    assert Labels(lines[..i + 1])[..i] == Labels(lines[..i]);
  }

  /** The `for` loop of the scan: `braceCount` and `currentSection` are
      updated line by line and each line is pushed onto its section. */
  method ParseSections(lines: seq<string>) returns (sections: Sections)
    ensures sections == ParseSpec(lines)
  {
    var imports, homeRoute, otherRoutes, exports := [], [], [], [];
    var currentSection := Imports;
    var braceCount := 0;
    for i := 0 to |lines|
      invariant braceCount == Braces(lines[..i])
      invariant currentSection == Current(Labels(lines[..i]))
      invariant imports == Pick(lines[..i], Labels(lines[..i]), Imports)
      invariant homeRoute == Pick(lines[..i], Labels(lines[..i]), HomeRoute)
      invariant otherRoutes == Pick(lines[..i], Labels(lines[..i]), OtherRoutes)
      invariant exports == Pick(lines[..i], Labels(lines[..i]), Exports)
    {
      var line := lines[i];
      ScanStep(lines, i);
      braceCount := braceCount + CountChar(line, '{');
      braceCount := braceCount - CountChar(line, '}');
      if Includes(line, "router.get(\"/\"") || Includes(line, "router.get(\"/\",") {
        currentSection := HomeRoute;
        homeRoute := homeRoute + [line];
      } else if Includes(line, "module.exports") {
        currentSection := Exports;
        exports := exports + [line];
      } else if currentSection == HomeRoute && braceCount == 0 && !Includes(line, "router.get") {
        currentSection := OtherRoutes;
        otherRoutes := otherRoutes + [line];
      } else {
        match currentSection
        case Imports => imports := imports + [line];
        case HomeRoute => homeRoute := homeRoute + [line];
        case OtherRoutes => otherRoutes := otherRoutes + [line];
        case Exports => exports := exports + [line];
      }
    }
    assert lines[..|lines|] == lines;
    sections := Sections(imports, homeRoute, otherRoutes, exports);
  }

  // ---- Rebuilding the file ---------------------------------------------------

  /** `l.trim() !== ''`. */
  predicate NotBlank(line: string)
  {
    Trim(line) != []
  }

  /** The new `router.use` joins the other routes, after a blank line unless
      they are empty or already end with one. */
  function WithRouteUse(otherRoutes: seq<string>, routeUse: string): seq<string>
  {
    WithSeparator(otherRoutes, routeUse, NotBlank)
  }

  /** `line` after `lines`, with an empty line between them unless `lines`
      is empty or its last line is one that `keep` refuses. */
  function WithSeparator(lines: seq<string>, line: string, keep: string -> bool): seq<string>
  {
    if |lines| == 0 || !keep(lines[|lines| - 1]) then lines + [line]
    else lines + ["", line]
  }

  /** The lines of the rebuilt file, in their fixed order. */
  function RebuiltLines(sections: Sections, routeRequire: string, routeUse: string): seq<string>
  {
    Filter(sections.imports + [routeRequire], NotBlank) + [""] + sections.homeRoute + [""]
    + Filter(WithRouteUse(sections.otherRoutes, routeUse), NotBlank) + [""] + sections.exports
  }

  /** The registration: no index file, or one that already requires the
      routes, means no write. */
  function Register(fs: FileSystem, name: string): FileSystem
  {
    if IndexPath !in fs.files then fs
    else
      var content := fs.files[IndexPath];
      var lower := Lower(name);
      if Includes(content, Guard(lower)) then fs
      else
        var sections := ParseSpec(Split(content, '\n'));
        Write(fs, IndexPath, Join(RebuiltLines(sections, RouteRequire(lower), RouteUse(lower)), "\n"))
  }

  /** `registerRouteInIndex(name)`. */
  method RegisterRouteInIndex(fs: FileSystem, name: string) returns (r: FileSystem)
    ensures r == Register(fs, name)
  {
    if IndexPath !in fs.files {
      return fs;
    }
    var indexContent := fs.files[IndexPath];
    var routeName := Lower(name);
    var routeRequire := RouteRequire(routeName);
    var routeUse := RouteUse(routeName);
    if Includes(indexContent, Guard(routeName)) {
      return fs;
    }
    var sections := ParseSections(Split(indexContent, '\n'));
    var otherRoutes := WithRouteUse(sections.otherRoutes, routeUse);
    var rebuilt := Filter(sections.imports + [routeRequire], NotBlank) + [""] + sections.homeRoute + [""]
                   + Filter(otherRoutes, NotBlank) + [""] + sections.exports;
    r := Write(fs, IndexPath, Join(rebuilt, "\n"));
  }

  // ---- Properties of the scan ------------------------------------------------

  /** The four sections share out the lines: each line lands in exactly one
      of them. */
  lemma {:induction false} PickPartition(lines: seq<string>, labels: seq<Section>)
    requires |labels| == |lines|
    ensures multiset(lines) == multiset(Pick(lines, labels, Imports)) + multiset(Pick(lines, labels, HomeRoute))
                               + multiset(Pick(lines, labels, OtherRoutes)) + multiset(Pick(lines, labels, Exports))
  {
    if lines != [] {
      var n := |lines| - 1;
      PickPartition(lines[..n], labels[..n]);
      assert lines == lines[..n] + [lines[n]];
      PickLast(lines, labels, Imports);
      PickLast(lines, labels, HomeRoute);
      PickLast(lines, labels, OtherRoutes);
      PickLast(lines, labels, Exports);
      SumStep(multiset(lines[..n]),
        multiset(Pick(lines[..n], labels[..n], Imports)), multiset(Pick(lines[..n], labels[..n], HomeRoute)),
        multiset(Pick(lines[..n], labels[..n], OtherRoutes)), multiset(Pick(lines[..n], labels[..n], Exports)),
        lines[n], labels[n],
        multiset(Pick(lines, labels, Imports)), multiset(Pick(lines, labels, HomeRoute)),
        multiset(Pick(lines, labels, OtherRoutes)), multiset(Pick(lines, labels, Exports)));
    }
  }

  /** One more line, labelled `s`, grows exactly the part of the partition named `s`. */
  lemma SumStep(all: multiset<string>, i0: multiset<string>, h0: multiset<string>, o0: multiset<string>,
                e0: multiset<string>, x: string, s: Section,
                i: multiset<string>, h: multiset<string>, o: multiset<string>, e: multiset<string>)
    requires all == i0 + h0 + o0 + e0
    requires i == i0 + (if s == Imports then multiset{x} else multiset{})
    requires h == h0 + (if s == HomeRoute then multiset{x} else multiset{})
    requires o == o0 + (if s == OtherRoutes then multiset{x} else multiset{})
    requires e == e0 + (if s == Exports then multiset{x} else multiset{})
    ensures all + multiset{x} == i + h + o + e
  {
  }

  lemma PickLast(lines: seq<string>, labels: seq<Section>, s: Section)
    requires |labels| == |lines| > 0
    ensures var n := |lines| - 1;
      multiset(Pick(lines, labels, s)) ==
        multiset(Pick(lines[..n], labels[..n], s)) + (if labels[n] == s then multiset{lines[n]} else multiset{})
  {
  }

  /** A line is in the section of its label. */
  lemma {:induction false} PickHas(lines: seq<string>, labels: seq<Section>, i: nat)
    requires |labels| == |lines| && i < |lines|
    ensures lines[i] in Pick(lines, labels, labels[i])
  {
    var n := |lines| - 1;
    if i < n {
      PickHas(lines[..n], labels[..n], i);
    }
  }

  /** A section holds only lines of the file. */
  lemma {:induction false} PickWithin(lines: seq<string>, labels: seq<Section>, s: Section)
    requires |labels| == |lines|
    ensures forall x :: x in Pick(lines, labels, s) ==> x in lines
  {
    if lines != [] {
      var n := |lines| - 1;
      PickWithin(lines[..n], labels[..n], s);
      assert forall x :: x in lines[..n] ==> x in lines;
    }
  }

  /** The label of line `i` is decided by that line, the label before it
      and the brace count after it. */
  lemma {:induction false} LabelOf(lines: seq<string>, i: nat)
    requires i < |lines|
    ensures Labels(lines)[i] == Assign(lines[i], Current(Labels(lines[..i])), Braces(lines[..i + 1]))
    decreases |lines|
  {
    var n := |lines| - 1;
    var init := Labels(lines[..n]);
    assert Labels(lines) == init + [Assign(lines[n], Current(init), Braces(lines))];
    if i < n {
      calc {
        Labels(lines)[i];
        init[i];
        { LabelOf(lines[..n], i); }
        Assign(lines[..n][i], Current(Labels(lines[..n][..i])), Braces(lines[..n][..i + 1]));
        { assert lines[..n][..i] == lines[..i] && lines[..n][..i + 1] == lines[..i + 1]; }
        Assign(lines[i], Current(Labels(lines[..i])), Braces(lines[..i + 1]));
      }
    } else {
      assert lines[..i + 1] == lines;
    }
  }

  /** A home-route line always goes to the home route; a `module.exports`
      line that is not one goes to the exports. */
  lemma MarkerLines(lines: seq<string>, i: nat)
    requires i < |lines|
    ensures IsHomeLine(lines[i]) ==> Labels(lines)[i] == HomeRoute
    ensures !IsHomeLine(lines[i]) && Contains(lines[i], "module.exports") ==> Labels(lines)[i] == Exports
  {
    LabelOf(lines, i);
  }

  /** The second home-route pattern adds nothing to the first. */
  lemma HomePatternSubsumed(line: string)
    ensures IsHomeLine(line) <==> Contains(line, "router.get(\"/\"")
  {
    if Contains(line, "router.get(\"/\",") {
      var k :| 0 <= k <= |line| && OccursAt(line, "router.get(\"/\",", k);
      assert line[k..k + 14] == line[k..k + 15][..14];
      assert OccursAt(line, "router.get(\"/\"", k);
    }
  }

  /** The labels of a prefix are the prefix of the labels. */
  lemma {:induction false} LabelsPrefix(lines: seq<string>, i: nat)
    requires i <= |lines|
    ensures Labels(lines[..i]) == Labels(lines)[..i]
    decreases |lines|
  {
    if i < |lines| {
      var n := |lines| - 1;
      assert lines[..n][..i] == lines[..i];
      LabelsPrefix(lines[..n], i);
    } else {
      assert lines[..i] == lines;
    }
  }

  /** Inside the home route a line without markers stays there while the
      count is open; the line that brings the count back to 0 (the closing
      `});` of the handler) already goes to the other routes. */
  lemma HomeRouteEnd(lines: seq<string>, i: nat)
    requires 0 < i < |lines| && Labels(lines)[i - 1] == HomeRoute
    requires !IsHomeLine(lines[i]) && !Contains(lines[i], "module.exports") && !Contains(lines[i], "router.get")
    ensures Labels(lines)[i] == (if Braces(lines[..i + 1]) == 0 then OtherRoutes else HomeRoute)
  {
    var b := Braces(lines[..i + 1]);
    calc {
      Labels(lines)[i];
      { LabelOf(lines, i); }
      Assign(lines[i], Current(Labels(lines[..i])), b);
      { LabelsPrefix(lines, i);
        assert Labels(lines[..i])[i - 1] == Labels(lines)[i - 1]; }
      Assign(lines[i], HomeRoute, b);
      { AssignInHome(lines[i], b); }
      if b == 0 then OtherRoutes else HomeRoute;
    }
  }

  lemma AssignInHome(line: string, braces: int)
    requires !IsHomeLine(line) && !Contains(line, "module.exports") && !Contains(line, "router.get")
    ensures Assign(line, HomeRoute, braces) == if braces == 0 then OtherRoutes else HomeRoute
  {
  }

  // ---- Properties of the rebuild ---------------------------------------------

  /** The new `require` is never blank. */
  lemma RouteRequireNotBlank(lower: string)
    ensures NotBlank(RouteRequire(lower))
  {
    TrimEmptyIffAllSpace(RouteRequire(lower));
    assert RouteRequire(lower)[0] == 'c';
  }

  /** The new `router.use` is never blank. */
  lemma RouteUseNotBlank(lower: string)
    ensures NotBlank(RouteUse(lower))
  {
    TrimEmptyIffAllSpace(RouteUse(lower));
    assert RouteUse(lower)[0] == 'r';
  }

  /** The `require` line comes right after the imports that are kept. */
  lemma RequireAfterImports(imports: seq<string>, routeRequire: string)
    requires NotBlank(routeRequire)
    ensures Filter(imports + [routeRequire], NotBlank) == Filter(imports, NotBlank) + [routeRequire]
  {
    KeptLast(imports, routeRequire, NotBlank);
  }

  lemma KeptLast(xs: seq<string>, x: string, keep: string -> bool)
    requires keep(x)
    ensures Filter(xs + [x], keep) == Filter(xs, keep) + [x]
  {
    FilterAppend(xs, [x], keep);
    assert [x][1..] == [];
  }

  /** The blank line pushed before the new `router.use` is dropped by the
      filter: the other routes keep no blank lines at all. */
  lemma BlankSeparatorDropped(otherRoutes: seq<string>, routeUse: string)
    requires NotBlank(routeUse)
    ensures Filter(WithRouteUse(otherRoutes, routeUse), NotBlank) == Filter(otherRoutes, NotBlank) + [routeUse]
  {
    EmptyIsBlank("");
    SeparatorDropped(otherRoutes, routeUse, NotBlank);
  }

  /** A filter that refuses the empty line drops the separator. */
  lemma SeparatorDropped(lines: seq<string>, line: string, keep: string -> bool)
    requires keep(line) && !keep("")
    ensures Filter(WithSeparator(lines, line, keep), keep) == Filter(lines, keep) + [line]
  {
    var sep: seq<string> := if |lines| == 0 || !keep(lines[|lines| - 1]) then [] else [""];
    assert WithSeparator(lines, line, keep) == lines + (sep + [line]);
    FilterAppend(lines, sep + [line], keep);
    FilterPair(sep, line, keep);
  }

  /** The empty line is blank. */
  lemma EmptyIsBlank(e: string)
    requires e == []
    ensures !NotBlank(e)
  {
    TrimEmptyIffAllSpace(e);
  }

  /** Every line of the old file that is not blank is in the rebuilt file. */
  lemma RebuiltKeepsLines(lines: seq<string>, routeRequire: string, routeUse: string, i: nat)
    requires i < |lines| && NotBlank(lines[i])
    ensures lines[i] in RebuiltLines(ParseSpec(lines), routeRequire, routeUse)
  {
    var labels := Labels(lines);
    var sections := ParseSpec(lines);
    PickHas(lines, labels, i);
    var x := lines[i];
    match labels[i]
    case Imports =>
      assert x in sections.imports;
      var j :| 0 <= j < |sections.imports| && sections.imports[j] == x;
      assert (sections.imports + [routeRequire])[j] == x;
      FilterKeeps(sections.imports + [routeRequire], NotBlank, j);
    case HomeRoute =>
      assert x in sections.homeRoute;
    case OtherRoutes =>
      var other := WithRouteUse(sections.otherRoutes, routeUse);
      assert x in sections.otherRoutes;
      var j :| 0 <= j < |sections.otherRoutes| && sections.otherRoutes[j] == x;
      assert other[j] == x;
      FilterKeeps(other, NotBlank, j);
    case Exports =>
      assert x in sections.exports;
  }

  /** The rebuilt text requires the new routes and uses them. */
  lemma RebuiltRegisters(sections: Sections, lower: string)
    ensures var text := Join(RebuiltLines(sections, RouteRequire(lower), RouteUse(lower)), "\n");
      Contains(text, Guard(lower)) && Contains(text, RouteUse(lower))
  {
    var req, use := RouteRequire(lower), RouteUse(lower);
    var rebuilt := RebuiltLines(sections, req, use);
    RouteRequireNotBlank(lower);
    RouteUseNotBlank(lower);
    RequireAfterImports(sections.imports, req);
    var k := |Filter(sections.imports, NotBlank)|;
    assert rebuilt[k] == Filter(sections.imports + [req], NotBlank)[k] == req;
    JoinContainsPart(rebuilt, "\n", k);
    OccursAtStart(Guard(lower));
    ContainsInfix("const " + lower + "Routes = ", Guard(lower), ";", Guard(lower));
    ContainsWithin(Join(rebuilt, "\n"), req, Guard(lower));
    BlankSeparatorDropped(sections.otherRoutes, use);
    var other := Filter(sections.otherRoutes, NotBlank) + [use];
    var m := |Filter(sections.imports + [req], NotBlank) + [""] + sections.homeRoute + [""]| + |other| - 1;
    assert rebuilt[m] == use;
    JoinContainsPart(rebuilt, "\n", m);
  }

  /** After a registration the file requires the routes, so a second one
      writes nothing. */
  lemma RegisterTwiceIsNoop(fs: FileSystem, name: string)
    ensures Register(Register(fs, name), name) == Register(fs, name)
  {
    var lower := Lower(name);
    if IndexPath in fs.files && !Includes(fs.files[IndexPath], Guard(lower)) {
      RebuiltRegisters(ParseSpec(Split(fs.files[IndexPath], '\n')), lower);
    }
  }

  /** Without an index file nothing is written. */
  lemma RegisterMissingIndex(fs: FileSystem, name: string)
    requires IndexPath !in fs.files
    ensures Register(fs, name) == fs
  {
  }

  /** A registration writes only the index file; every line of it that
      was not blank is still there, and so are the new `require` and
      `router.use`. */
  lemma RegisterKeepsLines(fs: FileSystem, name: string, i: nat)
    requires IndexPath in fs.files && !Contains(fs.files[IndexPath], Guard(Lower(name)))
    requires i < |Split(fs.files[IndexPath], '\n')| && NotBlank(Split(fs.files[IndexPath], '\n')[i])
    ensures var r := Register(fs, name);
      r.dirs == fs.dirs && r.files.Keys == fs.files.Keys
      && (forall p :: p in fs.files && p != IndexPath ==> r.files[p] == fs.files[p])
      && Contains(r.files[IndexPath], Split(fs.files[IndexPath], '\n')[i])
      && Contains(r.files[IndexPath], Guard(Lower(name)))
  {
    var lower := Lower(name);
    var lines := Split(fs.files[IndexPath], '\n');
    var text := Join(RebuiltLines(ParseSpec(lines), RouteRequire(lower), RouteUse(lower)), "\n");
    assert Register(fs, name) == Write(fs, IndexPath, text);
    RebuiltTextKeepsLine(lines, lower, i);
  }

  /** The rebuilt text holds every non-blank line of the old one and the
      new `require`. */
  lemma RebuiltTextKeepsLine(lines: seq<string>, lower: string, i: nat)
    requires i < |lines| && NotBlank(lines[i])
    ensures var text := Join(RebuiltLines(ParseSpec(lines), RouteRequire(lower), RouteUse(lower)), "\n");
      Contains(text, lines[i]) && Contains(text, Guard(lower))
  {
    var rebuilt := RebuiltLines(ParseSpec(lines), RouteRequire(lower), RouteUse(lower));
    RebuiltKeepsLines(lines, RouteRequire(lower), RouteUse(lower), i);
    var j :| 0 <= j < |rebuilt| && rebuilt[j] == lines[i];
    JoinContainsPart(rebuilt, "\n", j);
    RebuiltRegisters(ParseSpec(lines), lower);
  }
}
