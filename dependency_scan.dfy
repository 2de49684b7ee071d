/** The project-wide dependency scan run before and after project commands
    (`autoInstallDependencies` in the command-line entry point, repeated as
    `checkDeps`): walk the project for `.js` files, look in each for a
    fixed list of sixteen packages, keep the ones `package.json` does not
    declare with a truthy version, and install them, `nodemon` as a
    development dependency and the rest as regular ones. */
module DependencyScan {
  import opened JsString
  import opened Wrappers
  import opened PackageJson
  import DependencyChecker

  // ---- The project tree ---------------------------------------------------------

  /** A directory entry as `readdirSync` and `statSync` see it. A file's
      content is `None` when reading it fails. */
  datatype Entry =
    | File(name: string, content: Option<string>)
    | Dir(name: string, children: seq<Entry>)

  /** A collected file: the components of its path below the project root
      (joined with `/` by `path.join`; the root `.` itself disappears) and
      its content. */
  datatype JsFile = JsFile(parts: seq<string>, content: Option<string>)

  predicate HasNodeModules(name: string)
  {
    Contains(name, "node_modules")
  }

  /** What `findAllJsFiles(dir)` pushes for `entries`, in order: a directory
      whose name lacks `node_modules` is walked in place; any other entry is
      collected when its name ends in `.js` and lacks `node_modules`. */
  function JsFiles(dir: seq<string>, entries: seq<Entry>): seq<JsFile>
    decreases entries
  {
    if entries == [] then []
    else
      var n := |entries| - 1;
      JsFiles(dir, entries[..n]) + EntryFiles(dir, entries[n])
  }

  /** What one entry of the listing adds. */
  function EntryFiles(dir: seq<string>, e: Entry): seq<JsFile>
    decreases e
  {
    match e
    case Dir(name, children) =>
      if !HasNodeModules(name) then JsFiles(dir + [name], children) else []
    case File(name, content) =>
      if EndsWith(name, ".js") && !HasNodeModules(name) then [JsFile(dir + [name], content)] else []
  }

  /** `findAllJsFiles(dir, fileList)`: pushes onto the shared accumulator
      and recurses into directories on the way. */
  method FindAllJsFiles(dir: seq<string>, entries: seq<Entry>, fileList: seq<JsFile>)
    returns (r: seq<JsFile>)
    ensures r == fileList + JsFiles(dir, entries)
    decreases entries
  {
    r := fileList;
    for i := 0 to |entries|
      invariant r == fileList + JsFiles(dir, entries[..i])
    {
      assert entries[..i + 1][..i] == entries[..i];
      match entries[i]
      case Dir(name, children) =>
        if !HasNodeModules(name) {
          r := FindAllJsFiles(dir + [name], children, r);
        }
      case File(name, content) =>
        if EndsWith(name, ".js") && !HasNodeModules(name) {
          r := r + [JsFile(dir + [name], content)];
        }
    }
    assert entries[..|entries|] == entries;
  }

  /** Every collected file lies below `dir`, has a name ending in `.js`,
      and no component of its path below `dir` contains `node_modules`. */
  lemma {:induction false} JsFilesSound(dir: seq<string>, entries: seq<Entry>)
    ensures forall f :: f in JsFiles(dir, entries) ==>
      |dir| < |f.parts| && f.parts[..|dir|] == dir && EndsWith(f.parts[|f.parts| - 1], ".js")
      && forall j :: |dir| <= j < |f.parts| ==> !HasNodeModules(f.parts[j])
    decreases entries
  {
    if entries != [] {
      var n := |entries| - 1;
      JsFilesSound(dir, entries[..n]);
      match entries[n]
      case Dir(name, children) =>
        JsFilesSound(dir + [name], children);
        forall f | f in JsFiles(dir + [name], children) && !HasNodeModules(name)
          ensures f.parts[..|dir|] == dir && !HasNodeModules(f.parts[|dir|])
        {
          assert f.parts[..|dir| + 1] == dir + [name];
          assert f.parts[..|dir|] == f.parts[..|dir| + 1][..|dir|];
          assert f.parts[|dir|] == f.parts[..|dir| + 1][|dir|] == name;
        }
      case File(name, content) =>
    }
  }

  /** Every `.js` file directly in the listing, and every file collected
      in a walked sub-directory, is collected. */
  lemma {:induction false} JsFilesComplete(dir: seq<string>, entries: seq<Entry>, i: nat)
    requires i < |entries|
    ensures entries[i].File? && EndsWith(entries[i].name, ".js") && !HasNodeModules(entries[i].name)
            ==> JsFile(dir + [entries[i].name], entries[i].content) in JsFiles(dir, entries)
    ensures entries[i].Dir? && !HasNodeModules(entries[i].name)
            ==> forall f :: f in JsFiles(dir + [entries[i].name], entries[i].children) ==> f in JsFiles(dir, entries)
    decreases entries
  {
    var n := |entries| - 1;
    if i < n {
      JsFilesComplete(dir, entries[..n], i);
    }
  }

  // ---- Detection ----------------------------------------------------------------

  /** The packages looked for, in the order `Object.entries` gives them; each
      is looked for under its own name. */
  const CommonPackages: seq<string> := [
    "express", "mongoose", "dotenv", "morgan", "ejs", "express-ejs-layouts",
    "joi", "method-override", "helmet", "cors", "compression", "bcrypt",
    "jsonwebtoken", "multer", "nodemailer", "nodemon"
  ]

  /** `require\(['"]name['"]\)` at `k` of the lower-cased text. */
  predicate RequireAt(t: string, name: string, k: nat)
  {
    k + 11 + |name| <= |t| && t[k..k + 8] == "require(" && DependencyChecker.IsQuote(t[k + 8])
    && t[k + 9..k + 9 + |name|] == name && DependencyChecker.IsQuote(t[k + 9 + |name|])
    && t[k + 10 + |name|] == ')'
  }

  /** `from ['"]name['"]` at `k` of the lower-cased text: exactly one space. */
  predicate FromAt(t: string, name: string, k: nat)
  {
    k + 7 + |name| <= |t| && t[k..k + 5] == "from " && DependencyChecker.IsQuote(t[k + 5])
    && t[k + 6..k + 6 + |name|] == name && DependencyChecker.IsQuote(t[k + 6 + |name|])
  }

  /** Either pattern, with the `i` flag, anywhere in the content. The names
      and patterns are lower-case ASCII, and a case-insensitive regular
      expression without the `u` flag never equates a non-ASCII character
      with an ASCII one, so lower-casing the ASCII letters of the content
      is the whole effect of the flag. Comments are not stripped. */
  predicate Mentions(content: string, name: string)
  {
    var t := Lower(content);
    exists k | 0 <= k < |t| :: RequireAt(t, name, k) || FromAt(t, name, k)
  }

  /** `Set.add`: a value already present keeps its place. */
  function AddToSet(found: seq<string>, p: string): (r: seq<string>)
  {
    if p in found then found else found + [p]
  }

  /** The loop over `commonPackages` for one file's content. */
  function ScanContent(found: seq<string>, content: string, pkgs: seq<string>,
                       installed: map<string, JsonValue>): seq<string>
  {
    if pkgs == [] then found
    else
      var n := |pkgs| - 1;
      var s := ScanContent(found, content, pkgs[..n], installed);
      if Mentions(content, pkgs[n]) && !PropertyTruthy(installed, pkgs[n]) then AddToSet(s, pkgs[n]) else s
  }

  /** The loop over the files; an unreadable file adds nothing. */
  function Detected(found: seq<string>, files: seq<JsFile>, installed: map<string, JsonValue>): seq<string>
  {
    if files == [] then found
    else
      var n := |files| - 1;
      var s := Detected(found, files[..n], installed);
      match files[n].content
      case None => s
      case Some(content) => ScanContent(s, content, CommonPackages, installed)
  }

  /** No value occurs twice. */
  predicate Distinct(s: seq<string>)
  {
    forall i, j :: 0 <= i < j < |s| ==> s[i] != s[j]
  }

  /** One file adds the listed packages it mentions and `package.json` does
      not declare truthily, each once. */
  lemma {:induction false} ScanContentMembers(found: seq<string>, content: string, pkgs: seq<string>,
                                              installed: map<string, JsonValue>)
    requires Distinct(found)
    ensures Distinct(ScanContent(found, content, pkgs, installed))
    ensures forall x :: x in ScanContent(found, content, pkgs, installed) <==>
      x in found || (x in pkgs && Mentions(content, x) && !PropertyTruthy(installed, x))
  {
    if pkgs != [] {
      var n := |pkgs| - 1;
      ScanContentMembers(found, content, pkgs[..n], installed);
      assert pkgs == pkgs[..n] + [pkgs[n]];
    }
  }

  /** Some readable file among `files` mentions `x`. */
  predicate MentionedIn(files: seq<JsFile>, x: string)
  {
    exists i :: 0 <= i < |files| && files[i].content.Some? && Mentions(files[i].content.value, x)
  }

  lemma MentionedInLast(files: seq<JsFile>, x: string)
    requires files != []
    ensures var n := |files| - 1;
      MentionedIn(files, x) <==> MentionedIn(files[..n], x)
                                 || (files[n].content.Some? && Mentions(files[n].content.value, x))
  {
    var n := |files| - 1;
    if MentionedIn(files, x) {
      var i :| 0 <= i < |files| && files[i].content.Some? && Mentions(files[i].content.value, x);
      if i < n {
        assert files[..n][i] == files[i];
      }
    }
    if MentionedIn(files[..n], x) {
      var i :| 0 <= i < n && files[..n][i].content.Some? && Mentions(files[..n][i].content.value, x);
      assert files[..n][i] == files[i];
    }
  }

  /** The scan flags exactly the listed packages that some readable file
      mentions and `package.json` does not declare truthily, each once. */
  lemma {:induction false} DetectedMembers(files: seq<JsFile>, installed: map<string, JsonValue>)
    ensures Distinct(Detected([], files, installed))
    ensures forall x :: x in Detected([], files, installed) <==>
      x in CommonPackages && !PropertyTruthy(installed, x) && MentionedIn(files, x)
  {
    if files != [] {
      var n := |files| - 1;
      DetectedMembers(files[..n], installed);
      forall x {
        MentionedInLast(files, x);
      }
      match files[n].content
      case None =>
      case Some(content) =>
        ScanContentMembers(Detected([], files[..n], installed), content, CommonPackages, installed);
    }
  }

  /** The inner loop of the scan: each package of `pkgs` that the text
      mentions and `installed` lacks is added to `found`. */
  method ScanFile(found: seq<string>, content: string, pkgs: seq<string>, installed: map<string, JsonValue>)
    returns (r: seq<string>)
    ensures r == ScanContent(found, content, pkgs, installed)
  {
    r := found;
    for j := 0 to |pkgs|
      invariant r == ScanContent(found, content, pkgs[..j], installed)
    {
      assert pkgs[..j + 1][..j] == pkgs[..j];
      var pkgName := pkgs[j];
      if Mentions(content, pkgName) && !PropertyTruthy(installed, pkgName) {
        r := AddToSet(r, pkgName);
      }
    }
    assert pkgs[..|pkgs|] == pkgs;
  }

  /** The nested loops of the scan, adding to the `packagesToInstall` set. */
  method DetectPackages(files: seq<JsFile>, installed: map<string, JsonValue>)
    returns (packagesToInstall: seq<string>)
    ensures packagesToInstall == Detected([], files, installed)
  {
    packagesToInstall := [];
    for i := 0 to |files|
      invariant packagesToInstall == Detected([], files[..i], installed)
    {
      assert files[..i + 1][..i] == files[..i];
      match files[i].content
      case None =>
      case Some(content) =>
        packagesToInstall := ScanFile(packagesToInstall, content, CommonPackages, installed);
    }
    assert files[..|files|] == files;
  }

  // ---- Installing ------------------------------------------------------------

  predicate IsNodemon(p: string)
  {
    p == "nodemon"
  }

  predicate NotNodemon(p: string)
  {
    p != "nodemon"
  }

  /** How a scan ends: before the walk when there is no `package.json`, in
      the outer `catch` when it does not parse, or with the packages found
      split into the regular and the development installs. */
  datatype Outcome =
    | NoManifest
    | ManifestError
    | Scanned(packages: seq<string>, regular: seq<string>, dev: seq<string>)

  /** The commands run, in order: the regular install first, then the
      development install; an empty list runs nothing. */
  function Commands(o: Outcome): seq<string>
  {
    if o.Scanned? then
      (if o.regular != [] then ["npm install " + Join(o.regular, " ")] else [])
      + (if o.dev != [] then ["npm install --save-dev " + Join(o.dev, " ")] else [])
    else []
  }

  /** What a scan decides for a `package.json` state and a project tree
      (`None` when `.` does not exist). */
  function Scan(manifest: PackageFile, root: Option<seq<Entry>>): Outcome
  {
    match manifest
    case Missing => NoManifest
    case Unparsable => ManifestError
    case Parsed(dependencies, devDependencies) =>
      var files := if root.Some? then JsFiles([], root.value) else [];
      var found := Detected([], files, Merged(dependencies, devDependencies));
      Scanned(found, Filter(found, NotNodemon), Filter(found, IsNodemon))
  }

  /** `autoInstallDependencies` / `checkDeps`, up to the `npm` calls. */
  method AutoInstallDependencies(manifest: PackageFile, root: Option<seq<Entry>>)
    returns (outcome: Outcome)
    ensures outcome == Scan(manifest, root)
  {
    if manifest.Missing? {
      return NoManifest;
    }
    if manifest.Unparsable? {
      return ManifestError;
    }
    var installedDependencies := manifest.dependencies + manifest.devDependencies;
    var jsFiles := [];
    if root.Some? {
      jsFiles := FindAllJsFiles([], root.value, []);
    }
    assert installedDependencies == Merged(manifest.dependencies, manifest.devDependencies);
    assert jsFiles == if root.Some? then JsFiles([], root.value) else [];
    var packagesArray := DetectPackages(jsFiles, installedDependencies);
    var devPackages := Filter(packagesArray, IsNodemon);
    var regularPackages := Filter(packagesArray, NotNodemon);
    return Scanned(packagesArray, regularPackages, devPackages);
  }

  // ---- Properties of the scan -------------------------------------------------

  /** Only the sixteen listed packages can ever be installed, each at most
      once, and a package is installed exactly when some readable `.js`
      file mentions it and `package.json` does not declare it truthily. */
  lemma ScanFlags(manifest: PackageFile, root: seq<Entry>, x: string)
    requires manifest.Parsed?
    ensures var o := Scan(manifest, Some(root));
      var installed := Merged(manifest.dependencies, manifest.devDependencies);
      o.Scanned? && Distinct(o.packages) &&
      (x in o.packages <==> x in CommonPackages && !PropertyTruthy(installed, x) && MentionedIn(JsFiles([], root), x))
  {
    DetectedMembers(JsFiles([], root), Merged(manifest.dependencies, manifest.devDependencies));
  }

  /** The test is on the value, not on the key: a mentioned package that
      `package.json` declares with an empty version string is installed
      again (the single-file checker's `in` test would skip it). */
  lemma EmptyVersionReinstalled(deps: map<string, JsonValue>, root: seq<Entry>, x: string, i: nat)
    requires x in CommonPackages && deps == map[x := JString("")]
    requires i < |JsFiles([], root)| && JsFiles([], root)[i].content.Some?
    requires Mentions(JsFiles([], root)[i].content.value, x)
    ensures x in Scan(Parsed(deps, map[]), Some(root)).packages
    ensures HasProperty(deps, x)
  {
    assert Merged(deps, map[]) == deps;
    assert !PropertyTruthy(deps, x);
    ScanFlags(Parsed(deps, map[]), root, x);
  }

  /** Every package goes to exactly one of the two installs, `nodemon` to
      the development one; there is a command exactly when something was
      found, and the regular install comes first. */
  lemma CommandsPartition(manifest: PackageFile, root: Option<seq<Entry>>)
    ensures var o := Scan(manifest, root);
      o.Scanned? ==>
        (forall x :: x in o.regular <==> x in o.packages && x != "nodemon")
        && (forall x :: x in o.dev <==> x in o.packages && x == "nodemon")
        && (Commands(o) == [] <==> o.packages == [])
        && (o.regular != [] ==> Commands(o)[0] == "npm install " + Join(o.regular, " "))
  {
    var o := Scan(manifest, root);
    if o.Scanned? {
      FilterMember(o.packages, NotNodemon);
      FilterMember(o.packages, IsNodemon);
      if o.packages != [] {
        assert o.packages[0] in o.regular || o.packages[0] in o.dev;
      }
    }
  }

  /** Without `package.json` nothing is walked or installed, and an
      unparsable one ends the scan with an error before the walk. */
  lemma NoManifestNoScan(root: Option<seq<Entry>>)
    ensures Scan(Missing, root) == NoManifest && Commands(Scan(Missing, root)) == []
    ensures Scan(Unparsable, root) == ManifestError && Commands(Scan(Unparsable, root)) == []
  {
  }

  /** `.git` is walked like any other directory: a `.js` file in it is
      scanned. */
  lemma GitDirectoryWalked(content: Option<string>)
    ensures JsFiles([], [Dir(".git", [File("hook.js", content)])]) == [JsFile([".git", "hook.js"], content)]
  {
    assert !HasNodeModules(".git") by {
      forall k | 0 <= k <= 4 ensures !OccursAt(".git", "node_modules", k) { }
    }
    assert EndsWith("hook.js", ".js");
    assert !HasNodeModules("hook.js") by {
      forall k | 0 <= k <= 7 ensures !OccursAt("hook.js", "node_modules", k) { }
    }
    var inner := [File("hook.js", content)];
    assert inner[..0] == [];
    assert [] + [".git"] == [".git"] && [".git"] + ["hook.js"] == [".git", "hook.js"];
    assert JsFiles([".git"], inner) == [JsFile([".git", "hook.js"], content)];
    var root := [Dir(".git", inner)];
    assert root[..0] == [];
  }
}
