/** The project directory as a value: the files the generators read and
    write, keyed by their path relative to the project root, and the
    directories that have been created. Existence checks, reads, writes and
    `mkdir` become operations on this value. */
module Workspace {
  import opened JsString

  datatype FileSystem = FileSystem(files: map<string, string>, dirs: set<string>)

  /** `fs.writeFileSync(path, content)`: creates or overwrites one file. */
  function Write(fs: FileSystem, path: string, content: string): (r: FileSystem)
    ensures path in r.files && r.files[path] == content
    ensures forall q :: q != path ==> (q in r.files <==> q in fs.files)
    ensures forall q :: q != path && q in fs.files ==> r.files[q] == fs.files[q]
    ensures r.dirs == fs.dirs
  {
    FileSystem(fs.files[path := content], fs.dirs)
  }

  /** `if (!fs.existsSync(dir)) fs.mkdirSync(dir, { recursive: true })`. */
  function EnsureDir(fs: FileSystem, dir: string): (r: FileSystem)
    ensures r.files == fs.files && dir in r.dirs
    ensures forall d :: d != dir ==> (d in r.dirs <==> d in fs.dirs)
  {
    FileSystem(fs.files, fs.dirs + {dir})
  }

  /** Where the model of `name` lives: `src/models/<name lowercased>.model.js`. */
  function ModelPath(name: string): (p: string)
    ensures StartsWith(p, "src/models/") && EndsWith(p, ".model.js")
    ensures |p| == 11 + |name| + 9 && p[11..11 + |name|] == Lower(name)
  {
    "src/models/" + Lower(name) + ".model.js"
  }

  /** The views directory of `name`: `src/views/<name lowercased>s`. */
  function ViewsDir(name: string): (p: string)
    ensures StartsWith(p, "src/views/") && EndsWith(p, "s")
    ensures |p| == 10 + |name| + 1 && p[10..10 + |name|] == Lower(name)
  {
    "src/views/" + Lower(name) + "s"
  }

  /** A relative path that `path.join` leaves as it is: no `/`-separated
      segment is empty, `.` or `..`. */
  predicate NormalPath(p: string)
  {
    forall seg :: seg in Split(p, '/') ==> seg != "" && seg != "." && seg != ".."
  }

  /** `dir/sub/file` splits into its three slash-free segments. */
  lemma ThreeSegments(dir: string, sub: string, file: string)
    requires '/' !in dir && '/' !in sub && '/' !in file
    ensures Split(dir + "/" + sub + "/" + file, '/') == [dir, sub, file]
  {
    var rest := sub + "/" + file;
    assert dir + "/" + sub + "/" + file == dir + ['/'] + rest;
    assert rest == sub + ['/'] + file;
    SplitHead(dir, '/', rest);
    SplitHead(sub, '/', file);
    SplitWithout(file, '/');
    var parts := Split(dir + ['/'] + rest, '/');
    assert parts == [parts[0]] + parts[1..];
    var tail := Split(rest, '/');
    assert tail == [tail[0]] + tail[1..];
  }

  /** For a name without `/`, the model file's path is already normal: it
      is what `path.join` gives, with the lower-cased name as its file. */
  lemma ModelPathNormal(name: string)
    requires '/' !in name
    ensures Split(ModelPath(name), '/') == ["src", "models", Lower(name) + ".model.js"]
    ensures NormalPath(ModelPath(name))
  {
    LowerKeepsOut(name, '/');
    var file := Lower(name) + ".model.js";
    assert ModelPath(name) == "src" + "/" + "models" + "/" + file;
    ThreeSegments("src", "models", file);
    assert |file| > 2;
  }

  /** For a name without `/`, the views directory is already normal. */
  lemma ViewsDirNormal(name: string)
    requires '/' !in name
    ensures Split(ViewsDir(name), '/') == ["src", "views", Lower(name) + "s"]
    ensures NormalPath(ViewsDir(name))
  {
    LowerKeepsOut(name, '/');
    var dir := Lower(name) + "s";
    assert ViewsDir(name) == "src" + "/" + "views" + "/" + dir;
    ThreeSegments("src", "views", dir);
    assert dir[|dir| - 1] == 's';
  }

  /** Two paths built from one prefix and one suffix are the same exactly
      when their middles are. */
  lemma SameAffixes(pre: string, x: string, y: string, suf: string)
    ensures pre + x + suf == pre + y + suf <==> x == y
  {
    if pre + x + suf == pre + y + suf {
      assert |x| == |y|;
      assert (pre + x + suf)[|pre|..|pre| + |x|] == x;
      assert (pre + y + suf)[|pre|..|pre| + |y|] == y;
    }
  }

  /** Two names share a model file exactly when they agree after
      lower-casing: `User` and `user` overwrite each other's model. */
  lemma ModelPathIffLower(a: string, b: string)
    ensures ModelPath(a) == ModelPath(b) <==> Lower(a) == Lower(b)
  {
    SameAffixes("src/models/", Lower(a), Lower(b), ".model.js");
  }

  /** Two names share a views directory exactly when they agree after
      lower-casing. */
  lemma ViewsDirIffLower(a: string, b: string)
    ensures ViewsDir(a) == ViewsDir(b) <==> Lower(a) == Lower(b)
  {
    SameAffixes("src/views/", Lower(a), Lower(b), "s");
  }
}
