/** The watch mode: a file-system watcher over the project's `.js` and
    `.ejs` files that, after a quiet second, hands the last changed file
    to the dependency checker. Chokidar's events and the timers become
    explicit steps carrying a millisecond clock. */
module FileWatcher {
  import opened JsString
  import opened Wrappers

  // ---- Paths -----------------------------------------------------------------------

  /** The seven ignore patterns: `node_modules` or `.git` anywhere, or one
      of five endings. The `.git` test is a plain substring test, so it
      also hits `.github` and `.gitignore`. */
  predicate Ignored(path: string)
  {
    Contains(path, "node_modules") || Contains(path, ".git")
    || EndsWith(path, "package-lock.json") || EndsWith(path, "yarn.lock")
    || EndsWith(path, ".log") || EndsWith(path, ".swp") || EndsWith(path, ".swo")
  }

  /** The paths chokidar reports: the `**` globs for `.js` and `.ejs`, less
      the ignored ones. */
  predicate Watched(path: string)
  {
    !Ignored(path) && (EndsWith(path, ".js") || EndsWith(path, ".ejs"))
  }

  /** No `ch` in `s` from position `from` on. */
  predicate NoChar(s: string, ch: char, from: nat)
  {
    forall i :: from <= i < |s| ==> s[i] != ch
  }

  /** `path` less its trailing slashes, which `path.extname` skips. */
  function TrimTrailingSlashes(path: string): (r: string)
    ensures |r| <= |path|
    decreases |path|
  {
    if path != [] && path[|path| - 1] == '/' then TrimTrailingSlashes(path[..|path| - 1]) else path
  }

  /** Trimming removes exactly the trailing run of slashes. */
  lemma {:induction false} TrimmedSlashes(path: string)
    ensures var r := TrimTrailingSlashes(path);
            r == path[..|r|] && (r == [] || r[|r| - 1] != '/') && forall i :: |r| <= i < |path| ==> path[i] == '/'
    decreases |path|
  {
    if path != [] && path[|path| - 1] == '/' {
      var q := path[..|path| - 1];
      TrimmedSlashes(q);
      var r := TrimTrailingSlashes(q);
      assert q[..|r|] == path[..|r|];
    }
  }

  /** What follows the last slash of `p` (all of `p` without one). */
  function LastComponent(p: string): (c: string)
    ensures |c| <= |p|
  {
    p[LastAt(p, '/') + 1..]
  }

  /** The text after a last `ch` at `d` (or all of `p` when `d` is -1)
      is a `ch`-free ending of `p` that is all of `p` or follows a `ch`. */
  lemma AfterLast(p: string, ch: char, d: int)
    requires -1 <= d < |p| && (d >= 0 ==> p[d] == ch) && NoChar(p, ch, d + 1)
    ensures NoChar(p[d + 1..], ch, 0)
    ensures p[d + 1..] == p[|p| - |p[d + 1..]|..]
    ensures p[d + 1..] == p || p[d] == ch
  {
    var c := p[d + 1..];
    forall i | 0 <= i < |c| ensures c[i] != ch {
      assert c[i] == p[d + 1 + i];
    }
  }

  /** The last component is a slash-free ending of `p` that is all of `p`
      or follows a slash. */
  lemma LastComponentSlashFree(p: string)
    ensures var c := LastComponent(p);
            NoChar(c, '/', 0) && c == p[|p| - |c|..] && (c == p || p[|p| - |c| - 1] == '/')
  {
    LastFound(p, '/');
    AfterLast(p, '/', LastAt(p, '/'));
  }

  /** The component `path.extname` looks at: the last one, trailing
      slashes skipped. */
  function FinalComponent(path: string): string
  {
    LastComponent(TrimTrailingSlashes(path))
  }

  /** The position of the last `ch` in `s`, or -1. */
  function LastAt(s: string, ch: char): (d: int)
    ensures -1 <= d < |s|
    decreases |s|
  {
    if s == [] then -1 else if s[|s| - 1] == ch then |s| - 1 else LastAt(s[..|s| - 1], ch)
  }

  /** `LastAt` finds a `ch` with no `ch` after it. */
  lemma {:induction false} LastFound(s: string, ch: char)
    ensures var d := LastAt(s, ch);
            (d >= 0 ==> s[d] == ch) && NoChar(s, ch, d + 1)
    decreases |s|
  {
    if s != [] && s[|s| - 1] != ch {
      var q := s[..|s| - 1];
      LastFound(q, ch);
      assert LastAt(s, ch) == LastAt(q, ch);
      forall i | LastAt(q, ch) + 1 <= i < |s| ensures s[i] != ch {
        if i < |q| { assert q[i] == s[i]; }
      }
    }
  }

  /** The extension of one path component: from its last `.` on, unless
      there is none, it is the first character, or the component is `..`. */
  function ComponentExtname(c: string): (e: string)
    ensures e == [] || e[0] == '.'
  {
    var d := LastAt(c, '.');
    LastFound(c, '.');
    if d <= 0 || c == ".." then [] else c[d..]
  }

  /** POSIX `path.extname`: the extension of the final component. */
  function Extname(path: string): (e: string)
    ensures e == [] || e[0] == '.'
  {
    ComponentExtname(FinalComponent(path))
  }

  /** A component's extension is empty exactly when no `.` follows its
      first character or it is `..`; otherwise it is a proper ending of
      the component whose only `.` is its first character. */
  lemma ComponentExtnameShape(c: string)
    ensures ComponentExtname(c) == [] <==> (c == ".." || NoChar(c, '.', 1))
    ensures var e := ComponentExtname(c);
            e != [] ==> NoChar(e, '.', 1) && |e| < |c| && c[|c| - |e|..] == e
                        && (NoChar(c, '/', 0) ==> NoChar(e, '/', 0))
  {
    var d := LastAt(c, '.');
    LastFound(c, '.');
    if d > 0 && c != ".." {
      var e := c[d..];
      forall i | 0 <= i < |e| ensures e[i] == c[d + i] {
      }
    }
  }

  /** The extension is empty exactly when the final component has no `.`
      after its first character or is `..`; otherwise it is a proper ending
      of that component with its only `.` at its front and no slash. */
  lemma ExtnameOfComponent(path: string)
    ensures var c := FinalComponent(path);
            Extname(path) == [] <==> (c == ".." || NoChar(c, '.', 1))
    ensures var c, e := FinalComponent(path), Extname(path);
            e != [] ==> e[0] == '.' && NoChar(e, '.', 1) && NoChar(e, '/', 0) && |e| < |c| && c[|c| - |e|..] == e
  {
    LastComponentSlashFree(TrimTrailingSlashes(path));
    ComponentExtnameShape(FinalComponent(path));
  }

  /** A slash in a path lies before any slash-free ending of it. */
  lemma SlashBeforeEnding(p: string, w: string, j: nat)
    requires EndsWith(p, w) && NoChar(w, '/', 0) && j < |p| && p[j] == '/'
    ensures j < |p| - |w|
  {
    var m := |p| - |w|;
    assert forall i :: m <= i < |p| ==> p[i] == w[i - m];
  }

  /** A slash-free ending of a path is an ending of its last component. */
  lemma LastComponentEndsWith(p: string, w: string)
    requires EndsWith(p, w) && NoChar(w, '/', 0)
    ensures EndsWith(LastComponent(p), w)
  {
    var c := LastComponent(p);
    LastComponentSlashFree(p);
    var k := |p| - |c|;
    if c != p {
      SlashBeforeEnding(p, w, k - 1);
    }
    assert |w| <= |c|;
    assert c[|c| - |w|..] == p[|p| - |w|..];
  }

  /** The final component of a path that ends in a non-empty, slash-free
      `w` ends in `w`. */
  lemma FinalComponentEndsWith(path: string, w: string)
    requires EndsWith(path, w) && w != [] && NoChar(w, '/', 0)
    ensures EndsWith(FinalComponent(path), w)
  {
    assert path[|path| - 1] == w[|w| - 1] != '/';
    assert TrimTrailingSlashes(path) == path;
    LastComponentEndsWith(path, w);
  }

  /** A trailing slash does not change the extension. */
  lemma ExtnameSkipsTrailingSlash(path: string)
    ensures Extname(path + "/") == Extname(path)
  {
    assert (path + "/")[..|path|] == path;
    assert TrimTrailingSlashes(path + "/") == TrimTrailingSlashes(path);
  }

  /** What `checkFileDependencies` does with a path: re-test the ignore
      patterns, then hand only `.js` files to the dependency checker. */
  predicate CheckRuns(path: string)
  {
    !Ignored(path) && Extname(path) == ".js"
  }

  // ---- The state ----------------------------------------------------------------

  /** `this.watcher`: never created, open, or closed by `stop` (the field
      keeps the closed watcher). */
  datatype Handle = NoWatcher | Open | Closed

  /** The one debounce timer: the path it will check and when it fires. */
  datatype Pending = Pending(path: string, due: int)

  /** Everything the watcher's behaviour depends on: the two fields, the
      current session's `lastProcessed` and `timeout`, timers left behind by
      earlier sessions, and the paths handed to the dependency checker so
      far. */
  datatype WatchState = WatchState(
    isWatching: bool,
    watcher: Handle,
    lastProcessed: map<string, int>,
    pending: Option<Pending>,
    orphans: seq<Pending>,
    checked: seq<string>)

  /** `isWatching` holds exactly while a watcher is open. Every step keeps
      it (`StepsKeepValid`), and `OpenWatcherBlocksStart` relies on it. */
  predicate Valid(s: WatchState)
  {
    s.isWatching <==> s.watcher == Open
  }

  const Initial := WatchState(false, NoWatcher, map[], None, [], [])

  // ---- The steps ------------------------------------------------------------------

  /** `start`: nothing while watching; otherwise, if chokidar loads, a new
      watcher and a new session whose `lastProcessed` and timer slot are
      fresh. A timer still pending from the previous session is not
      cancelled and lives on outside the new slot. */
  function StartStep(s: WatchState, chokidarLoads: bool): WatchState
  {
    if s.isWatching || !chokidarLoads then s
    else WatchState(true, Open, map[], None,
                    s.orphans + (if s.pending.Some? then [s.pending.value] else []), s.checked)
  }

  /** `stop`: closes the watcher if there is one and clears the flag;
      pending timers are left alone. */
  function StopStep(s: WatchState): WatchState
  {
    s.(watcher := if s.watcher == NoWatcher then NoWatcher else Closed, isWatching := false)
  }

  /** The last time `path` was processed in this session, 0 if never. */
  function LastTime(s: WatchState, path: string): int
  {
    if path in s.lastProcessed then s.lastProcessed[path] else 0
  }

  /** An `add` or `change` event at time `now`: delivered only by an open
      watcher for a watched path; dropped within two seconds of the path's
      last processing; otherwise it replaces whatever timer is pending, for
      any path, by one for itself a second later. */
  function EventStep(s: WatchState, path: string, now: int): WatchState
  {
    if s.watcher != Open || !Watched(path) then s
    else if now - LastTime(s, path) < 2000 then s
    else s.(pending := Some(Pending(path, now + 1000)))
  }

  /** The pending timer fires and its check completes at `doneAt`: the path
      is checked if it passes the dependency check's own filter, and its completion
      time is recorded either way (a failed check is caught). */
  function FireStep(s: WatchState, doneAt: int): WatchState
  {
    match s.pending
    case None => s
    case Some(p) =>
      s.(pending := None,
         checked := s.checked + (if CheckRuns(p.path) then [p.path] else []),
         lastProcessed := s.lastProcessed[p.path := doneAt])
  }

  /** A timer left behind by an earlier session fires: it still runs the
      check, and records its time in a map no one reads any more. */
  function FireOrphanStep(s: WatchState, i: nat): WatchState
    requires i < |s.orphans|
  {
    var p := s.orphans[i];
    s.(orphans := s.orphans[..i] + s.orphans[i + 1..],
       checked := s.checked + (if CheckRuns(p.path) then [p.path] else []))
  }

  // ---- The class ----------------------------------------------------------------

  class Watcher {
    var isWatching: bool
    var watcher: Handle
    var lastProcessed: map<string, int>
    var timeout: Option<Pending>
    var orphans: seq<Pending>
    var checked: seq<string>

    function State(): WatchState
      reads this
    {
      WatchState(isWatching, watcher, lastProcessed, timeout, orphans, checked)
    }

    constructor()
      ensures State() == Initial
    {
      isWatching := false;
      watcher := NoWatcher;
      lastProcessed := map[];
      timeout := None;
      orphans := [];
      checked := [];
    }

    method Start(chokidarLoads: bool)
      modifies this
      ensures State() == StartStep(old(State()), chokidarLoads)
    {
      if isWatching {
        return;
      }
      if !chokidarLoads {
        return;
      }
      watcher := Open;
      if timeout.Some? {
        orphans := orphans + [timeout.value];
      }
      timeout := None;
      lastProcessed := map[];
      isWatching := true;
    }

    method Stop()
      modifies this
      ensures State() == StopStep(old(State()))
    {
      if watcher != NoWatcher {
        watcher := Closed;
      }
      isWatching := false;
    }

    /** `handleChange`, behind chokidar's own filter. */
    method HandleChange(path: string, now: int)
      modifies this
      ensures State() == EventStep(old(State()), path, now)
    {
      if watcher != Open || !Watched(path) {
        return;
      }
      var last := if path in lastProcessed then lastProcessed[path] else 0;
      if now - last < 2000 {
        return;
      }
      timeout := Some(Pending(path, now + 1000));
    }

    /** The debounce timer's callback, completing at `doneAt`. */
    method FireTimeout(doneAt: int)
      modifies this
      ensures State() == FireStep(old(State()), doneAt)
    {
      if timeout.None? {
        return;
      }
      var p := timeout.value;
      timeout := None;
      if CheckRuns(p.path) {
        checked := checked + [p.path];
      }
      lastProcessed := lastProcessed[p.path := doneAt];
    }

    /** The callback of a timer from an earlier session. */
    method FireOrphan(i: nat)
      requires i < |orphans|
      modifies this
      ensures State() == FireOrphanStep(old(State()), i)
    {
      var p := orphans[i];
      orphans := orphans[..i] + orphans[i + 1..];
      if CheckRuns(p.path) {
        checked := checked + [p.path];
      }
    }
  }

  // ---- Properties -------------------------------------------------------------------

  /** Every step keeps `isWatching` in step with the open watcher. */
  lemma StepsKeepValid(s: WatchState, b: bool, path: string, now: int, i: nat)
    requires Valid(s)
    ensures Valid(StartStep(s, b)) && Valid(StopStep(s)) && Valid(EventStep(s, path, now))
    ensures Valid(FireStep(s, now))
    ensures i < |s.orphans| ==> Valid(FireOrphanStep(s, i))
  {
  }

  /** The watcher starts valid, and validity is what keeps a second
      watcher from opening: while one is open, `start` sees `isWatching`
      and does nothing, and an event only gets through while `isWatching`
      holds. */
  lemma OpenWatcherBlocksStart(s: WatchState, b: bool, path: string, now: int)
    requires Valid(s)
    ensures Valid(Initial)
    ensures s.watcher == Open ==> StartStep(s, b) == s
    ensures EventStep(s, path, now) != s ==> s.isWatching
  {
  }

  /** `start` while watching changes nothing: a second start keeps the
      session, its timer and its `lastProcessed`. */
  lemma StartTwiceIsStartOnce(s: WatchState, b: bool)
    ensures StartStep(StartStep(s, true), b) == StartStep(s, true)
    ensures StartStep(s, true).isWatching
  {
  }

  /** A restart forgets the cooldowns, and a timer pending at the restart
      survives it. */
  lemma RestartForgetsCooldowns(s: WatchState, b: bool)
    requires !s.isWatching && s.pending.Some?
    ensures var t := StartStep(s, true);
      t.lastProcessed == map[] && t.pending == None && t.orphans[|t.orphans| - 1] == s.pending.value
  {
  }

  /** Ignored paths never reach the timer, and nothing is delivered while
      the watcher is not open. */
  lemma DroppedEvents(s: WatchState, path: string, now: int)
    requires Ignored(path) || s.watcher != Open
    ensures EventStep(s, path, now) == s
  {
  }

  /** An accepted event takes the single slot, whatever path held it, and
      changes nothing else. */
  lemma AcceptedEventTakesSlot(s: WatchState, path: string, now: int)
    requires s.watcher == Open && Watched(path) && now - LastTime(s, path) >= 2000
    ensures EventStep(s, path, now) == s.(pending := Some(Pending(path, now + 1000)))
  {
  }

  /** Of two accepted events before the timer fires, only the later one is
      checked. */
  lemma DebounceKeepsLast(s: WatchState, p1: string, t1: int, p2: string, t2: int, doneAt: int)
    requires s.watcher == Open && Watched(p1) && Watched(p2)
    requires t1 - LastTime(s, p1) >= 2000 && t2 - LastTime(s, p2) >= 2000
    requires CheckRuns(p1) && CheckRuns(p2)
    ensures var u := FireStep(EventStep(EventStep(s, p1, t1), p2, t2), doneAt);
      u.checked == s.checked + [p2] && u.pending == None
  {
    assert LastTime(EventStep(s, p1, t1), p2) == LastTime(s, p2);
  }

  /** After a check completes at `doneAt`, events for the same path are
      dropped until two seconds have passed, even when the check did
      nothing. */
  lemma CooldownAfterFire(s: WatchState, doneAt: int, now: int)
    requires s.pending.Some? && now < doneAt + 2000
    ensures var u := FireStep(s, doneAt);
      EventStep(u, s.pending.value.path, now) == u
  {
  }

  /** Only timers record completion times: a path never fired has no
      cooldown. */
  lemma EventsDoNotRecord(s: WatchState, path: string, now: int)
    ensures EventStep(s, path, now).lastProcessed == s.lastProcessed
    ensures EventStep(s, path, now).checked == s.checked
  {
  }

  /** A path with `.github` in it is ignored by the `.git` pattern. */
  lemma GithubIgnored(path: string)
    requires Contains(path, ".github")
    ensures Ignored(path)
  {
    var k :| 0 <= k <= |path| && OccursAt(path, ".github", k);
    assert path[k..k + 4] == path[k..k + 7][..4];
    assert OccursAt(path, ".git", k);
  }

  /** An `.ejs` path is watched but never checked: its extension is
      `.ejs`, or empty for a file named just `.ejs`. */
  lemma EjsNeverChecked(path: string)
    requires EndsWith(path, ".ejs")
    ensures Extname(path) == ".ejs" || Extname(path) == []
    ensures !CheckRuns(path)
  {
    EndsInExtension(path, ".ejs");
  }

  /** A `.js` path whose name has something before the extension has the
      extension `.js`. */
  lemma JsExtension(path: string)
    requires EndsWith(path, ".js") && |path| >= 4 && path[|path| - 4] != '/'
    ensures Extname(path) == ".js"
  {
    var w := path[|path| - 4..];
    assert w[1..] == ".js";
    FinalComponentEndsWith(path, w);
    var c := FinalComponent(path);
    assert |c| >= 4 && c[|c| - 3..] == w[1..];
    EndsInExtension(path, ".js");
  }

  /** A path ending in `.` and a dot-free, slash-free name `x` has the
      extension `.x`, or none when that is its whole final component or
      the final component is `..`. */
  lemma EndsInExtension(path: string, ext: string)
    requires EndsWith(path, ext) && |ext| > 0 && ext[0] == '.' && NoChar(ext, '.', 1) && NoChar(ext, '/', 0)
    ensures Extname(path) == ext
            || (Extname(path) == [] && (FinalComponent(path) == ext || FinalComponent(path) == ".."))
  {
    FinalComponentEndsWith(path, ext);
    var c := FinalComponent(path);
    var n := |ext|;
    assert c[|c| - n..] == ext;
    assert forall j :: |c| - n <= j < |c| ==> c[j] == ext[j - (|c| - n)];
    var d := LastAt(c, '.');
    LastFound(c, '.');
    assert d == |c| - n;
    if |c| == n {
      assert c == ext;
    }
  }
}
