/**
 * The runner's script pipeline bookkeeping: which compiled files reach the
 * output directory (`checkWriteable` and its per-path timestamps), the name
 * under which the last script is announced (`setLastFile`), and the gate
 * that holds `afterFirstBuild` callers until the first build has settled
 * (`buildFinishedCheck`, `afterFirstBuild`, `runAfterFirstBuilds`).
 *
 * `Date.now()` is a parameter; the 450 ms timer of `buildFinishedCheck` is
 * the explicit `Timeout` event; a promise resolution is recorded as the
 * waiter's number in the order the `res()` calls are made.
 */
module GulpWrite {
  import opened Wrappers

  // ---------------------------------------------------------------------
  // Strings
  // ---------------------------------------------------------------------

  /** `s.slice(start)` for a possibly negative `start`, as JavaScript reads it. */
  function SliceFrom(s: string, start: int): (r: string)
    ensures |r| <= |s|
  {
    var from := if start < 0 then (if |s| + start < 0 then 0 else |s| + start) else start;
    if from >= |s| then [] else s[from..]
  }

  /** `path.slice(path.length - 3, path.length) === 'map'`. */
  predicate IsSourceMap(path: string) {
    SliceFrom(path, |path| - 3) == "map"
  }

  /** The slice test holds exactly for paths whose last three characters are `map`. */
  lemma SourceMapSuffix(path: string)
    ensures IsSourceMap(path) <==> |path| >= 3 && path[|path| - 3..] == "map"
  {
    if |path| < 3 {
      assert |SliceFrom(path, |path| - 3)| < 3;
    }
  }

  predicate OccursAt(s: string, pat: string, i: nat) {
    i + |pat| <= |s| && s[i..i + |pat|] == pat
  }

  /** The first position at or after `from` where `pat` occurs in `s`. */
  function IndexOf(s: string, pat: string, from: nat): (r: Option<nat>)
    ensures r.Some? ==> from <= r.value && OccursAt(s, pat, r.value)
    ensures r.Some? ==> forall i: nat | from <= i < r.value :: !OccursAt(s, pat, i)
    ensures r.None? ==> forall i: nat | from <= i :: !OccursAt(s, pat, i)
    decreases |s| - from
  {
    if from + |pat| > |s| then None
    else if s[from..from + |pat|] == pat then Some(from)
    else IndexOf(s, pat, from + 1)
  }

  /** `s.replace(pat, '')`: the first occurrence of `pat` removed. */
  function RemoveFirst(s: string, pat: string): (r: string)
    ensures IndexOf(s, pat, 0).None? ==> r == s
    ensures IndexOf(s, pat, 0).Some? ==> |r| + |pat| == |s|
  {
    match IndexOf(s, pat, 0)
    case None => s
    case Some(i) => s[..i] + s[i + |pat|..]
  }

  /** The name `setLastFile` gives a path: `appDir` cut out, and a leading `/`. */
  function ScriptName(path: string, appDir: string): (r: string)
    ensures |r| > 0 && r[0] == '/'
  {
    var name := RemoveFirst(path, appDir);
    if |name| > 0 && name[0] == '/' then name else "/" + name
  }

  /** For a path below the app directory, the name is the path relative to it, rooted at `/`. */
  lemma ScriptNameOfAppFile(appDir: string, rest: string)
    ensures ScriptName(appDir + rest, appDir) == if |rest| > 0 && rest[0] == '/' then rest else "/" + rest
  {
    var path := appDir + rest;
    assert path[0..|appDir|] == appDir;
    assert IndexOf(path, appDir, 0) == Some(0);
    assert path[..0] + path[|appDir|..] == rest;
  }

  // ---------------------------------------------------------------------
  // checkWriteable
  // ---------------------------------------------------------------------

  /** What `checkWriteable` reads of a file. */
  datatype Candidate = Candidate(path: string, isInternal: bool, startTime: nat)

  /** The pipeline's flags: a user stream was given, the last compile failed, build mode. */
  datatype Flags = Flags(userStream: bool, lastError: bool, build: bool)

  /** The decision and the timestamps afterwards. */
  datatype Verdict = Verdict(write: bool, stamps: map<string, nat>)

  /** No timestamp is stored for the path (or a falsy one), or the file started later. */
  predicate IsNew(stamps: map<string, nat>, file: Candidate) {
    file.path !in stamps || stamps[file.path] == 0 || file.startTime > stamps[file.path]
  }

  /** `checkWriteable(file)` after its `buildFinishedCheck()` call. */
  function Decide(file: Candidate, flags: Flags, stamps: map<string, nat>): (r: Verdict)
    ensures file.isInternal ==> !r.write
    ensures !file.isInternal && IsSourceMap(file.path) ==> r.write
    ensures !file.isInternal && !IsSourceMap(file.path) && (flags.userStream || flags.lastError) ==> !r.write
    ensures !file.isInternal && !IsSourceMap(file.path) && !flags.userStream && !flags.lastError ==>
      (flags.build ==> r.write) && (!flags.build ==> (r.write <==> IsNew(stamps, file)))
    ensures r.stamps == stamps || (r.write && r.stamps == stamps[file.path := file.startTime])
    ensures r.stamps != stamps ==> !flags.build
  {
    if file.isInternal then Verdict(false, stamps)
    else if IsSourceMap(file.path) then Verdict(true, stamps)
    else if flags.userStream || flags.lastError then Verdict(false, stamps)
    else if flags.build then Verdict(true, stamps)
    else if IsNew(stamps, file) then Verdict(true, stamps[file.path := file.startTime])
    else Verdict(false, stamps)
  }

  /** Stored timestamps never go down, and no path is ever forgotten. */
  lemma StampsNeverDecrease(file: Candidate, flags: Flags, stamps: map<string, nat>)
    ensures var r := Decide(file, flags, stamps).stamps;
      && stamps.Keys <= r.Keys
      && forall p | p in stamps :: stamps[p] <= r[p]
  {
  }

  /**
   * Once a file has been written in watch mode, a compile of the same path
   * that started no later is not written: a stale result never replaces a
   * newer one, and the same compile is not written twice.
   */
  lemma StaleNeverWritten(first: Candidate, later: Candidate, flags: Flags, stamps: map<string, nat>)
    requires first.path == later.path && !IsSourceMap(later.path) && !flags.build
    requires 0 < later.startTime <= first.startTime
    requires Decide(first, flags, stamps).write
    ensures !Decide(later, flags, Decide(first, flags, stamps).stamps).write
  {
  }

  /** A compile that started after the last written one of its path is written, errors permitting. */
  lemma NewerIsWritten(first: Candidate, later: Candidate, flags: Flags, stamps: map<string, nat>)
    requires first.path == later.path && !later.isInternal && !flags.userStream && !flags.lastError
    requires Decide(first, flags, stamps).write && first.startTime < later.startTime
    ensures Decide(later, flags, Decide(first, flags, stamps).stamps).write
  {
  }

  // ---------------------------------------------------------------------
  // The first-build gate
  // ---------------------------------------------------------------------

  /**
   * `hasRunInitialBuild`, whether the `buildingTimeout` timer is pending,
   * `waitingForFirstBuild`, and the waiters resolved so far, in order.
   */
  datatype Gate = Gate(hasRun: bool, armed: bool, waiting: seq<nat>, resolved: seq<nat>)

  /** `buildFinishedCheck()`, the firing of its timer, and `afterFirstBuild()` by waiter `id`. */
  datatype GateEvent = Check | Timeout | Wait(id: nat)

  const Init: Gate := Gate(false, false, [], [])

  function Step(g: Gate, e: GateEvent): Gate {
    match e
    case Check => if g.hasRun then g else g.(armed := true)
    case Timeout => if g.armed then g.(hasRun := true, armed := false, resolved := g.resolved + g.waiting) else g
    case Wait(id) => if g.hasRun then g.(resolved := g.resolved + [id]) else g.(waiting := g.waiting + [id])
  }

  function Run(trace: seq<GateEvent>): Gate
    decreases |trace|
  {
    if trace == [] then Init else Step(Run(trace[..|trace| - 1]), trace[|trace| - 1])
  }

  /** The callers of `afterFirstBuild` in a trace, in call order. */
  function Waits(trace: seq<GateEvent>): seq<nat>
    decreases |trace|
  {
    if trace == [] then []
    else Waits(trace[..|trace| - 1]) + (if trace[|trace| - 1].Wait? then [trace[|trace| - 1].id] else [])
  }

  /** Some timer firing in the trace came after a `buildFinishedCheck()`. */
  predicate Released(trace: seq<GateEvent>)
    decreases |trace|
  {
    trace != [] &&
    (Released(trace[..|trace| - 1]) || (trace[|trace| - 1] == Timeout && Check in trace[..|trace| - 1]))
  }

  /**
   * The first build counts as finished exactly when a timer set by
   * `buildFinishedCheck` has fired; a timer is pending only before that and
   * after some check; and every caller of `afterFirstBuild` is resolved
   * exactly once, in call order: none before the release, and afterwards
   * all of them, the earlier waiters first.
   */
  lemma {:induction false} GateTrace(trace: seq<GateEvent>)
    ensures var g := Run(trace);
      && (g.hasRun <==> Released(trace))
      && (g.armed <==> !g.hasRun && Check in trace)
      && (g.hasRun ==> g.resolved == Waits(trace))
      && (!g.hasRun ==> g.resolved == [] && g.waiting == Waits(trace))
    decreases |trace|
  {
    if trace != [] {
      var init := trace[..|trace| - 1];
      var e := trace[|trace| - 1];
      GateTrace(init);
      assert trace == init + [e];
      assert Check in trace <==> Check in init || e == Check;
    }
  }

  /** A waiter that calls after the release is resolved at once. */
  lemma LateWaiterResolvedAtOnce(trace: seq<GateEvent>, id: nat)
    requires Released(trace)
    ensures Run(trace + [Wait(id)]).resolved == Waits(trace) + [id]
  {
    GateTrace(trace);
    assert (trace + [Wait(id)])[..|trace|] == trace;
  }

  /** `OPTS.hasRunInitialBuild`, the pending timer and the waiter list, as the runner keeps them. */
  class FirstBuild {
    var hasRunInitialBuild: bool
    var timerArmed: bool
    var waitingForFirstBuild: seq<nat>
    var resolved: seq<nat>

    function State(): Gate
      reads this
    {
      Gate(hasRunInitialBuild, timerArmed, waitingForFirstBuild, resolved)
    }

    constructor ()
      ensures State() == Init
    {
      hasRunInitialBuild := false;
      timerArmed := false;
      waitingForFirstBuild := [];
      resolved := [];
    }

    /** `buildFinishedCheck()`: before the first build, (re)start the timer. */
    method BuildFinishedCheck()
      modifies this
      ensures State() == Step(old(State()), Check)
    {
      if !hasRunInitialBuild {
        timerArmed := true;
      }
    }

    /** The pending timer fires: the first build is over and the waiters are released. */
    method TimerFires()
      modifies this
      ensures State() == Step(old(State()), Timeout)
    {
      if timerArmed {
        timerArmed := false;
        hasRunInitialBuild := true;
        RunAfterFirstBuilds();
      }
    }

    /** `runAfterFirstBuilds()`: every queued waiter is resolved, in queue order. */
    method RunAfterFirstBuilds()
      modifies this
      ensures resolved == old(resolved) + waitingForFirstBuild
      ensures hasRunInitialBuild == old(hasRunInitialBuild) && timerArmed == old(timerArmed)
      ensures waitingForFirstBuild == old(waitingForFirstBuild)
    {
      for i := 0 to |waitingForFirstBuild|
        invariant waitingForFirstBuild == old(waitingForFirstBuild)
        invariant hasRunInitialBuild == old(hasRunInitialBuild) && timerArmed == old(timerArmed)
        invariant resolved == old(resolved) + waitingForFirstBuild[..i]
      {
        resolved := resolved + [waitingForFirstBuild[i]];
        assert waitingForFirstBuild[..i + 1] == waitingForFirstBuild[..i] + [waitingForFirstBuild[i]];
      }
      assert waitingForFirstBuild[..|waitingForFirstBuild|] == waitingForFirstBuild;
    }

    /** `afterFirstBuild()` called by waiter `id`: resolved now, or queued. */
    method AfterFirstBuild(id: nat)
      modifies this
      ensures State() == Step(old(State()), Wait(id))
    {
      if hasRunInitialBuild {
        resolved := resolved + [id];
      } else {
        waitingForFirstBuild := waitingForFirstBuild + [id];
      }
    }
  }

  // ---------------------------------------------------------------------
  // The pipeline's per-file state
  // ---------------------------------------------------------------------

  /** A file in the stream; the pipeline stamps `startTime` and `isSourceMap` on it. */
  class Vinyl {
    const path: string
    const isInternal: bool
    var startTime: nat
    var isSourceMap: bool

    constructor (path: string, isInternal: bool)
      ensures this.path == path && this.isInternal == isInternal
      ensures startTime == 0 && !isSourceMap
    {
      this.path := path;
      this.isInternal := isInternal;
      startTime := 0;
      isSourceMap := false;
    }

    function AsCandidate(): Candidate
      reads this
    {
      Candidate(path, isInternal, startTime)
    }
  }

  /** The script announced to the browser: its name and when its compile started. */
  datatype Script = Script(name: string, compiledAt: nat)

  /**
   * The state `buildScripts` keeps for its stream (`lastScript`, `curFile`,
   * `lastError`), the module's `lastSavedTimestamp`, and the first-build gate.
   */
  class Writer {
    const gate: FirstBuild
    const build: bool
    const userStream: bool
    const appDir: string
    var lastError: bool
    var lastScript: Option<Script>
    var curFile: Vinyl?
    var lastSavedTimestamp: map<string, nat>

    constructor (gate: FirstBuild, build: bool, userStream: bool, appDir: string)
      ensures this.gate == gate && this.build == build && this.userStream == userStream && this.appDir == appDir
      ensures !lastError && lastScript == None && curFile == null && lastSavedTimestamp == map[]
    {
      this.gate := gate;
      this.build := build;
      this.userStream := userStream;
      this.appDir := appDir;
      lastError := false;
      lastScript := None;
      curFile := null;
      lastSavedTimestamp := map[];
    }

    function CurrentFlags(): Flags
      reads this
    {
      Flags(userStream, lastError, build)
    }

    /** `resetLastFile(file)`, with `now` for `Date.now()`. */
    method ResetLastFile(file: Vinyl, now: nat)
      modifies this, file
      ensures !lastError && curFile == file && lastScript == None && file.startTime == now
      ensures file.isSourceMap == old(file.isSourceMap)
      ensures lastSavedTimestamp == old(lastSavedTimestamp)
    {
      lastError := false;
      curFile := file;
      lastScript := None;
      file.startTime := now;
    }

    /** `catchError(error)`: the compile failed; the failure also counts as activity for the first build. */
    method CatchError()
      modifies this, gate
      ensures lastError
      ensures lastScript == old(lastScript) && curFile == old(curFile) && lastSavedTimestamp == old(lastSavedTimestamp)
      ensures gate.State() == Step(old(gate.State()), Check)
    {
      lastError := true;
      gate.BuildFinishedCheck();
    }

    /** `setLastFile(file)`: outside build mode, record the script under its rooted name. */
    method SetLastFile(file: Vinyl)
      modifies this
      ensures build ==> lastScript == old(lastScript) && curFile == old(curFile)
      ensures !build ==> lastScript == Some(Script(ScriptName(file.path, appDir), file.startTime)) && curFile == file
      ensures lastError == old(lastError) && lastSavedTimestamp == old(lastSavedTimestamp)
    {
      if build {
        return;
      }
      var name := RemoveFirst(file.path, appDir);
      if |name| == 0 || name[0] != '/' {
        name := "/" + name;
      }
      lastScript := Some(Script(name, file.startTime));
      curFile := file;
    }

    /**
     * `checkWriteable(file)`: note the activity for the first build, then
     * decide whether the file is written, recording its start time when a
     * watched file is written.
     */
    method CheckWriteable(file: Vinyl) returns (write: bool)
      modifies this, file, gate
      ensures Verdict(write, lastSavedTimestamp) == Decide(old(file.AsCandidate()), old(CurrentFlags()), old(lastSavedTimestamp))
      ensures file.startTime == old(file.startTime)
      ensures file.isSourceMap == if file.isInternal then old(file.isSourceMap) else IsSourceMap(file.path)
      ensures gate.State() == Step(old(gate.State()), Check)
      ensures lastError == old(lastError) && lastScript == old(lastScript) && curFile == old(curFile)
    {
      gate.BuildFinishedCheck();
      if file.isInternal {
        return false;
      }
      file.isSourceMap := IsSourceMap(file.path);
      if file.isSourceMap {
        return true;
      }
      if userStream || lastError {
        return false;
      }
      if build {
        return true;
      }
      var isNew := file.path !in lastSavedTimestamp || lastSavedTimestamp[file.path] == 0
        || file.startTime > lastSavedTimestamp[file.path];
      if isNew {
        lastSavedTimestamp := lastSavedTimestamp[file.path := file.startTime];
        return true;
      }
      return false;
    }
  }
}
