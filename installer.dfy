/**
 * The dependency side of the runner: `scanFile` finds the packages a file
 * requires, installs the ones not yet known strictly one at a time
 * (`npm install --save`, then a re-bundle), and records the file's imports
 * once the queue is empty; `depRequireString`/`writeDeps` build the loader
 * text; `bundle` filters the package list.
 *
 * `npm install` and the bundler are not run: whether the save and the
 * bundle of the i-th queued package succeed is given by the oracles
 * `saveOk(i)` and `bundleOk(i)`. A bundle that fails is caught and logged by
 * `bundle()` without settling its promise, so the queue stalls there.
 */
module Installer {
  import opened Strings
  import RequireScan

  /** `found.filter(f => all.indexOf(f) < 0)`: the names not yet known, duplicates kept. */
  function Fresh(found: seq<string>, all: seq<string>): (r: seq<string>)
    ensures forall x | x in r :: x in found && x !in all
  {
    if found == [] then []
    else (if found[0] !in all then [found[0]] else []) + Fresh(found[1..], all)
  }

  /** `found.filter(f => all.indexOf(f) >= 0)`: the names already known. */
  function Already(found: seq<string>, all: seq<string>): (r: seq<string>)
    ensures forall x | x in r :: x in found && x in all
  {
    if found == [] then []
    else (if found[0] in all then [found[0]] else []) + Already(found[1..], all)
  }

  /**
   * `fresh` and `already` split `found`: every occurrence lands in exactly
   * one of them, by whether the name is known.
   */
  lemma {:induction false} FreshAlreadyPartition(found: seq<string>, all: seq<string>)
    ensures multiset(Fresh(found, all)) + multiset(Already(found, all)) == multiset(found)
    ensures forall x | x in found :: (x in Fresh(found, all) <==> x !in all) && (x in Already(found, all) <==> x in all)
  {
    if found != [] {
      FreshAlreadyPartition(found[1..], all);
      assert found == [found[0]] + found[1..];
    }
  }

  datatype Event =
    | Started(dep: string)                  // `opts.onPackageStart(dep)`
    | Finished(dep: string)                 // `opts.onPackageFinish(dep)`
    | Failed(dep: string, reason: string)   // `opts.onPackageError(dep, reason)`

  /** The rejection reason of a failed `save(name)`. */
  function SaveFailure(name: string): string {
    "Install failed for package " + name
  }

  /**
   * Where a drain got to: the callbacks in order, the packages pushed onto
   * `installed`, and whether `done` ran.
   */
  datatype Drained = Drained(events: seq<Event>, installed: seq<string>, completed: bool)

  /**
   * The drain of `installNext`/`next`/`done` over `queue`, whose first entry
   * is the `k`-th package of the drain. A failed save reports the error and
   * moves on; a failed bundle never settles, so nothing after it happens.
   */
  function Drain(queue: seq<string>, k: nat, saveOk: nat -> bool, bundleOk: nat -> bool): (d: Drained)
    ensures |d.events| <= 2 * |queue|
    ensures d.completed <==> |d.events| == 2 * |queue|
    decreases |queue|
  {
    if queue == [] then Drained([], [], true)
    else
      var dep := queue[0];
      if !saveOk(k) then
        var rest := Drain(queue[1..], k + 1, saveOk, bundleOk);
        Drained([Started(dep), Failed(dep, SaveFailure(dep))] + rest.events, rest.installed, rest.completed)
      else if !bundleOk(k) then
        Drained([Started(dep)], [dep], false)
      else
        var rest := Drain(queue[1..], k + 1, saveOk, bundleOk);
        Drained([Started(dep), Finished(dep)] + rest.events, [dep] + rest.installed, rest.completed)
  }

  /**
   * Each start callback is followed by exactly one finish or error callback
   * for the same package before the next start; only the last start may be
   * left unsettled (a stalled bundle).
   */
  predicate Alternating(events: seq<Event>)
    decreases |events|
  {
    if events == [] then true
    else
      && events[0].Started?
      && (|events| == 1 || (!events[1].Started? && events[1].dep == events[0].dep && Alternating(events[2..])))
  }

  /** The packages given the start callback, in order. */
  function StartedDeps(events: seq<Event>): seq<string>
    decreases |events|
  {
    if events == [] then []
    else (if events[0].Started? then [events[0].dep] else []) + StartedDeps(events[1..])
  }

  predicate IsPrefix<T(==)>(a: seq<T>, b: seq<T>) {
    |a| <= |b| && a == b[..|a|]
  }

  /**
   * One package at a time, in queue order: the callbacks alternate start and
   * settle, the started packages are a prefix of the queue, and all of the
   * queue when the drain completes.
   */
  lemma {:induction false} DrainAlternates(queue: seq<string>, k: nat, saveOk: nat -> bool, bundleOk: nat -> bool)
    ensures var d := Drain(queue, k, saveOk, bundleOk);
      && Alternating(d.events)
      && IsPrefix(StartedDeps(d.events), queue)
      && (d.completed ==> StartedDeps(d.events) == queue)
    decreases |queue|
  {
    if queue != [] {
      var d := Drain(queue, k, saveOk, bundleOk);
      var dep := queue[0];
      if saveOk(k) && !bundleOk(k) {
        assert StartedDeps(d.events) == [dep] + StartedDeps([]);
        PrefixCons(StartedDeps([]), queue);
      } else {
        var rest := Drain(queue[1..], k + 1, saveOk, bundleOk);
        DrainAlternates(queue[1..], k + 1, saveOk, bundleOk);
        SettledCons(d.events[1], rest.events);
        PrefixCons(StartedDeps(rest.events), queue);
      }
    }
  }

  /** A start settled at once, put in front, keeps the callbacks alternating and starts one more package. */
  lemma SettledCons(settle: Event, rest: seq<Event>)
    requires !settle.Started?
    ensures var es := [Started(settle.dep), settle] + rest;
      && Alternating(es) == Alternating(rest)
      && StartedDeps(es) == [settle.dep] + StartedDeps(rest)
  {
    var es := [Started(settle.dep), settle] + rest;
    assert es[2..] == rest;
    assert es[1..][1..] == rest;
  }

  /** A prefix of the queue's tail, behind the queue's head, is a prefix of the queue. */
  lemma PrefixCons<T>(a: seq<T>, q: seq<T>)
    requires q != [] && IsPrefix(a, q[1..])
    ensures IsPrefix([q[0]] + a, q)
    ensures a == q[1..] ==> [q[0]] + a == q
  {
    assert q == [q[0]] + q[1..];
  }

  /** The drain reaches `done` exactly when no saved package's bundle fails. */
  lemma {:induction false} DrainCompletes(queue: seq<string>, k: nat, saveOk: nat -> bool, bundleOk: nat -> bool)
    ensures Drain(queue, k, saveOk, bundleOk).completed <==>
      forall j | k <= j < k + |queue| :: saveOk(j) ==> bundleOk(j)
    decreases |queue|
  {
    if queue != [] {
      DrainCompletes(queue[1..], k + 1, saveOk, bundleOk);
    }
  }

  /** The packages reported as finished, in order. */
  function Successes(events: seq<Event>): seq<string> {
    if events == [] then []
    else (if events[0].Finished? then [events[0].dep] else []) + Successes(events[1..])
  }

  /** Only successes are pushed onto `installed`: on completion it lists the finished packages. */
  lemma {:induction false} InstalledAreSuccesses(queue: seq<string>, k: nat, saveOk: nat -> bool, bundleOk: nat -> bool)
    ensures var d := Drain(queue, k, saveOk, bundleOk);
      d.completed ==> d.installed == Successes(d.events)
    decreases |queue|
  {
    if queue != [] {
      var dep := queue[0];
      var rest := Drain(queue[1..], k + 1, saveOk, bundleOk);
      InstalledAreSuccesses(queue[1..], k + 1, saveOk, bundleOk);
      if !saveOk(k) {
        var events := [Started(dep), Failed(dep, SaveFailure(dep))] + rest.events;
        assert events[1..] == [Failed(dep, SaveFailure(dep))] + rest.events;
        assert events[1..][1..] == rest.events;
      } else if bundleOk(k) {
        var events := [Started(dep), Finished(dep)] + rest.events;
        assert events[1..] == [Finished(dep)] + rest.events;
        assert events[1..][1..] == rest.events;
      }
    }
  }

  /**
   * The drain as written: the error handler passes the unbound name `error`,
   * so a failed save throws a `ReferenceError` inside the handler, before
   * `onPackageError` or `next` runs, and the drain stops there.
   */
  function DrainAsWritten(queue: seq<string>, k: nat, saveOk: nat -> bool, bundleOk: nat -> bool): (d: Drained)
    ensures |d.events| <= 2 * |queue|
    decreases |queue|
  {
    if queue == [] then Drained([], [], true)
    else
      var dep := queue[0];
      if !saveOk(k) then Drained([Started(dep)], [], false)
      else if !bundleOk(k) then Drained([Started(dep)], [dep], false)
      else
        var rest := DrainAsWritten(queue[1..], k + 1, saveOk, bundleOk);
        Drained([Started(dep), Finished(dep)] + rest.events, [dep] + rest.installed, rest.completed)
  }

  /**
   * With two new packages whose first save fails, the code as written never
   * reports the error, never starts the second install and never records the
   * file's imports; the intended drain does all three.
   */
  lemma SaveFailureHaltsAsWritten()
    ensures var saveOk := (i: nat) => i != 0;
      var bundleOk := (i: nat) => true;
      && DrainAsWritten(["a", "b"], 0, saveOk, bundleOk) == Drained([Started("a")], [], false)
      && Drain(["a", "b"], 0, saveOk, bundleOk)
         == Drained([Started("a"), Failed("a", SaveFailure("a")), Started("b"), Finished("b")], ["b"], true)
  {
    var saveOk := (i: nat) => i != 0;
    var bundleOk := (i: nat) => true;
    assert ["a", "b"][1..] == ["b"];
    assert ["b"][1..] == [];
    assert Drain(["b"], 1, saveOk, bundleOk) == Drained([Started("b"), Finished("b")], ["b"], true);
  }

  /** A drain that continues after the callbacks `events` and the installs `installed`. */
  function After(events: seq<Event>, installed: seq<string>, d: Drained): Drained {
    Drained(events + d.events, installed + d.installed, d.completed)
  }

  /** One step of the drain, seen from the middle of a run. */
  lemma DrainStep(events: seq<Event>, installed: seq<string>, queue: seq<string>, k: nat,
                  saveOk: nat -> bool, bundleOk: nat -> bool)
    requires queue != []
    ensures var dep := queue[0];
      var here := After(events, installed, Drain(queue, k, saveOk, bundleOk));
      var next := Drain(queue[1..], k + 1, saveOk, bundleOk);
      && (!saveOk(k) ==> here == After(events + [Started(dep), Failed(dep, SaveFailure(dep))], installed, next))
      && (saveOk(k) && !bundleOk(k) ==> here == Drained(events + [Started(dep)], installed + [dep], false))
      && (saveOk(k) && bundleOk(k) ==> here == After(events + [Started(dep), Finished(dep)], installed + [dep], next))
  {
    var dep := queue[0];
    var next := Drain(queue[1..], k + 1, saveOk, bundleOk);
    if !saveOk(k) {
      assert events + ([Started(dep), Failed(dep, SaveFailure(dep))] + next.events)
          == (events + [Started(dep), Failed(dep, SaveFailure(dep))]) + next.events;
    } else if bundleOk(k) {
      assert events + ([Started(dep), Finished(dep)] + next.events)
          == (events + [Started(dep), Finished(dep)]) + next.events;
      assert installed + ([dep] + next.installed) == (installed + [dep]) + next.installed;
    } else {
      assert Drain(queue, k, saveOk, bundleOk).installed == [dep];
    }
  }

  /** The per-file import records kept by the runner's cache. */
  class ImportCache {
    var imports: map<string, seq<string>>

    constructor ()
      ensures imports == map[]
    {
      imports := map[];
    }

    /** `cache.setImports(file, deps)`. */
    method SetImports(file: string, deps: seq<string>)
      modifies this
      ensures imports == old(imports)[file := deps]
    {
      imports := imports[file := deps];
    }
  }

  /**
   * `scanFile(file, source, opts)`: `all` is the result of
   * `cache.getImports()`. Returns the callbacks made; the file's imports are
   * recorded only when the drain completes, and nothing at all happens when
   * no required name is new. The drain is the intended one: a failed save is
   * reported and the next package is installed, where the code as written
   * stops (`DrainAsWritten`).
   */
  method ScanFile(cache: ImportCache, file: string, source: string, all: seq<string>,
                  saveOk: nat -> bool, bundleOk: nat -> bool)
    returns (events: seq<Event>)
    modifies cache
    ensures var found := RequireScan.FindRequires(source);
      var freshNames := Fresh(found, all);
      var d := Drain(freshNames, 0, saveOk, bundleOk);
      && events == d.events
      && cache.imports == if freshNames != [] && d.completed
                          then old(cache.imports)[file := d.installed + Already(found, all)]
                          else old(cache.imports)
  {
    var found := RequireScan.GetMatches(source);
    var freshNames := Fresh(found, all);
    if |freshNames| == 0 {
      return [];
    }
    var already := Already(found, all);
    var installed, completed;
    events, installed, completed := InstallAll(freshNames, saveOk, bundleOk);
    if completed {
      cache.SetImports(file, installed + already);
    }
  }

  /**
   * `installNext` over the fresh names: each package is saved, then
   * bundled, and the next one starts only once that has settled. Returns the
   * callbacks made, the packages installed, and whether `done` was reached.
   */
  method InstallAll(queue: seq<string>, saveOk: nat -> bool, bundleOk: nat -> bool)
    returns (events: seq<Event>, installed: seq<string>, completed: bool)
    ensures Drained(events, installed, completed) == Drain(queue, 0, saveOk, bundleOk)
  {
    installed := [];
    var installing := queue;
    var k := 0;
    var stalled := false;
    events := [];
    while |installing| > 0 && !stalled
      invariant k + |installing| == |queue| && installing == queue[k..]
      invariant !stalled ==> Drain(queue, 0, saveOk, bundleOk) == After(events, installed, Drain(installing, k, saveOk, bundleOk))
      invariant stalled ==> Drain(queue, 0, saveOk, bundleOk) == Drained(events, installed, false)
      decreases |installing|
    {
      var dep := installing[0];
      DrainStep(events, installed, installing, k, saveOk, bundleOk);
      assert installing[1..] == queue[k + 1..];
      installing := installing[1..];
      if !saveOk(k) {
        events := events + [Started(dep), Failed(dep, SaveFailure(dep))];
      } else if !bundleOk(k) {
        events := events + [Started(dep)];
        installed := installed + [dep];
        stalled := true;
      } else {
        events := events + [Started(dep), Finished(dep)];
        installed := installed + [dep];
      }
      k := k + 1;
    }
    assert !stalled ==> installing == [] && Drain(installing, k, saveOk, bundleOk) == Drained([], [], true);
    assert !stalled ==> events + [] == events && installed + [] == installed;
    completed := !stalled;
  }

  /** `depRequireString(name)`: the loader line that exposes one package. */
  function DepRequireString(name: string): string {
    "window.__flintPackages[\"" + name + "\"] = require(\"" + name + "\");"
  }

  const LinePrefix: string := "window.__flintPackages[\""
  const LineMiddle: string := "\"] = require(\""
  const LineSuffix: string := "\");"

  /** Reads the package name back out of a loader line. */
  function LineName(line: string): string {
    var fixed := |LinePrefix| + |LineMiddle| + |LineSuffix|;
    if |line| < fixed then [] else line[|LinePrefix|..|LinePrefix| + (|line| - fixed) / 2]
  }

  /** The loader line determines its package: reading it back gives the name. */
  lemma LineNameRoundTrip(name: string)
    ensures LineName(DepRequireString(name)) == name
  {
    var line := DepRequireString(name);
    assert line == LinePrefix + name + LineMiddle + name + LineSuffix;
    assert |line| == |LinePrefix| + 2 * |name| + |LineMiddle| + |LineSuffix|;
    assert line[|LinePrefix|..|LinePrefix| + |name|] == name;
  }

  function Lines(deps: seq<string>): (r: seq<string>)
    ensures |r| == |deps| && forall i | 0 <= i < |deps| :: r[i] == DepRequireString(deps[i])
  {
    if deps == [] then [] else [DepRequireString(deps[0])] + Lines(deps[1..])
  }

  /** `deps.map(depRequireString).join("\n")`: the text written to `deps.js`. */
  function LoaderText(deps: seq<string>): string {
    Join(Lines(deps), '\n')
  }

  lemma {:induction false} NoNewlineInLine(name: string)
    requires '\n' !in name
    ensures '\n' !in DepRequireString(name)
  {
    assert DepRequireString(name) == LinePrefix + name + LineMiddle + name + LineSuffix;
  }

  /**
   * The loader text has one line per package, in order: splitting it on
   * newlines and reading each line back gives the packages.
   */
  lemma LoaderTextRoundTrip(deps: seq<string>)
    requires |deps| > 0 && forall i | 0 <= i < |deps| :: '\n' !in deps[i]
    ensures var lines := Split(LoaderText(deps), '\n');
      |lines| == |deps| && forall i | 0 <= i < |deps| :: lines[i] == DepRequireString(deps[i]) && LineName(lines[i]) == deps[i]
  {
    var lines := Lines(deps);
    forall k | 0 <= k < |lines|
      ensures '\n' !in lines[k]
    {
      NoNewlineInLine(deps[k]);
    }
    SplitJoin(lines, '\n');
    forall i | 0 <= i < |deps|
      ensures LineName(lines[i]) == deps[i]
    {
      LineNameRoundTrip(deps[i]);
    }
  }

  /** `deps.filter(p => ['flint-js', 'react'].indexOf(p) < 0)`: the packages `bundle` writes out. */
  function BundleNames(deps: seq<string>): (r: seq<string>)
    ensures forall x | x in r :: x in deps && x != "flint-js" && x != "react"
  {
    if deps == [] then []
    else (if deps[0] != "flint-js" && deps[0] != "react" then [deps[0]] else []) + BundleNames(deps[1..])
  }

  /**
   * The bundle list is the package list without `flint-js` and `react`: every
   * other package keeps all its occurrences.
   */
  lemma {:induction false} BundleNamesExact(deps: seq<string>)
    ensures forall x | x != "flint-js" && x != "react" :: multiset(BundleNames(deps))[x] == multiset(deps)[x]
    decreases |deps|
  {
    if deps != [] {
      BundleNamesExact(deps[1..]);
      assert deps == [deps[0]] + deps[1..];
    }
  }

  /** Filtering distributes over concatenation, so the bundle list keeps the packages' order. */
  lemma {:induction false} BundleNamesConcat(deps: seq<string>, more: seq<string>)
    ensures BundleNames(deps + more) == BundleNames(deps) + BundleNames(more)
    decreases |deps|
  {
    if deps == [] {
      assert deps + more == more;
    } else {
      var head := if deps[0] != "flint-js" && deps[0] != "react" then [deps[0]] else [];
      BundleNamesConcat(deps[1..], more);
      assert (deps + more)[0] == deps[0];
      assert (deps + more)[1..] == deps[1..] + more;
      assert BundleNames(deps + more) == head + BundleNames(deps[1..] + more);
      assert BundleNames(deps) == head + BundleNames(deps[1..]);
    }
  }
}
