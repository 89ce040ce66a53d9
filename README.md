# Flint live reload and dependency runner: a Dafny model

This project models the core of Flint's development loop in Dafny, in three parts.

- **Hot swapping in the browser** (`packages/flint.js/src/tools/messages.js`):
  - the per-name single-flight loader `TagLoader`;
  - the replacement of a script or stylesheet element (`replaceTag`, `cloneNode`, `getParent`);
  - the detach-with-retries-then-sweep removal (`removeTag`);
  - the `renderFlint` poller;
  - the URL transforms `removeBase`, `removeTime` and `replaceTime`.
- **Dependency scanning in the runner** (`packages/runner/src/npm/index.js`):
  - the `require("…")` scanner (`findRequires`/`getMatches`);
  - `scanFile`, which drains the queue of new packages one at a time and records a file's imports;
  - the text of the generated loader (`depRequireString` joined by `writeDeps`);
  - the package filter of `bundle`.
- **Script pipeline bookkeeping** (`packages/runner/src/gulp.js`):
  - the write decision `checkWriteable` and its per-path timestamps;
  - the announced script name `setLastFile`, which reads only the build mode;
  - `resetLastFile` and `catchError`, which set the flags `checkWriteable` reads;
  - the first-build gate `buildFinishedCheck`, `afterFirstBuild` and `runAfterFirstBuilds`.

State the source changes in place is modelled as classes: `TagLoader`, `Page`/`Element`/`Race`, `Renderer`, `ImportCache`, `FirstBuild`, `Vinyl` and `Writer`.

- Some methods tie their new state to a pure step function: `TagLoader.Load` and `TagLoader.OnDone` (`Request`, `Done`), `Renderer.RenderFlint` (`Poll`), `FirstBuild.BuildFinishedCheck`, `TimerFires` and `AfterFirstBuild` (`Step`), and `Writer.CheckWriteable` (`Decide`). Lemmas over those functions, or over traces of them, state what the code promises.
- The other methods state their effect on the fields directly: those of `Page`, `Race`, `ImportCache` and `FirstBuild.RunAfterFirstBuilds`, and `Writer.ResetLastFile`, `CatchError` and `SetLastFile`. Their contracts say what is detached, blanked or recorded, and what every other field keeps.
- Loops that compute a value (the `exec` loop of `getMatches`, the `installNext` chain, the attribute copy of `cloneNode`) are methods proved equal to a reference function.

Regular expressions are written out as scanners. Each scanner is tied by lemmas to a predicate saying what the pattern matches.

Files:

- `wrappers.dfy`: the Option type.
- `strings.dfy`: decimal formatting, and join/split.
- `urls.dfy`: the URL transforms.
- `tag_loader.dfy`: the single-flight loader.
- `swapping.dfy`: element replacement and removal.
- `render.dfy`: the `renderFlint` poller.
- `require_scan.dfy`: the `require(…)` scanner.
- `installer.dfy`: `scanFile`, the loader text and the bundle filter.
- `gulp_write.dfy`: the write decision, script name and first-build gate.

The model follows the code, with one exception: the save-failure handler of `scanFile` passes an unbound name (see Findings). `Installer.ScanFile` uses the intended handler, and `Installer.DrainAsWritten` models the code.

Behaviour of the code worth noting:

- The sweep in `removeTag` keeps the last **three** similar elements, where its comment (messages.js:164) speaks of the last couple. The loop runs to `length - (leftover + 1)` with `leftover = 2`.
- The sweep starts only after **five** failed detach tries, with counters 0 to 4, because it waits for `attempts > 3`.
- A `renderFlint` chain makes at most **twelve** calls before it gives up, eleven of them self-scheduled retries, because the counter must pass 10.
- A coalesced follow-up re-invokes the **first** caller's `load`, the one whose flight is running, with the element just reported. The `load` functions of later callers are dropped: the follow-up does not use the latest request's closure. `TagLoading.CoalescedFollowUp` proves this.
- `scanFile` runs `bundle()` after every successful save (index.js:131-134), one bundle per installed package.
- A failing `bundle()` logs the error and never settles its promise (index.js:72-81), so the queue stalls there.
- `removeTime` is not idempotent: only the last `?<digits>` is removed. `Urls.RemoveTimeNotIdempotent` exhibits this.

## Model

| member | source | states |
|---|---|---|
| Urls.RemoveTime | packages/flint.js/src/tools/messages.js:247-249 | a trailing `?<digits>` is cut exactly where the pattern matches; a string without one is returned unchanged |
| Urls.ReplaceTime | packages/flint.js/src/tools/messages.js:251-253 | the locator without its stamp, then `?` and the decimal time; `ReplaceThenRemove` and `ReplaceTwice` prove what it keeps |
| Urls.ReplaceThenRemove | packages/flint.js/src/tools/messages.js:251-253 | removing the stamp of a re-stamped locator gives the original without its stamp, and the new stamp is a pattern match |
| Urls.ReplaceTwice | packages/flint.js/src/tools/messages.js:251-253 | re-stamping twice equals re-stamping once with the later time, so stamps never accumulate |
| Urls.TimeSuffixUnique | packages/flint.js/src/tools/messages.js:247-249 | a string has at most one place where the anchored `?<digits>` pattern matches, just before its trailing digits |
| Urls.RemoveTimeNotIdempotent | packages/flint.js/src/tools/messages.js:247-249 | `a?1?2` loses one stamp per call, so the transform is not idempotent |
| Urls.RemoveTimeIdempotent | packages/flint.js/src/tools/messages.js:247-249 | on a locator with at most one `?`, removing the stamp twice equals removing it once |
| Urls.RemoveBase | packages/flint.js/src/tools/messages.js:243-245 | a leading `http://host` is dropped and the rest is empty or starts with `/`; any other input is unchanged |
| Urls.RemoveBaseIdempotent | packages/flint.js/src/tools/messages.js:243-245 | stripping the origin twice equals stripping it once |
| Urls.Canonical | packages/flint.js/src/tools/messages.js:90-94 | the selector prefix: the locator without its origin and stamp; `StampedMatchesCanonical` proves a re-stamped clone keeps it |
| Urls.StampedMatchesCanonical | packages/flint.js/src/tools/messages.js:90-96 | the selector prefix built from a relative locator still selects the re-stamped clone, and both have the same prefix |
| Strings.DecimalRoundTrip | packages/flint.js/src/tools/messages.js:252 | the decimal text of the time stamp parses back to the same number |
| TagLoading.Request | packages/flint.js/src/tools/messages.js:54-66 | `file:load` is sent; while loading, only `wait[name]` is set and nothing is invoked; otherwise `load` is invoked with the previous element and `loading[name]` is set; other names are untouched |
| TagLoading.Done | packages/flint.js/src/tools/messages.js:68-77 | `file:done` is sent and the new element is recorded; the flight's own `load` is re-invoked with that element exactly when `wait` was set; both flags end false |
| TagLoading.DoneGuarded | packages/flint.js/src/tools/messages.js:68-77 | the same `onDone`, except that `loading` stays set exactly while the follow-up runs |
| TagLoading.CallsWhileLoadingCollapse | packages/flint.js/src/tools/messages.js:59-62 | any number of calls during a load invoke nothing and leave a single pending follow-up |
| TagLoading.RequestsThen | packages/flint.js/src/tools/messages.js:59-62 | calls during a load can be split off a longer event sequence: the events after them see only the state they leave |
| TagLoading.CoalescedFollowUp | packages/flint.js/src/tools/messages.js:54-77 | a load, one or more further calls, then the report: exactly two invocations, both of the first caller's closure, the second given the reported element |
| TagLoading.AsWrittenOverlaps | packages/flint.js/src/tools/messages.js:68-77 | a call during the follow-up starts a second concurrent load for the same name |
| TagLoading.GuardedKeepsSingleFlight | packages/flint.js/src/tools/messages.js:54-77 | with the follow-up counted as a flight, no event sequence ever runs two loads for one name |
| TagLoading.TagLoader.Load | packages/flint.js/src/tools/messages.js:54-66 | the loader's call updates its dictionaries and socket log as `Request` says |
| TagLoading.TagLoader.OnDone | packages/flint.js/src/tools/messages.js:68-77 | `onDone` updates the loader as `Done` says, the code as written: `loading[name]` stays clear while the follow-up runs |
| Swapping.GetAttribute | packages/flint.js/src/tools/messages.js:283 | null exactly when no attribute has that name |
| Swapping.SetAttribute | packages/flint.js/src/tools/messages.js:280-283 | the name reads back the new value |
| Swapping.SetAttributeKeeps | packages/flint.js/src/tools/messages.js:280-283 | every other name reads back as before, and distinct names stay distinct |
| Swapping.SetNewAttributeAppends | packages/flint.js/src/tools/messages.js:280 | a new attribute is appended after the existing ones |
| Swapping.WithoutAttr | packages/flint.js/src/tools/messages.js:277-280 | the name is absent and all other names are unchanged |
| Swapping.ClonedAttrs | packages/flint.js/src/tools/messages.js:268-286 | none exactly when the node lacks `attr`; otherwise `attr` is re-stamped, a script clone drops `src`, and every other attribute is kept |
| Swapping.CopyStep | packages/flint.js/src/tools/messages.js:277-280 | one turn of the copy loop: `src` is skipped, any other attribute is set on the clone |
| Swapping.CopyScriptAttributes | packages/flint.js/src/tools/messages.js:277-280 | the copy loop yields the attributes without `src`, in order |
| Swapping.CloneNode | packages/flint.js/src/tools/messages.js:268-286 | a fresh element with the cloned attributes, or null where the source throws |
| Swapping.Without | packages/flint.js/src/tools/messages.js:156 | a detach removes exactly that element from its container |
| Swapping.SubTrans | packages/flint.js/src/tools/messages.js:165-181 | a subsequence of a subsequence is a subsequence, so the order the containers keep survives every turn of the sweep |
| Swapping.SubKeepingAll | packages/flint.js/src/tools/messages.js:156 | a subsequence of a container that keeps all its elements is the container itself |
| Swapping.SubAllBut | packages/flint.js/src/tools/messages.js:156 | a subsequence of a container that keeps every element but one is the container without it, or the container itself |
| Swapping.Page.DetachedNothing | packages/flint.js/src/tools/messages.js:161-181 | when nothing may be detached, both containers are exactly as they were |
| Swapping.Page.DetachedOne | packages/flint.js/src/tools/messages.js:167-180 | when only one element may be detached, each container is as it was or without that element |
| Swapping.Selects | packages/flint.js/src/tools/messages.js:90-94 | the `script[src^=p]`/`link[href^=p]` test on one element; `Matching` applies it in document order |
| Swapping.Matching | packages/flint.js/src/tools/messages.js:90-96 | exactly the elements the `src^=`/`href^=` selector picks, in order |
| Swapping.SweepPrefix | packages/flint.js/src/tools/messages.js:165-167 | all but the last three elements |
| Swapping.Chain | packages/flint.js/src/tools/messages.js:154-188 | the retry chain of `removeTag` for given per-counter detach results; `ChainEnds` proves where it stops |
| Swapping.ChainEnds | packages/flint.js/src/tools/messages.js:154-190 | the retry chain always ends; every try but the last fails; it sweeps exactly when the try with counter `max(attempts, 4)` fails |
| Swapping.SweepAfterFiveFailures | packages/flint.js/src/tools/messages.js:160-188 | from counter 0, the sweep runs exactly when all five tries (0 to 4) fail |
| Swapping.FinishRunsOnce | packages/flint.js/src/tools/messages.js:136-151 | among `onload`, `onerror` and the timeout, only the first runs the finish action |
| Swapping.Finishes | packages/flint.js/src/tools/messages.js:136-151 | the signals that find the guard open, in arrival order; `FinishRunsOnce` proves this is at most the first |
| Swapping.Race.AfterFinish | packages/flint.js/src/tools/messages.js:136-138 | fires exactly when the guard was open, and closes it; its effect is one step of `Finishes` |
| Swapping.Page.GetParent | packages/flint.js/src/tools/messages.js:123-127 | an attached element's own container; a detached script goes to the body, any other detached element to the head |
| Swapping.Page.Similar | packages/flint.js/src/tools/messages.js:162 | the similar elements of the page, head first, with no element repeated |
| Swapping.Page.SweepTargets | packages/flint.js/src/tools/messages.js:161-162 | the elements the sweep enumerates: page elements, none twice (see Left out for the URL resolution) |
| Swapping.Page.RemoveChild | packages/flint.js/src/tools/messages.js:156 | succeeds exactly when the element is a child of that container and is not refused; on success only that element is detached, the container keeps the rest in order, and the other container is unchanged |
| Swapping.Page.AppendChild | packages/flint.js/src/tools/messages.js:148 | the element is appended to the container and the other container is unchanged |
| Swapping.Page.SweepOne | packages/flint.js/src/tools/messages.js:167-180 | one turn of the sweep: the element is detached or its `src`/`href` blanked; no other attribute changes; after a successful first detach its attributes are intact; no other element changes container, and each container keeps the order of what it keeps (`DetachedOne`: it loses at most that element) |
| Swapping.Page.Sweep | packages/flint.js/src/tools/messages.js:161-181 | each element but the last three takes its turn as `SweepOne` says, in order; the last three keep their attributes and containers; no element outside the swept ones changes its attributes or leaves its container, nothing is attached, and each container keeps the order of the elements left in it |
| Swapping.Page.SweepSimilar | packages/flint.js/src/tools/messages.js:161-183 | the sweep over the elements similar to the tag, with the per-element outcome of `Sweep`; every page element outside the swept ones keeps its attributes and its container, and the containers keep the order of what is left |
| Swapping.Page.DetachTries | packages/flint.js/src/tools/messages.js:154-188 | the detach tries follow the retry chain; a successful try removes only the tag from its container, which keeps its other elements in order, and leaves the other container as it was; when the chain ends in a sweep, the page is unchanged |
| Swapping.Page.RemoveTag | packages/flint.js/src/tools/messages.js:154-190 | the detach tries, then, if they all fail, the sweep: the outcome follows the retry chain; a successful detach removes only the tag from its container, keeps the rest in order, leaves the other container as it was and changes no attribute; a sweep retires all but the last three similar elements, each as `SweepOne` says, detaches nothing else, keeps the order of what is left and changes no other attribute |
| Swapping.Page.ReplaceTag | packages/flint.js/src/tools/messages.js:129-152 | nothing happens for a null tag or a missing attribute; otherwise the clone is appended to the tag's container and a race is armed |
| Swapping.Page.Signal | packages/flint.js/src/tools/messages.js:136-144 | the guard ends closed; the first signal runs `removeTag` from counter 0 with its outcome and effects, including the containers and attributes it keeps, then hands the clone to `after`; every later signal changes no container and no attribute |
| Render.Poll | packages/flint.js/src/tools/messages.js:227-241 | gives up exactly when the counter exceeds 10 and renders exactly when it does not and `Flint` exists; a retry raises the counter by one, and any other outcome resets it |
| Render.Chain | packages/flint.js/src/tools/messages.js:225-241 | the calls a `renderFlint` chain makes, given when `Flint` exists; `ChainEnds` bounds it |
| Render.ChainEnds | packages/flint.js/src/tools/messages.js:225-241 | a poll chain makes at most `12 - attempts` calls, all but the last are retries, and it ends given enough calls |
| Render.GivesUpOnTwelfthCall | packages/flint.js/src/tools/messages.js:228-240 | if `Flint` never appears, the chain retries 11 times and gives up on the 12th call |
| Render.RendersWhenFound | packages/flint.js/src/tools/messages.js:233-240 | if `Flint` first appears at call j (j ≤ 10), the chain renders there |
| Render.Renderer.RenderFlint | packages/flint.js/src/tools/messages.js:225-241 | the call's action and counter update are those of `Poll` |
| RequireScan.WordAtIsSlice | packages/runner/src/npm/index.js:102 | the literal `require(` is matched exactly where that slice of the source equals it |
| RequireScan.SkipSpacesMaximal | packages/runner/src/npm/index.js:102 | `\s*` takes the longest run of whitespace |
| RequireScan.SkipNameMaximal | packages/runner/src/npm/index.js:102 | `[^'"]+` takes everything up to the next quote |
| RequireScan.MatchAt | packages/runner/src/npm/index.js:102 | a match at p has a nonempty name group that ends before the end of the match |
| RequireScan.MatchAtComplete | packages/runner/src/npm/index.js:102 | every text of the pattern's shape at p is matched, with those bounds |
| RequireScan.MatchAtSound | packages/runner/src/npm/index.js:102 | every match has the pattern's shape |
| RequireScan.NextMatch | packages/runner/src/npm/index.js:190 | `exec` with `lastIndex` finds the leftmost match at or after it, or there is none |
| RequireScan.FindAllSpans | packages/runner/src/npm/index.js:186-194 | the matches come in order, each starting at the end of the previous one, with none skipped |
| RequireScan.SpansReported | packages/runner/src/npm/index.js:186-194 | every span of an ordered match list is a real match of the pattern |
| RequireScan.NoMatchSkipped | packages/runner/src/npm/index.js:186-194 | every match position past the start is inside or after a reported match |
| RequireScan.FindRequires | packages/runner/src/npm/index.js:101-102 | group 1 of every match, in order; `FoundNamesWellFormed` and `GetMatches` are its properties |
| RequireScan.FoundNamesWellFormed | packages/runner/src/npm/index.js:101-102 | every found name is nonempty and contains no quote |
| RequireScan.NamesStep | packages/runner/src/npm/index.js:186-194 | one `exec`: the names from a position on are the next match's group 1, then the names after that match |
| RequireScan.GetMatches | packages/runner/src/npm/index.js:186-194 | the `exec` loop returns exactly the names of `FindRequires` |
| Installer.Fresh | packages/runner/src/npm/index.js:111 | only names from `found` that are not yet known |
| Installer.Already | packages/runner/src/npm/index.js:119 | only names from `found` that are known |
| Installer.FreshAlreadyPartition | packages/runner/src/npm/index.js:111-119 | every occurrence goes to exactly one of the two lists, according to whether it is known |
| Installer.Drain | packages/runner/src/npm/index.js:121-154 | at most two callbacks per package; the drain completes exactly when every package received both |
| Installer.DrainAlternates | packages/runner/src/npm/index.js:125-148 | each start is followed by one finish or error for the same package; the started packages are a prefix of the queue, and all of it on completion |
| Installer.DrainCompletes | packages/runner/src/npm/index.js:145-152 | `done` runs exactly when every package saved is also bundled |
| Installer.InstalledAreSuccesses | packages/runner/src/npm/index.js:133-152 | on completion, `installed` is the list of finished packages |
| Installer.DrainAsWritten | packages/runner/src/npm/index.js:137-141 | the handler as written: a failed save stops the drain |
| Installer.SaveFailureHaltsAsWritten | packages/runner/src/npm/index.js:139 | after a failed first save, the code as written reports nothing, installs nothing more and records nothing; the corrected drain goes on |
| Installer.DrainStep | packages/runner/src/npm/index.js:125-148 | one `installNext` step seen from the middle of a drain |
| Installer.InstallAll | packages/runner/src/npm/index.js:121-148 | the `installNext`/`next` loop makes exactly the callbacks and installs of the drain, and reports whether `done` was reached |
| Installer.ImportCache.SetImports | packages/runner/src/npm/index.js:152 | the file's import record is replaced |
| Installer.ScanFile | packages/runner/src/npm/index.js:107-157 | the callbacks are those of the intended drain of the fresh names; the imports are recorded as installed plus known exactly when there were fresh names and the drain completed |
| Installer.DepRequireString | packages/runner/src/npm/index.js:58 | the loader line of one package; `LineNameRoundTrip` reads the name back |
| Installer.LineNameRoundTrip | packages/runner/src/npm/index.js:58 | the package name can be read back from its loader line |
| Installer.Lines | packages/runner/src/npm/index.js:61 | one loader line per package, in order |
| Installer.LoaderText | packages/runner/src/npm/index.js:61 | the loader lines joined by newlines; `LoaderTextRoundTrip` splits them back |
| Installer.LoaderTextRoundTrip | packages/runner/src/npm/index.js:58-61 | splitting the loader text on newlines gives one line per package, each naming its package |
| Installer.BundleNames | packages/runner/src/npm/index.js:75 | only packages other than `flint-js` and `react` |
| Installer.BundleNamesExact | packages/runner/src/npm/index.js:75 | every other package keeps all its occurrences |
| Installer.BundleNamesConcat | packages/runner/src/npm/index.js:75 | the filter distributes over concatenation, so order is kept |
| GulpWrite.IsSourceMap | packages/runner/src/gulp.js:162 | the `slice(-3)` test; `SourceMapSuffix` proves it means "ends in `map`" |
| GulpWrite.SourceMapSuffix | packages/runner/src/gulp.js:162 | the three-character slice test holds exactly for paths ending in `map` |
| GulpWrite.IndexOf | packages/runner/src/gulp.js:150 | the first occurrence at or after the start, or none |
| GulpWrite.RemoveFirst | packages/runner/src/gulp.js:150 | the first occurrence is removed, if there is one |
| GulpWrite.ScriptName | packages/runner/src/gulp.js:150-151 | the name always starts with `/` |
| GulpWrite.ScriptNameOfAppFile | packages/runner/src/gulp.js:150-151 | a file under the app directory is named by its path relative to it, rooted at `/` |
| GulpWrite.Decide | packages/runner/src/gulp.js:159-189 | internal files never, source maps always, other files never after an error or with a user stream, always in build mode, otherwise exactly when new; the stamp changes only on a watched write |
| GulpWrite.StampsNeverDecrease | packages/runner/src/gulp.js:178-186 | stored stamps never decrease and no path is ever forgotten |
| GulpWrite.StaleNeverWritten | packages/runner/src/gulp.js:178-189 | after a watched write, a compile of the same path that started no later is rejected |
| GulpWrite.NewerIsWritten | packages/runner/src/gulp.js:178-186 | a compile that started after the last written one of its path is written |
| GulpWrite.Step | packages/runner/src/gulp.js:230-272 | one event of the first-build gate: a check, the timer, or a waiter; `GateTrace` states what traces of it do |
| GulpWrite.GateTrace | packages/runner/src/gulp.js:229-272 | the first build is over exactly when a timer set by a check has fired; afterwards every waiter is resolved once, in call order, and none before |
| GulpWrite.LateWaiterResolvedAtOnce | packages/runner/src/gulp.js:265-268 | a waiter that arrives after the first build is resolved at once |
| GulpWrite.FirstBuild.BuildFinishedCheck | packages/runner/src/gulp.js:230-240 | starts the timer only before the first build |
| GulpWrite.FirstBuild.TimerFires | packages/runner/src/gulp.js:234-239 | a pending timer marks the first build done and releases the waiters |
| GulpWrite.FirstBuild.RunAfterFirstBuilds | packages/runner/src/gulp.js:271-272 | every queued waiter is resolved, in queue order |
| GulpWrite.FirstBuild.AfterFirstBuild | packages/runner/src/gulp.js:265-269 | resolves at once after the first build, and queues otherwise |
| GulpWrite.Writer.ResetLastFile | packages/runner/src/gulp.js:130-135 | clears the error flag and the last script, and stamps the file's start time |
| GulpWrite.Writer.CatchError | packages/runner/src/gulp.js:137-146 | sets the error flag and counts as a build check |
| GulpWrite.Writer.SetLastFile | packages/runner/src/gulp.js:148-154 | outside build mode, records the script under its rooted name; in build mode, changes nothing |
| GulpWrite.Writer.CheckWriteable | packages/runner/src/gulp.js:156-190 | a build check, then the write decision and stamp update of `Decide`; sets `isSourceMap` on a non-internal file |

## Left out

- Real DOM calls (`querySelector`, `createElement`, `appendChild`, `removeChild`) are not modelled. The page is two containers of element objects. A failure the browser might raise is an oracle argument (`refuse`, `sweepRefuse`).
- Timers (`setTimeout` of 2, 4, 30, 50, 200 and 450 ms) are not modelled as time. The signal that ends a race, a `renderFlint` retry and the first-build timer are each a method call or a trace event. `Date.now()` is a parameter.
- Installer.ScanFile: models the intended save-failure handler, which reports the rejection and goes on with the next package. The code as written throws a `ReferenceError` in that handler and stops the drain; `Installer.DrainAsWritten` and `Installer.SaveFailureHaltsAsWritten` model that.
- Swapping.Page.DetachTries and Installer.ScanFile run as atomic chains. The 30 ms detach retries, and the awaited save and bundle of every package, run within one call. Nothing interleaves between two tries or two installs. That includes two concurrent `scanFile` drains, which the code does not serialise.
- Swapping.Page.SweepTargets: reads `tag.src`/`tag.href` as the attribute text, while the browser's property is the resolved absolute URL. The model assumes pages served over http with root-relative locators, where `removeBase` gives the attribute back. Other origins, protocols and relative locators are not modelled.
- The socket transport, logging and console output are left out. The `file:load`/`file:done` sends are recorded as notices.
- `npm install --save`, `bundle`, `webpack`, `exec`, and the file reads and writes are not run. Whether the k-th save or bundle succeeds is an oracle argument. The JSON file written by `writeDeps` is not modelled; only the `deps.js` text is.
- `cache.getImports()` is a parameter, and `cache.setImports` is the `ImportCache` class. The rest of the runner's cache is not part of this model.
- The message dispatch `run` and its helpers are not part of this model: `addScript`, `addSheet`, `reloadScript`, `replaceScript`, `reloadAllScripts`, `removeSheet`, `removeScript`, `createScript` and `createSheet`.
- The gulp stream pipeline, `afterWrite`, `watchDeletes` and `logError` are left out.
- Regular expressions are written out as hand scanners of the source's patterns; no regex engine is modelled.
- RequireScan.GetMatches: the `index` argument is fixed to 1, the only value `findRequires` passes.
- GulpWrite.StaleNeverWritten: requires a positive start time, because a stored stamp of 0 is falsy and lets the file through again.
- Urls.RemoveTimeIdempotent: holds only for locators with at most one `?`; `Urls.RemoveTimeNotIdempotent` shows the general case fails.
- Swapping.Page.Signal: the 4 ms and 2 ms delays between the signal, the removal and the callback are collapsed into one call.
- Strings are sequences of characters; no Unicode normalisation or encoding is modelled.

## Findings

| source | as written | input that shows it | evidently intended | confidence | as-written member | corrected member |
|---|---|---|---|---|---|---|
| packages/flint.js/src/tools/messages.js:71-76 | `onDone` clears `loading[name]` before re-invoking `load` for a pending follow-up, so the follow-up runs unguarded | for `app`: call, call, the first load reports, call again; two loads of `app` then run at once | `loading[name]` stays set while the follow-up runs | medium, not executed | TagLoading.AsWrittenOverlaps | TagLoading.GuardedKeepsSingleFlight |
| packages/runner/src/npm/index.js:139 | the error handler passes the unbound name `error`, so a failed save throws a `ReferenceError` before `onPackageError` or `next` runs | two new packages `a`, `b` where saving `a` fails: no error is reported, `b` is never installed, and no imports are recorded | report the save's rejection reason and continue with the next package | high, not executed | Installer.SaveFailureHaltsAsWritten | Installer.DrainCompletes |
