/**
 * The per-name single-flight loader of the live-reload client (`TagLoader`).
 *
 * A caller asks to (re)load the element named `name` and hands over a `load`
 * closure. If no load is running for that name the closure is invoked at once
 * with the element the previous load produced; otherwise the request only sets
 * the name's `wait` flag, and when the running load reports its new element the
 * loader re-invokes the closure of the call that started the flight with it.
 *
 * Closures are modelled by identities: `LoadRef` names the `load` closure a
 * caller passes, and each call that starts a flight creates one `onDone`
 * closure, recorded in `flights` and named by its index (its ticket). The set
 * `running` holds the tickets whose `load` has been invoked and has not yet
 * called its `onDone`; it is bookkeeping about the environment, not a variable
 * of the source.
 */
module TagLoading {
  import opened Wrappers

  type Name = string
  /** A reference to the element a finished load hands to `onDone`. */
  type TagRef = nat
  /** The identity of a `load` closure passed by a caller. */
  type LoadRef = nat

  /** The messages sent on the socket: `file:load` and `file:done`. */
  datatype Notice = FileLoad(name: Name) | FileDone(name: Name)

  /** The `onDone` closure made by a call that started a flight: its name and that call's `load`. */
  datatype Flight = Flight(name: Name, load: LoadRef)

  /** One invocation `load(prior, onDone)` of closure `load` with the `onDone` of flight `ticket`. */
  datatype Call = Call(ticket: nat, load: LoadRef, prior: Option<TagRef>)

  datatype State = State(
    last: map<Name, TagRef>,
    loading: map<Name, bool>,
    wait: map<Name, bool>,
    flights: seq<Flight>,
    running: set<nat>,
    sent: seq<Notice>)

  datatype Step = Step(state: State, call: Option<Call>)

  const Initial: State := State(map[], map[], map[], [], {}, [])

  /** JavaScript truthiness of a flag read from a dictionary (a missing key is `undefined`). */
  predicate Flag(m: map<Name, bool>, k: Name) {
    k in m && m[k]
  }

  function Lookup(m: map<Name, TagRef>, k: Name): Option<TagRef> {
    if k in m then Some(m[k]) else None
  }

  /** Everything the loader keeps about one name. */
  function Entry(s: State, n: Name): (Option<TagRef>, bool, bool) {
    (Lookup(s.last, n), Flag(s.loading, n), Flag(s.wait, n))
  }

  /** Every ticket that is running names a flight that was created. */
  predicate WellFormed(s: State) {
    forall t | t in s.running :: t < |s.flights|
  }

  /**
   * The loader's response to a call `(name, load)`. While a load is running
   * for `name` the call only sets `wait[name]` and invokes nothing; otherwise
   * it marks `name` loading and invokes `load` with the previous element.
   * No other name's entry is read or changed.
   */
  function Request(s: State, name: Name, load: LoadRef): (r: Step)
    ensures r.state.sent == s.sent + [FileLoad(name)]
    ensures Flag(s.loading, name) ==>
      && r.call == None
      && Flag(r.state.wait, name)
      && r.state.loading == s.loading && r.state.last == s.last
      && r.state.flights == s.flights && r.state.running == s.running
    ensures !Flag(s.loading, name) ==>
      && r.call == Some(Call(|s.flights|, load, Lookup(s.last, name)))
      && Flag(r.state.loading, name)
      && r.state.flights == s.flights + [Flight(name, load)]
      && r.state.running == s.running + {|s.flights|}
      && r.state.last == s.last && r.state.wait == s.wait
    ensures forall n | n != name :: Entry(r.state, n) == Entry(s, n)
    ensures WellFormed(s) ==> WellFormed(r.state)
  {
    var sent := s.sent + [FileLoad(name)];
    var oldTag := Lookup(s.last, name);
    if Flag(s.loading, name) then
      Step(s.(wait := s.wait[name := true], sent := sent), None)
    else
      var ticket := |s.flights|;
      Step(s.(loading := s.loading[name := true],
              flights := s.flights + [Flight(name, load)],
              running := s.running + {ticket},
              sent := sent),
           Some(Call(ticket, load, oldTag)))
  }

  /**
   * `onDone(newTag)` of flight `ticket`, as written: record the new element,
   * clear `loading`, and if a call arrived meanwhile clear `wait` and invoke
   * the flight's OWN `load` with exactly the element just reported. The
   * follow-up leaves `loading[name]` false.
   */
  function Done(s: State, ticket: nat, tag: TagRef): (r: Step)
    requires ticket < |s.flights| && ticket in s.running
    ensures var name := s.flights[ticket].name;
      && r.state.sent == s.sent + [FileDone(name)]
      && Entry(r.state, name) == (Some(tag), false, false)
      && (r.call.Some? <==> Flag(s.wait, name))
      && (r.call.Some? ==> r.call.value == Call(ticket, s.flights[ticket].load, Some(tag)))
      && r.state.running == (if r.call.Some? then s.running else s.running - {ticket})
      && r.state.flights == s.flights
      && forall n | n != name :: Entry(r.state, n) == Entry(s, n)
  {
    var f := s.flights[ticket];
    var t := s.(sent := s.sent + [FileDone(f.name)],
                last := s.last[f.name := tag],
                loading := s.loading[f.name := false],
                running := s.running - {ticket});
    if Flag(t.wait, f.name) then
      Step(t.(wait := t.wait[f.name := false], running := t.running + {ticket}),
           Some(Call(ticket, f.load, Lookup(t.last, f.name))))
    else
      Step(t, None)
  }

  /**
   * The same `onDone` with the follow-up counted as a flight: `loading[name]`
   * stays true while the re-invoked load runs.
   */
  function DoneGuarded(s: State, ticket: nat, tag: TagRef): (r: Step)
    requires ticket < |s.flights| && ticket in s.running
    ensures var name := s.flights[ticket].name;
      && Lookup(r.state.last, name) == Some(tag)
      && (r.call.Some? <==> Flag(s.wait, name))
      && (r.call.Some? ==> r.call.value == Call(ticket, s.flights[ticket].load, Some(tag)))
      && Flag(r.state.loading, name) == r.call.Some?
      && !Flag(r.state.wait, name)
      && forall n | n != name :: Entry(r.state, n) == Entry(s, n)
  {
    var r := Done(s, ticket, tag);
    if r.call.Some? then
      var name := s.flights[ticket].name;
      Step(r.state.(loading := r.state.loading[name := true]), r.call)
    else r
  }

  /** What can happen next: a call to the loader, or the `onDone` of a flight firing. */
  datatype Event = Req(name: Name, load: LoadRef) | Report(ticket: nat, tag: TagRef)

  datatype Policy = AsWritten | Guarded

  datatype Trace = Trace(state: State, calls: seq<Call>)

  function CallsOf(c: Option<Call>): seq<Call> {
    if c.Some? then [c.value] else []
  }

  /**
   * One event. A report from a flight whose load is not running cannot occur
   * (each invocation reports once, see `Swapping.Race`) and changes nothing.
   */
  function Apply(s: State, e: Event, p: Policy): Step {
    match e
    case Req(name, load) => Request(s, name, load)
    case Report(ticket, tag) =>
      if ticket < |s.flights| && ticket in s.running then
        if p == AsWritten then Done(s, ticket, tag) else DoneGuarded(s, ticket, tag)
      else Step(s, None)
  }

  /** The state after a sequence of events, and every load invocation they caused, in order. */
  function Run(s: State, events: seq<Event>, p: Policy): Trace
    decreases |events|
  {
    if events == [] then Trace(s, [])
    else
      var step := Apply(s, events[0], p);
      var rest := Run(step.state, events[1..], p);
      Trace(rest.state, CallsOf(step.call) + rest.calls)
  }

  function Requests(name: Name, loads: seq<LoadRef>): (es: seq<Event>)
    ensures |es| == |loads|
    ensures forall i | 0 <= i < |es| :: es[i] == Req(name, loads[i])
  {
    if loads == [] then [] else [Req(name, loads[0])] + Requests(name, loads[1..])
  }

  /**
   * Any number of calls for a name while its load runs invoke nothing and
   * leave one pending follow-up: `wait[name]` is a flag, not a counter.
   */
  lemma {:induction false} CallsWhileLoadingCollapse(s: State, name: Name, loads: seq<LoadRef>, p: Policy)
    requires Flag(s.loading, name)
    ensures var r := Run(s, Requests(name, loads), p);
      && r.calls == []
      && r.state.loading == s.loading && r.state.last == s.last
      && r.state.flights == s.flights && r.state.running == s.running
      && Flag(r.state.wait, name) == (Flag(s.wait, name) || |loads| > 0)
      && forall n | n != name :: Entry(r.state, n) == Entry(s, n)
    decreases |loads|
  {
    if loads != [] {
      var es := Requests(name, loads);
      assert es[1..] == Requests(name, loads[1..]);
      var step := Apply(s, es[0], p);
      CallsWhileLoadingCollapse(step.state, name, loads[1..], p);
    }
  }

  /** While the load runs, a run of calls splits off: the events after it see only the state it leaves. */
  lemma {:induction false} RequestsThen(s: State, name: Name, loads: seq<LoadRef>, rest: seq<Event>, p: Policy)
    requires Flag(s.loading, name)
    ensures var r := Run(s, Requests(name, loads), p);
      Run(s, Requests(name, loads) + rest, p) == Run(r.state, rest, p)
    decreases |loads|
  {
    var es := Requests(name, loads);
    if loads == [] {
      assert es + rest == rest;
    } else {
      assert (es + rest)[0] == Req(name, loads[0]);
      assert (es + rest)[1..] == Requests(name, loads[1..]) + rest;
      assert es[1..] == Requests(name, loads[1..]);
      var step := Request(s, name, loads[0]);
      RequestsThen(step.state, name, loads[1..], rest, p);
    }
  }

  /**
   * A load started for `name`, then `k >= 1` further calls, then the load
   * reports `tag`: exactly two invocations happen in all, both of the FIRST
   * caller's closure, the second receiving exactly `tag`.
   */
  lemma CoalescedFollowUp(s: State, name: Name, first: LoadRef, later: seq<LoadRef>, tag: TagRef)
    requires WellFormed(s) && !Flag(s.loading, name) && |later| > 0
    ensures var t := |s.flights|;
      Run(s, [Req(name, first)] + Requests(name, later) + [Report(t, tag)], AsWritten).calls
        == [Call(t, first, Lookup(s.last, name)), Call(t, first, Some(tag))]
  {
    var t := |s.flights|;
    var es := [Req(name, first)] + Requests(name, later) + [Report(t, tag)];
    var s1 := Request(s, name, first).state;
    assert es[1..] == Requests(name, later) + [Report(t, tag)];
    RequestsThen(s1, name, later, [Report(t, tag)], AsWritten);
    CallsWhileLoadingCollapse(s1, name, later, AsWritten);
  }

  /**
   * The code as written lets two loads for one name run at once: a call that
   * arrives while the follow-up runs finds `loading` false and starts a
   * second flight.
   */
  lemma AsWrittenOverlaps()
    ensures var r := Run(Initial, [Req("app", 0), Req("app", 1), Report(0, 7), Req("app", 2)], AsWritten);
      && r.calls == [Call(0, 0, None), Call(0, 0, Some(7)), Call(1, 2, Some(7))]
      && r.state.running == {0, 1}
      && r.state.flights[0].name == r.state.flights[1].name == "app"
  {
    var es := [Req("app", 0), Req("app", 1), Report(0, 7), Req("app", 2)];
    var s1 := Apply(Initial, es[0], AsWritten).state;
    var s2 := Apply(s1, es[1], AsWritten).state;
    var s3 := Apply(s2, es[2], AsWritten).state;
    assert es[1..][1..][1..][1..] == [];
  }

  /** At most one load runs per name, and a name with a running load is marked loading. */
  predicate SingleFlight(s: State) {
    && WellFormed(s)
    && (forall t | t in s.running :: Flag(s.loading, s.flights[t].name))
    && (forall t1, t2 | t1 in s.running && t2 in s.running && s.flights[t1].name == s.flights[t2].name :: t1 == t2)
  }

  /** With the follow-up counted as a flight, no sequence of events ever runs two loads for one name. */
  lemma {:induction false} GuardedKeepsSingleFlight(s: State, events: seq<Event>)
    requires SingleFlight(s)
    ensures SingleFlight(Run(s, events, Guarded).state)
    decreases |events|
  {
    if events != [] {
      var next := Apply(s, events[0], Guarded).state;
      match events[0] {
        case Req(name, load) =>
          assert SingleFlight(next);
        case Report(ticket, tag) =>
          assert SingleFlight(next);
      }
      GuardedKeepsSingleFlight(next, events[1..]);
    }
  }

  /**
   * The loader object: three dictionaries keyed by name, the `onDone`
   * closures made so far, and the socket messages sent.
   */
  class TagLoader {
    var last: map<Name, TagRef>
    var loading: map<Name, bool>
    var wait: map<Name, bool>
    var flights: seq<Flight>
    ghost var running: set<nat>
    var sent: seq<Notice>

    ghost function Model(): State
      reads this
    {
      State(last, loading, wait, flights, running, sent)
    }

    constructor ()
      ensures Model() == Initial
    {
      last, loading, wait := map[], map[], map[];
      flights, running, sent := [], {}, [];
    }

    /** The function `TagLoader()` returns: a call for `name` with closure `load`. */
    method Load(name: Name, load: LoadRef) returns (call: Option<Call>)
      modifies this
      ensures Step(Model(), call) == Request(old(Model()), name, load)
    {
      sent := sent + [FileLoad(name)];
      var oldTag := Lookup(last, name);
      if Flag(loading, name) {
        wait := wait[name := true];
        return None;
      }
      loading := loading[name := true];
      var ticket := |flights|;
      flights := flights + [Flight(name, load)];
      running := running + {ticket};
      call := Some(Call(ticket, load, oldTag));
    }

    /**
     * `onDone(newTag)` of flight `ticket`, as written: `loading[name]` is
     * cleared, and stays clear while a pending follow-up load runs.
     */
    method OnDone(ticket: nat, newTag: TagRef) returns (call: Option<Call>)
      requires ticket < |flights| && ticket in running
      modifies this
      ensures Step(Model(), call) == Done(old(Model()), ticket, newTag)
    {
      var name := flights[ticket].name;
      sent := sent + [FileDone(name)];
      last := last[name := newTag];
      loading := loading[name := false];
      running := running - {ticket};
      call := None;
      if Flag(wait, name) {
        wait := wait[name := false];
        running := running + {ticket};
        call := Some(Call(ticket, flights[ticket].load, Lookup(last, name)));
      }
    }
  }
}
