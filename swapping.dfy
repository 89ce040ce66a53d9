/**
 * Replacing a live script or stylesheet element (`replaceTag`, `cloneNode`,
 * `getParent`, `removeTag`).
 *
 * The page is reduced to its two containers, `head` and `body`, each a
 * sequence of element objects; an element is attached when it is in one of
 * them. A detach (`removeChild`) succeeds only when the element is a child of
 * the container it is removed from, and the environment may refuse any
 * primary detach attempt besides (the `refuse` oracles), which stands for
 * whatever else makes the browser throw. Timers are not modelled as time:
 * the signal that ends a race is a method call, and the 30 ms retries of a
 * removal run within the one call of `RemoveTag`.
 */
module Swapping {
  import opened Wrappers
  import opened Strings
  import opened Urls

  /** `nodeName`/`tagName`: `SCRIPT`, `LINK`, or any other element. */
  datatype NodeName = Script | Link | OtherNode

  datatype Attr = Attr(name: string, value: string)

  datatype Container = Head | Body

  predicate Distinct<T(==)>(s: seq<T>) {
    forall i, j | 0 <= i < j < |s| :: s[i] != s[j]
  }

  lemma DistinctCons<T>(x: T, rest: seq<T>)
    requires Distinct(rest) && x !in rest
    ensures Distinct([x] + rest)
  {
  }

  lemma DistinctConcat<T>(a: seq<T>, b: seq<T>)
    requires Distinct(a) && Distinct(b)
    requires forall x | x in a :: x !in b
    ensures Distinct(a + b)
  {
    forall i, j | 0 <= i < j < |a + b|
      ensures (a + b)[i] != (a + b)[j]
    {
      if j >= |a| && i < |a| {
        assert (a + b)[i] in a && (a + b)[j] in b;
      }
    }
  }

  /** An element never carries two attributes of one name. */
  predicate DistinctNames(attrs: seq<Attr>) {
    forall i, j | 0 <= i < j < |attrs| :: attrs[i].name != attrs[j].name
  }

  /** `getAttribute`: the value of the attribute of that name, `None` for `null`. */
  function GetAttribute(attrs: seq<Attr>, name: string): (r: Option<string>)
    ensures r.None? <==> forall i | 0 <= i < |attrs| :: attrs[i].name != name
  {
    if attrs == [] then None
    else if attrs[0].name == name then Some(attrs[0].value)
    else GetAttribute(attrs[1..], name)
  }

  lemma DistinctNamesCons(a: Attr, rest: seq<Attr>)
    requires DistinctNames(rest) && GetAttribute(rest, a.name).None?
    ensures DistinctNames([a] + rest)
  {
  }

  lemma DistinctNamesTail(attrs: seq<Attr>)
    requires |attrs| > 0 && DistinctNames(attrs)
    ensures DistinctNames(attrs[1..]) && GetAttribute(attrs[1..], attrs[0].name).None?
  {
    assert forall i | 0 <= i < |attrs| - 1 :: attrs[1..][i] == attrs[i + 1];
  }

  /** `setAttribute`: overwrite the attribute of that name in place, or append it. */
  function SetAttribute(attrs: seq<Attr>, name: string, value: string): (r: seq<Attr>)
    ensures GetAttribute(r, name) == Some(value)
  {
    if attrs == [] then [Attr(name, value)]
    else if attrs[0].name == name then [Attr(name, value)] + attrs[1..]
    else [attrs[0]] + SetAttribute(attrs[1..], name, value)
  }

  /** `setAttribute` leaves every other name as it was and never duplicates a name. */
  lemma {:induction false} SetAttributeKeeps(attrs: seq<Attr>, name: string, value: string)
    ensures forall n | n != name :: GetAttribute(SetAttribute(attrs, name, value), n) == GetAttribute(attrs, n)
    ensures DistinctNames(attrs) ==> DistinctNames(SetAttribute(attrs, name, value))
    decreases |attrs|
  {
    if attrs != [] {
      var r := SetAttribute(attrs, name, value);
      if attrs[0].name == name {
        if DistinctNames(attrs) {
          DistinctNamesTail(attrs);
          DistinctNamesCons(Attr(name, value), attrs[1..]);
        }
      } else {
        var rest := SetAttribute(attrs[1..], name, value);
        SetAttributeKeeps(attrs[1..], name, value);
        assert r == [attrs[0]] + rest;
        if DistinctNames(attrs) {
          DistinctNamesTail(attrs);
          DistinctNamesCons(attrs[0], rest);
        }
      }
    }
  }

  /** A new attribute goes after the existing ones. */
  lemma {:induction false} SetNewAttributeAppends(attrs: seq<Attr>, name: string, value: string)
    requires GetAttribute(attrs, name).None?
    ensures SetAttribute(attrs, name, value) == attrs + [Attr(name, value)]
    decreases |attrs|
  {
    if attrs != [] {
      var rest := attrs[1..];
      assert attrs[0].name != name;
      assert GetAttribute(rest, name) == GetAttribute(attrs, name);
      SetNewAttributeAppends(rest, name, value);
      assert attrs == [attrs[0]] + rest;
      assert SetAttribute(attrs, name, value) == [attrs[0]] + (rest + [Attr(name, value)]);
    }
  }

  /** The attributes other than `name`, in their order. */
  function WithoutAttr(attrs: seq<Attr>, name: string): (r: seq<Attr>)
    ensures GetAttribute(r, name) == None
    ensures forall n | n != name :: GetAttribute(r, n) == GetAttribute(attrs, n)
    ensures DistinctNames(attrs) ==> DistinctNames(r)
  {
    if attrs == [] then []
    else
      var rest := WithoutAttr(attrs[1..], name);
      assert DistinctNames(attrs) ==> DistinctNames(rest) && GetAttribute(rest, attrs[0].name).None? by {
        if DistinctNames(attrs) {
          DistinctNamesTail(attrs);
        }
      }
      if attrs[0].name == name then rest
      else
        assert DistinctNames(attrs) ==> DistinctNames([attrs[0]] + rest) by {
          if DistinctNames(attrs) {
            DistinctNamesCons(attrs[0], rest);
          }
        }
        [attrs[0]] + rest
  }

  lemma {:induction false} WithoutAttrAppend(attrs: seq<Attr>, a: Attr, name: string)
    ensures WithoutAttr(attrs + [a], name) == WithoutAttr(attrs, name) + (if a.name == name then [] else [a])
    decreases |attrs|
  {
    if attrs == [] {
      assert [a][1..] == [];
    } else {
      assert (attrs + [a])[1..] == attrs[1..] + [a];
      WithoutAttrAppend(attrs[1..], a, name);
    }
  }

  /**
   * The attributes `cloneNode(node, attr)` gives the clone, or `None` when
   * `node` lacks `attr` (then `replaceTime(null)` throws). A script clone
   * keeps every attribute but `src`; any other element keeps all of them; the
   * swapped attribute is then set to its old value re-stamped with `now`.
   */
  function ClonedAttrs(node: NodeName, attrs: seq<Attr>, attr: string, now: nat): (r: Option<seq<Attr>>)
    ensures r.None? <==> GetAttribute(attrs, attr).None?
    ensures r.Some? ==> GetAttribute(r.value, attr) == Some(ReplaceTime(GetAttribute(attrs, attr).value, now))
    ensures r.Some? ==> forall n | n != attr && (node != Script || n != "src") ::
      GetAttribute(r.value, n) == GetAttribute(attrs, n)
    ensures r.Some? && node == Script && attr != "src" ==> GetAttribute(r.value, "src") == None
    ensures r.Some? && DistinctNames(attrs) ==> DistinctNames(r.value)
  {
    match GetAttribute(attrs, attr)
    case None => None
    case Some(v) =>
      var base := if node == Script then WithoutAttr(attrs, "src") else attrs;
      SetAttributeKeeps(base, attr, ReplaceTime(v, now));
      Some(SetAttribute(base, attr, ReplaceTime(v, now)))
  }

  class Element {
    const nodeName: NodeName
    var attrs: seq<Attr>

    constructor (nodeName: NodeName, attrs: seq<Attr>)
      ensures this.nodeName == nodeName && this.attrs == attrs
    {
      this.nodeName := nodeName;
      this.attrs := attrs;
    }
  }

  /** One round of the copy loop: an attribute other than `src` is new to the copy, so it is appended. */
  lemma CopyStep(attrs: seq<Attr>, i: nat)
    requires DistinctNames(attrs) && i < |attrs|
    ensures WithoutAttr(attrs[..i + 1], "src") ==
      if attrs[i].name == "src" then WithoutAttr(attrs[..i], "src")
      else SetAttribute(WithoutAttr(attrs[..i], "src"), attrs[i].name, attrs[i].value)
  {
    assert attrs[..i + 1] == attrs[..i] + [attrs[i]];
    WithoutAttrAppend(attrs[..i], attrs[i], "src");
    if attrs[i].name != "src" {
      assert GetAttribute(attrs[..i], attrs[i].name).None?;
      SetNewAttributeAppends(WithoutAttr(attrs[..i], "src"), attrs[i].name, attrs[i].value);
    }
  }

  /** The loop of `cloneNode` for a script: copy each attribute except `src` onto the new element. */
  method CopyScriptAttributes(attrs: seq<Attr>) returns (copied: seq<Attr>)
    requires DistinctNames(attrs)
    ensures copied == WithoutAttr(attrs, "src")
  {
    copied := [];
    for i := 0 to |attrs|
      invariant copied == WithoutAttr(attrs[..i], "src")
    {
      CopyStep(attrs, i);
      if attrs[i].name != "src" {
        copied := SetAttribute(copied, attrs[i].name, attrs[i].value);
      }
    }
    assert attrs[..|attrs|] == attrs;
  }

  /** `cloneNode(node, attr)`: a new detached element, or `null` where the source throws. */
  method CloneNode(node: Element, attr: string, now: nat) returns (clone: Element?)
    requires DistinctNames(node.attrs)
    ensures clone == null <==> GetAttribute(node.attrs, attr).None?
    ensures clone != null ==>
      && fresh(clone) && clone.nodeName == node.nodeName
      && Some(clone.attrs) == ClonedAttrs(node.nodeName, node.attrs, attr, now)
  {
    var base: seq<Attr>;
    if node.nodeName != Script {
      base := node.attrs;
    } else {
      base := CopyScriptAttributes(node.attrs);
    }
    var old_ := GetAttribute(node.attrs, attr);
    if old_.None? {
      return null;
    }
    clone := new Element(node.nodeName, SetAttribute(base, attr, ReplaceTime(old_.value, now)));
  }

  /** The sequence without `e`. */
  function Without(s: seq<Element>, e: Element): (r: seq<Element>)
    ensures e !in r
    ensures forall x | x in r :: x in s
    ensures forall x | x in s && x != e :: x in r
    ensures e !in s ==> r == s
    ensures Distinct(s) ==> Distinct(r)
  {
    if s == [] then []
    else
      var rest := Without(s[1..], e);
      assert Distinct(s) ==> Distinct(s[1..]) && s[0] !in s[1..];
      if s[0] == e then rest
      else
        assert Distinct(s) ==> Distinct([s[0]] + rest) by {
          if Distinct(s) {
            DistinctCons(s[0], rest);
          }
        }
        [s[0]] + rest
  }
  /**
   * `s` is a subsequence of `s0`: walking `s0` in order, each element is
   * either the next element of `s` or skipped, so `s` keeps the order of `s0`.
   */
  ghost predicate Sub(s0: seq<Element>, s: seq<Element>)
    decreases |s0|
  {
    if s0 == [] then s == []
    else
      || (s != [] && s[0] == s0[0] && Sub(s0[1..], s[1..]))
      || Sub(s0[1..], s)
  }

  /** A sequence is a subsequence of itself. */
  lemma {:induction false} SubRefl(s: seq<Element>)
    ensures Sub(s, s)
    decreases |s|
  {
    if s != [] {
      SubRefl(s[1..]);
    }
  }

  /** A subsequence holds only elements of the original. */
  lemma {:induction false} SubIn(s0: seq<Element>, s: seq<Element>, x: Element)
    requires Sub(s0, s) && x in s
    ensures x in s0
    decreases |s0|
  {
    if s != [] && s[0] == s0[0] && Sub(s0[1..], s[1..]) {
      if x != s[0] {
        SubIn(s0[1..], s[1..], x);
      }
    } else {
      SubIn(s0[1..], s, x);
    }
  }

  /** A subsequence of a subsequence is a subsequence. */
  lemma {:induction false} SubTrans(a: seq<Element>, b: seq<Element>, c: seq<Element>)
    requires Sub(a, b) && Sub(b, c)
    ensures Sub(a, c)
    decreases |a|
  {
    if a != [] {
      if b != [] && b[0] == a[0] && Sub(a[1..], b[1..]) {
        if c != [] && c[0] == b[0] && Sub(b[1..], c[1..]) {
          SubTrans(a[1..], b[1..], c[1..]);
        } else {
          SubTrans(a[1..], b[1..], c);
        }
      } else {
        SubTrans(a[1..], b, c);
      }
    }
  }

  /** Taking an element out leaves a subsequence. */
  lemma {:induction false} SubWithout(s: seq<Element>, t: Element)
    ensures Sub(s, Without(s, t))
    decreases |s|
  {
    if s != [] {
      SubWithout(s[1..], t);
      if s[0] != t {
        assert Without(s, t)[1..] == Without(s[1..], t);
      }
    }
  }

  /** A subsequence of a list without repeats that keeps all its elements is the list itself. */
  lemma {:induction false} SubKeepingAll(s0: seq<Element>, s: seq<Element>)
    requires Sub(s0, s) && Distinct(s0)
    requires forall x | x in s0 :: x in s
    ensures s == s0
    decreases |s0|
  {
    if s0 != [] {
      assert Distinct(s0[1..]);
      if s != [] && s[0] == s0[0] && Sub(s0[1..], s[1..]) {
        forall x | x in s0[1..]
          ensures x in s[1..]
        {
          assert x in s && x != s[0];
        }
        SubKeepingAll(s0[1..], s[1..]);
        assert s == [s[0]] + s[1..];
      } else {
        assert s0[0] in s;
        SubIn(s0[1..], s, s0[0]);
        assert false;
      }
    }
  }

  /** A subsequence that lacks `t` is a subsequence of the original without `t`. */
  lemma {:induction false} SubSkip(s0: seq<Element>, s: seq<Element>, t: Element)
    requires Sub(s0, s) && t !in s
    ensures Sub(Without(s0, t), s)
    decreases |s0|
  {
    if s0 != [] {
      if s != [] && s[0] == s0[0] && Sub(s0[1..], s[1..]) {
        SubSkip(s0[1..], s[1..], t);
        assert Without(s0, t) == [s0[0]] + Without(s0[1..], t);
      } else {
        SubSkip(s0[1..], s, t);
        if s0[0] != t {
          assert Without(s0, t)[1..] == Without(s0[1..], t);
        }
      }
    }
  }

  /**
   * A subsequence of a list without repeats that keeps every element but
   * `t` is the list without `t`, or the list itself.
   */
  lemma SubAllBut(s0: seq<Element>, s: seq<Element>, t: Element)
    requires Sub(s0, s) && Distinct(s0)
    requires forall e | e in s0 && e != t :: e in s
    ensures s == Without(s0, t) || s == s0
  {
    if t in s {
      forall e | e in s0
        ensures e in s
      {
      }
      SubKeepingAll(s0, s);
    } else {
      SubSkip(s0, s, t);
      SubKeepingAll(Without(s0, t), s);
    }
  }

  /**
   * Compared with containers `h0` and `b0`, containers `h` and `b` attach or
   * move nothing, keep the order of what they keep, and lose only elements
   * of `touched`.
   */
  ghost predicate Detaches(h0: seq<Element>, b0: seq<Element>, h: seq<Element>, b: seq<Element>, touched: seq<Element>) {
    && Sub(h0, h) && Sub(b0, b)
    && (forall e | e in h0 && e !in touched :: e in h)
    && (forall e | e in b0 && e !in touched :: e in b)
  }

  /** Two rounds of detaching make one, by both sets of elements. */
  lemma DetachesTrans(h0: seq<Element>, b0: seq<Element>, h: seq<Element>, b: seq<Element>,
                      h': seq<Element>, b': seq<Element>, g1: seq<Element>, g2: seq<Element>)
    requires Detaches(h0, b0, h, b, g1) && Detaches(h, b, h', b', g2)
    ensures Detaches(h0, b0, h', b', g1 + g2)
  {
    SubTrans(h0, h, h');
    SubTrans(b0, b, b');
  }

  /** The attribute a swap rewrites and a sweep blanks: `src` for scripts, `href` otherwise. */
  function SwappedAttr(isScript: bool): string {
    if isScript then "src" else "href"
  }

  /**
   * The DOM property `tag.src`/`tag.href`, taken as the attribute's value
   * ("" when it is absent). The browser resolves the property to an absolute
   * URL; `removeBase` turns that back into the attribute for pages served over
   * http whose locators are root-relative, the case this model covers.
   */
  function Prop(attrs: seq<Attr>, name: string): string {
    match GetAttribute(attrs, name)
    case Some(v) => v
    case None => ""
  }

  /** `script[src^="p"]` (or `link[href^="p"]`) selects an element; an empty `p` selects nothing. */
  predicate Selects(isScript: bool, prefix: string, nodeName: NodeName, attrs: seq<Attr>) {
    && prefix != ""
    && nodeName == (if isScript then Script else Link)
    && GetAttribute(attrs, SwappedAttr(isScript)).Some?
    && StartsWith(GetAttribute(attrs, SwappedAttr(isScript)).value, prefix)
  }

  /** The elements of `es` the selector picks, in order. */
  function Matching(es: seq<Element>, isScript: bool, prefix: string): (r: seq<Element>)
    reads set e | e in es
    ensures forall x | x in r :: x in es && Selects(isScript, prefix, x.nodeName, x.attrs)
    ensures forall x | x in es && Selects(isScript, prefix, x.nodeName, x.attrs) :: x in r
    ensures Distinct(es) ==> Distinct(r)
  {
    if es == [] then []
    else
      var rest := Matching(es[1..], isScript, prefix);
      assert Distinct(es) ==> Distinct(es[1..]) && es[0] !in es[1..];
      if Selects(isScript, prefix, es[0].nodeName, es[0].attrs) then
        assert Distinct(es) ==> Distinct([es[0]] + rest) by {
          if Distinct(es) {
            DistinctCons(es[0], rest);
          }
        }
        [es[0]] + rest
      else rest
  }

  /** The elements a sweep may detach: all but the last three. */
  function SweepPrefix(tags: seq<Element>): (r: seq<Element>)
    ensures |r| == if |tags| > 3 then |tags| - 3 else 0
  {
    if |tags| > 3 then tags[..|tags| - 3] else []
  }

  /** How a `removeTag` chain ended: a detach succeeded with this counter, or the sweep ran. */
  datatype Removal = Detached(attempts: nat) | Swept(attempts: nat)

  /**
   * The retry chain of `removeTag`, given whether the detach tried with each
   * counter value succeeds: a failure with `attempts <= 3` retries with
   * `attempts + 1`, one with `attempts > 3` sweeps.
   */
  function Chain(attempts: nat, ok: nat -> bool): Removal
    decreases if attempts <= 3 then 4 - attempts else 0
  {
    if ok(attempts) then Detached(attempts)
    else if attempts > 3 then Swept(attempts)
    else Chain(attempts + 1, ok)
  }

  /** A detach succeeds when the element is a child of the container and the environment does not refuse. */
  function DetachOk(attached: bool, refuse: nat -> bool): nat -> bool {
    (k: nat) => attached && !refuse(k)
  }

  /**
   * Every chain ends (the callback always runs): after at most
   * `max(attempts, 4) - attempts + 1` detach tries, every try before the last
   * failed, and it sweeps exactly when the try with counter `max(attempts, 4)` failed too.
   */
  lemma {:induction false} ChainEnds(attempts: nat, ok: nat -> bool)
    ensures var r := Chain(attempts, ok);
      var limit := if attempts > 4 then attempts else 4;
      && attempts <= r.attempts <= limit
      && (forall k | attempts <= k < r.attempts :: !ok(k))
      && (r.Detached? <==> ok(r.attempts))
      && (r.Swept? ==> r.attempts == limit)
    decreases if attempts <= 3 then 4 - attempts else 0
  {
    if !ok(attempts) && attempts <= 3 {
      ChainEnds(attempts + 1, ok);
    }
  }

  /** Starting from 0, the sweep runs exactly when all five tries, counters 0 to 4, fail. */
  lemma SweepAfterFiveFailures(ok: nat -> bool)
    ensures Chain(0, ok).Swept? <==> forall k | 0 <= k <= 4 :: !ok(k)
  {
    ChainEnds(0, ok);
    var r := Chain(0, ok);
    if r.Detached? {
      assert ok(r.attempts);
    }
  }

  datatype Signal = Loaded | Errored | TimedOut

  /**
   * The signals, in arrival order, that find the `already` guard open and run
   * the finish action.
   */
  function Finishes(already: bool, signals: seq<Signal>): seq<Signal>
    decreases |signals|
  {
    if signals == [] then []
    else (if already then [] else [signals[0]]) + Finishes(true, signals[1..])
  }

  /**
   * However many of `onload`, `onerror` and the timeout fire, the finish
   * action runs once, for the first of them; with the guard closed it never runs.
   */
  lemma {:induction false} FinishRunsOnce(already: bool, signals: seq<Signal>)
    ensures Finishes(already, signals) == if already || signals == [] then [] else [signals[0]]
    decreases |signals|
  {
    if signals != [] {
      FinishRunsOnce(true, signals[1..]);
    }
  }

  /** One `replaceTag` in progress: the element replaced, its container, its clone and the guard. */
  class Race {
    const tag: Element
    const parent: Container
    const clone: Element
    var already: bool

    constructor (tag: Element, parent: Container, clone: Element)
      ensures this.tag == tag && this.parent == parent && this.clone == clone && !already
    {
      this.tag, this.parent, this.clone := tag, parent, clone;
      already := false;
    }

    /**
     * `afterFinish`, called by the signal `sig`: reports whether `sig` is the
     * one that runs the finish action, which is one step of `Finishes`.
     */
    method AfterFinish(sig: Signal) returns (fired: bool)
      modifies this
      ensures already
      ensures fired == !old(already)
      ensures (if fired then [sig] else []) == Finishes(old(already), [sig])
    {
      if already {
        return false;
      }
      already := true;
      fired := true;
    }
  }

  class Page {
    var head: seq<Element>
    var body: seq<Element>

    /** An element is a child of at most one container, once. */
    ghost predicate Valid()
      reads this
    {
      Distinct(head) && Distinct(body) && forall e | e in head :: e !in body
    }

    /**
     * Compared with containers `h0` and `b0`, nothing was attached or moved,
     * only elements of `touched` were detached, and the elements left in each
     * container keep their order.
     */
    ghost predicate DetachesOnly(h0: seq<Element>, b0: seq<Element>, touched: seq<Element>)
      reads this
    {
      Detaches(h0, b0, head, body, touched)
    }

    /** Detaching nothing from containers without repeats leaves both as they were, in order. */
    lemma DetachedNothing(h0: seq<Element>, b0: seq<Element>)
      requires Distinct(h0) && Distinct(b0)
      requires DetachesOnly(h0, b0, [])
      ensures head == h0 && body == b0
    {
      SubKeepingAll(h0, head);
      SubKeepingAll(b0, body);
    }

    /**
     * Detaching only `t` from containers without repeats leaves each one
     * either as it was or without `t`, the rest in order.
     */
    lemma DetachedOne(h0: seq<Element>, b0: seq<Element>, t: Element)
      requires Distinct(h0) && Distinct(b0)
      requires DetachesOnly(h0, b0, [t])
      ensures head == Without(h0, t) || head == h0
      ensures body == Without(b0, t) || body == b0
    {
      SubAllBut(h0, head, t);
      SubAllBut(b0, body, t);
    }

    /**
     * Every element of `tags` but the last three is detached or has the
     * attribute `name` blanked.
     */
    ghost predicate Retired(tags: seq<Element>, name: string)
      reads this, set e | e in tags
    {
      forall k | 0 <= k < |tags| - 3 ::
        ParentOf(tags[k]) == None || GetAttribute(tags[k].attrs, name) == Some("")
    }

    /**
     * The state after the sweep over `tags`, compared with containers `h0`
     * and `b0`: all but the last three retired, nothing else detached.
     */
    ghost predicate SweptFrom(tags: seq<Element>, isScript: bool, h0: seq<Element>, b0: seq<Element>)
      reads this, set e | e in tags
    {
      Retired(tags, SwappedAttr(isScript)) && DetachesOnly(h0, b0, SweepPrefix(tags))
    }

    /**
     * Element `t` after its turn of the sweep, compared with its container
     * `parent0` and attributes `attrs0` before: it is detached or its
     * attribute `name` is blank, no other attribute changed, and when the
     * first `removeChild` succeeded it is detached with its attributes intact.
     */
    ghost predicate SweptElement(t: Element, name: string, refused: bool, parent0: Option<Container>, attrs0: seq<Attr>)
      reads this, t
    {
      && (ParentOf(t) == None || GetAttribute(t.attrs, name) == Some(""))
      && (t.attrs == attrs0 || t.attrs == SetAttribute(attrs0, name, ""))
      && (parent0.Some? && !refused ==> ParentOf(t) == None && t.attrs == attrs0)
    }

    /** Every element of `es` outside `swept` has the attributes it had before. */
    twostate predicate AttrsKept(es: seq<Element>, swept: seq<Element>)
      reads set e | e in es
    {
      forall e | e in es && e !in swept :: e.attrs == old(e.attrs)
    }

    /** Every element of `tags` but the last three took its turn of the sweep, the k-th one refused as `refuse(k)` says. */
    twostate predicate SweptEach(tags: seq<Element>, name: string, refuse: nat -> bool)
      reads this, set e | e in tags
    {
      forall k | 0 <= k < |tags| - 3 ::
        SweptElement(tags[k], name, refuse(k), old(ParentOf(tags[k])), old(tags[k].attrs))
    }

    /** `tag` was detached from `parent` and nothing else changed, compared with `h0` and `b0`. */
    ghost predicate DetachedFrom(tag: Element, parent: Container, h0: seq<Element>, b0: seq<Element>)
      reads this
    {
      && ParentOf(tag) == None
      && Children(parent) == Without(if parent == Head then h0 else b0, tag)
      && (parent == Head ==> body == b0)
      && (parent == Body ==> head == h0)
      && DetachesOnly(h0, b0, [tag])
    }

    function Children(c: Container): seq<Element>
      reads this
    {
      if c == Head then head else body
    }

    /** `parentNode`. */
    function ParentOf(e: Element): Option<Container>
      reads this
    {
      if e in body then Some(Body) else if e in head then Some(Head) else None
    }

    /**
     * `getParent`: an attached element's own container; a detached script
     * goes to the body and any other detached element to the head.
     */
    function GetParent(e: Element): (c: Container)
      reads this
      ensures ParentOf(e).Some? ==> c == ParentOf(e).value
      ensures ParentOf(e).None? ==> (c == Body <==> e.nodeName == Script)
    {
      match ParentOf(e)
      case Some(p) => p
      case None => if e.nodeName == Script then Body else Head
    }

    /** `document.querySelectorAll(selector)`: head before body, each in order. */
    function Similar(isScript: bool, prefix: string): (r: seq<Element>)
      reads this, set e | e in head + body
      ensures forall x | x in r :: x in head + body
      ensures Valid() ==> Distinct(r)
    {
      assert Valid() ==> Distinct(head + body) by {
        if Valid() {
          DistinctConcat(head, body);
        }
      }
      Matching(head + body, isScript, prefix)
    }

    /** The elements the sweep of `removeTag(tag, …)` enumerates: elements of the page, none twice. */
    function SweepTargets(tag: Element): (r: seq<Element>)
      reads this, tag, set e | e in head + body
      ensures forall x | x in r :: x in head + body
      ensures Valid() ==> Distinct(r)
    {
      var isScript := tag.nodeName == Script;
      Similar(isScript, Canonical(Prop(tag.attrs, SwappedAttr(isScript))))
    }

    /** `c.removeChild(e)`, which throws (`ok` false) unless `e` is a child of `c` and the environment allows it. */
    method RemoveChild(c: Container, e: Element, refused: bool) returns (ok: bool)
      requires Valid()
      modifies this
      ensures Valid()
      ensures ok == (!refused && old(ParentOf(e)) == Some(c))
      ensures ok ==> ParentOf(e) == None && Children(c) == Without(old(Children(c)), e)
      ensures !ok ==> unchanged(this)
      ensures forall x: Element | old(allocated(x)) && x != e :: ParentOf(x) == old(ParentOf(x))
      ensures DetachesOnly(old(head), old(body), [e])
      ensures c == Head ==> body == old(body)
      ensures c == Body ==> head == old(head)
    {
      ok := !refused && ParentOf(e) == Some(c);
      if ok {
        if c == Head {
          head := Without(head, e);
        } else {
          body := Without(body, e);
        }
      }
      SubWithout(old(head), e);
      SubWithout(old(body), e);
      SubRefl(old(head));
      SubRefl(old(body));
    }

    /** `c.appendChild(e)` for a detached element. */
    method AppendChild(c: Container, e: Element)
      requires Valid() && ParentOf(e) == None
      modifies this
      ensures Valid()
      ensures Children(c) == old(Children(c)) + [e]
      ensures c == Head ==> body == old(body)
      ensures c == Body ==> head == old(head)
    {
      if c == Head {
        head := head + [e];
      } else {
        body := body + [e];
      }
    }

    /**
     * One turn of the sweep loop: `t.parentNode.removeChild(t)`, which the
     * environment may refuse; where it throws, `document.body.removeChild(t)`
     * then `document.head.removeChild(t)`; where either of those throws, the
     * attribute `name` is blanked. Only `t` may change its container.
     */
    method SweepOne(t: Element, name: string, refused: bool)
      requires Valid()
      modifies this, t
      ensures Valid()
      ensures SweptElement(t, name, refused, old(ParentOf(t)), old(t.attrs))
      ensures forall x: Element | old(allocated(x)) && x != t :: ParentOf(x) == old(ParentOf(x))
      ensures DetachesOnly(old(head), old(body), [t])
    {
      var removed := false;
      var p := ParentOf(t);
      if p.Some? {
        removed := RemoveChild(p.value, t, refused);
      }
      if !removed {
        // one of the two fallback detaches always throws, so the attribute is blanked
        var fromBody := RemoveChild(Body, t, false);
        var fromHead := false;
        if fromBody {
          fromHead := RemoveChild(Head, t, false);
        }
        if !(fromBody && fromHead) {
          t.attrs := SetAttribute(t.attrs, name, "");
        }
      }
      SubRefl(old(head));
      SubRefl(old(body));
    }

    /**
     * The sweep of `removeTag`: every element but the last three of `tags`
     * takes its turn of `SweepOne`, in order. The last three are left alone,
     * and so is every element not in `tags`.
     */
    method Sweep(tags: seq<Element>, isScript: bool, refuse: nat -> bool)
      requires Valid() && Distinct(tags)
      modifies this, set e | e in tags
      ensures Valid()
      ensures Retired(tags, SwappedAttr(isScript))
      ensures SweptEach(tags, SwappedAttr(isScript), refuse)
      ensures forall k | 0 <= k < |tags| && |tags| - 3 <= k :: tags[k].attrs == old(tags[k].attrs)
      ensures AttrsKept(old(head + body), SweepPrefix(tags))
      ensures DetachesOnly(old(head), old(body), SweepPrefix(tags))
    {
      var name := SwappedAttr(isScript);
      var n := |SweepPrefix(tags)|;
      var i := 0;
      SubRefl(head);
      SubRefl(body);
      while i < n
        invariant 0 <= i <= n
        invariant Valid()
        invariant forall k | 0 <= k < i ::
          SweptElement(tags[k], name, refuse(k), old(ParentOf(tags[k])), old(tags[k].attrs))
        invariant forall k | i <= k < |tags| ::
          tags[k].attrs == old(tags[k].attrs) && ParentOf(tags[k]) == old(ParentOf(tags[k]))
        invariant DetachesOnly(old(head), old(body), tags[..i])
      {
        ghost var h, b := head, body;
        SweepOne(tags[i], name, refuse(i));
        DetachesTrans(old(head), old(body), h, b, head, body, tags[..i], [tags[i]]);
        assert tags[..i] + [tags[i]] == tags[..i + 1];
        i := i + 1;
      }
      assert tags[..i] == SweepPrefix(tags);
      forall e | e in old(head + body) && e !in tags[..n]
        ensures e.attrs == old(e.attrs)
      {
        if e in tags {
          var k :| 0 <= k < |tags| && tags[k] == e;
          assert k >= n;
        }
      }
    }

    /** The sweep of `removeTag(tag, …)` over the elements similar to `tag`. */
    method SweepSimilar(tag: Element, refuse: nat -> bool)
      requires Valid()
      modifies this, set e | e in head + body
      ensures Valid()
      ensures SweptFrom(old(SweepTargets(tag)), tag.nodeName == Script, old(head), old(body))
      ensures SweptEach(old(SweepTargets(tag)), SwappedAttr(tag.nodeName == Script), refuse)
      ensures AttrsKept(old(head + body), old(SweepPrefix(SweepTargets(tag))))
    {
      var tags := SweepTargets(tag);
      Sweep(tags, tag.nodeName == Script, refuse);
    }

    /** A detach that threw leaves the sweep targets as they were. */
    twostate lemma TargetsKept(tag: Element)
      requires unchanged(this) && unchanged(tag) && unchanged(set e | e in head + body)
      ensures SweepTargets(tag) == old(SweepTargets(tag))
      ensures forall e | e in SweepTargets(tag) :: ParentOf(e) == old(ParentOf(e)) && e.attrs == old(e.attrs)
    {
    }

    /**
     * The detach tries of `removeTag(tag, parent, cb, attempts)`: try to
     * detach `tag` from `parent`, and after a failure retry with the next
     * counter while `attempts <= 3`. Returns the outcome of the chain; when
     * every try failed the page is as it was.
     */
    method DetachTries(tag: Element, parent: Container, attempts: nat, refuse: nat -> bool) returns (outcome: Removal)
      requires Valid()
      modifies this
      ensures Valid()
      ensures outcome == Chain(attempts, DetachOk(old(ParentOf(tag)) == Some(parent), refuse))
      ensures outcome.Detached? ==> DetachedFrom(tag, parent, old(head), old(body))
      ensures outcome.Swept? ==> unchanged(this)
      ensures AttrsKept(old(head + body), [])
      decreases if attempts <= 3 then 4 - attempts else 0
    {
      ghost var detachOk := DetachOk(old(ParentOf(tag)) == Some(parent), refuse);
      var ok := RemoveChild(parent, tag, refuse(attempts));
      if ok {
        return Detached(attempts);
      }
      if attempts > 3 {
        return Swept(attempts);
      }
      assert Chain(attempts, detachOk) == Chain(attempts + 1, detachOk);
      outcome := DetachTries(tag, parent, attempts + 1, refuse);
    }

    /**
     * `removeTag(tag, parent, cb, attempts)`: the detach tries, then, when the
     * last one (counter above 3) failed, the sweep of the similar elements.
     * Returning is the callback `cb` being scheduled, which happens on every path.
     */
    method RemoveTag(tag: Element, parent: Container, attempts: nat, refuse: nat -> bool, sweepRefuse: nat -> bool)
      returns (outcome: Removal)
      requires Valid()
      modifies this, set e | e in head + body
      ensures Valid()
      ensures outcome == Chain(attempts, DetachOk(old(ParentOf(tag)) == Some(parent), refuse))
      ensures outcome.Detached? ==> DetachedFrom(tag, parent, old(head), old(body))
      ensures outcome.Swept? ==> SweptFrom(old(SweepTargets(tag)), tag.nodeName == Script, old(head), old(body))
      ensures outcome.Swept? ==> SweptEach(old(SweepTargets(tag)), SwappedAttr(tag.nodeName == Script), sweepRefuse)
      ensures outcome.Detached? ==> AttrsKept(old(head + body), [])
      ensures outcome.Swept? ==> AttrsKept(old(head + body), old(SweepPrefix(SweepTargets(tag))))
    {
      outcome := DetachTries(tag, parent, attempts, refuse);
      if outcome.Swept? {
        TargetsKept(tag);
        SweepSimilar(tag, sweepRefuse);
      }
    }

    /**
     * `replaceTag(tag, attr, after)`: nothing for a null tag; otherwise the
     * clone is appended to the tag's container and a race is armed. `null`
     * also stands for the exception thrown when `tag` lacks `attr`, which
     * leaves the page as it was.
     */
    method ReplaceTag(tag: Element?, attr: string, now: nat) returns (race: Race?)
      requires Valid()
      requires tag != null ==> DistinctNames(tag.attrs)
      modifies this
      ensures Valid()
      ensures race == null <==> tag == null || GetAttribute(tag.attrs, attr).None?
      ensures race == null ==> head == old(head) && body == old(body)
      ensures race != null ==>
        && fresh(race) && fresh(race.clone)
        && race.tag == tag && !race.already
        && race.parent == old(GetParent(tag))
        && Children(race.parent) == old(Children(GetParent(tag))) + [race.clone]
        && (race.parent == Head ==> body == old(body))
        && (race.parent == Body ==> head == old(head))
        && race.clone.nodeName == tag.nodeName
        && Some(race.clone.attrs) == ClonedAttrs(tag.nodeName, tag.attrs, attr, now)
    {
      if tag == null {
        return null;
      }
      var parent := GetParent(tag);
      var clone := CloneNode(tag, attr, now);
      if clone == null {
        return null;
      }
      AppendChild(parent, clone);
      race := new Race(tag, parent, clone);
    }

    /**
     * One of `onload`, `onerror` or the 200 ms timeout (`sig`) fires for
     * `race`. The first one runs `removeTag(tag, parent, …, 0)` and then hands
     * the clone to `after` (`done` is `Some(clone)`, `removal` the outcome of
     * the removal); every later one changes nothing.
     */
    method Signal(race: Race, sig: Signal, refuse: nat -> bool, sweepRefuse: nat -> bool)
      returns (done: Option<Element>, removal: Option<Removal>)
      requires Valid()
      modifies race, this, set e | e in head + body
      ensures Valid()
      ensures race.already
      ensures (if done.Some? then [sig] else []) == Finishes(old(race.already), [sig])
      ensures done == (if old(race.already) then None else Some(race.clone))
      ensures old(race.already) ==>
        && removal == None
        && head == old(head) && body == old(body)
        && AttrsKept(old(head + body), [])
      ensures !old(race.already) ==>
        removal == Some(Chain(0, DetachOk(old(ParentOf(race.tag)) == Some(race.parent), refuse)))
      ensures removal.Some? && removal.value.Detached? ==> DetachedFrom(race.tag, race.parent, old(head), old(body))
      ensures removal.Some? && removal.value.Swept? ==>
        && SweptFrom(old(SweepTargets(race.tag)), race.tag.nodeName == Script, old(head), old(body))
        && SweptEach(old(SweepTargets(race.tag)), SwappedAttr(race.tag.nodeName == Script), sweepRefuse)
      ensures removal.Some? && removal.value.Detached? ==> AttrsKept(old(head + body), [])
      ensures removal.Some? && removal.value.Swept? ==> AttrsKept(old(head + body), old(SweepPrefix(SweepTargets(race.tag))))
    {
      var fired := race.AfterFinish(sig);
      if !fired {
        return None, None;
      }
      TargetsKept(race.tag);
      var outcome := RemoveTag(race.tag, race.parent, 0, refuse, sweepRefuse);
      done, removal := Some(race.clone), Some(outcome);
    }
  }
}
