/** WorkingSet.resolve (pkg_resources.py): a work list that chooses one distribution per
    project, breadth first, until every requirement met on the way has been dealt with. */
module Resolve {

  datatype Option<T> = None | Some(value: T)

  datatype Req = Req(key: string, specs: seq<(string, string)>, extras: set<string>)
  datatype Dist = Dist(key: string, version: string, location: string)

  // What resolve() asks of its surroundings: the active distributions, the best match the
  // environment or the installer has for a requirement, whether a distribution satisfies a
  // requirement, and what a distribution requires in turn (None: unknown extra).
  datatype World = World(byKey: map<string, Dist>, bestMatch: Req -> Option<Dist>,
                         satisfies: (Dist, Req) -> bool, dependencies: (Dist, Req) -> Option<seq<Req>>)

  function Reverse(s: seq<Req>): (r: seq<Req>)
    ensures |r| == |s| && forall i | 0 <= i < |s| :: r[i] == s[|s| - 1 - i]
  {
    if s == [] then [] else Reverse(s[1..]) + [s[0]]
  }

  // ---------------------------------------------------------------------------
  // Reference: what the order of processing determines
  // ---------------------------------------------------------------------------

  // The first occurrences, in order.
  function Dedup(s: seq<Req>): seq<Req> {
    if s == [] then []
    else
      var d, last := Dedup(s[..|s| - 1]), s[|s| - 1];
      if last in d then d else d + [last]
  }

  // The distribution for a project: the active one, else the best match of the first
  // requirement for it.
  function Chosen(w: World, order: seq<Req>, key: string): Option<Dist> {
    if key in w.byKey then Some(w.byKey[key])
    else if order == [] then None
    else if Mentions(order[..|order| - 1], key) then Chosen(w, order[..|order| - 1], key)
    else if order[|order| - 1].key == key then w.bestMatch(order[|order| - 1])
    else None
  }

  predicate Mentions(order: seq<Req>, key: string) {
    exists i :: 0 <= i < |order| && order[i].key == key
  }

  // The last requirement of a nonempty order was met.
  predicate Met(w: World, order: seq<Req>)
    requires order != []
  {
    var r := order[|order| - 1];
    var d := Chosen(w, order, r.key);
    d.Some? && w.satisfies(d.value, r) && w.dependencies(d.value, r).Some?
  }

  predicate AllMet(w: World, order: seq<Req>) {
    order == [] || (AllMet(w, order[..|order| - 1]) && Met(w, order))
  }

  // What the last requirement adds to the work list.
  function Adds(w: World, order: seq<Req>): seq<Req>
    requires order != [] && Met(w, order)
  {
    var r := order[|order| - 1];
    Reverse(w.dependencies(Chosen(w, order, r.key).value, r).value)
  }

  function Added(w: World, order: seq<Req>): seq<Req>
    requires AllMet(w, order)
  {
    if order == [] then [] else Added(w, order[..|order| - 1]) + Adds(w, order)
  }

  // The work list from the first requirement on.
  function Work(w: World, inputs: seq<Req>, order: seq<Req>): seq<Req>
    requires AllMet(w, order)
  {
    Reverse(inputs) + Added(w, order)
  }

  // The distributions to activate: one per project that was not active, and one per
  // requirement on a project that was.
  function Activated(w: World, order: seq<Req>): seq<Dist>
    requires AllMet(w, order)
  {
    if order == [] then []
    else
      var prefix, key := order[..|order| - 1], order[|order| - 1].key;
      Activated(w, prefix) + (if key in w.byKey || !Mentions(prefix, key) then [Chosen(w, order, key).value] else [])
  }

  // After order, the next new requirement on the work list is req.
  ghost predicate Next(w: World, inputs: seq<Req>, order: seq<Req>, req: Req)
    requires AllMet(w, order)
  {
    && req !in order
    && var all := Work(w, inputs, order);
    exists n :: 0 <= n < |all| && all[n] == req && order == Dedup(all[..n])
  }

  // Every requirement was the next one when it was processed.
  ghost predicate Caused(w: World, inputs: seq<Req>, order: seq<Req>) {
    && AllMet(w, order)
    && (order == [] ||
        var prefix, last := order[..|order| - 1], order[|order| - 1];
        Caused(w, inputs, prefix) && Next(w, inputs, prefix, last))
  }

  // order is the complete result: nothing new is left on the work list.
  ghost predicate Resolved(w: World, inputs: seq<Req>, order: seq<Req>) {
    Caused(w, inputs, order) && order == Dedup(Work(w, inputs, order))
  }

  // order is the beginning of a result, and req comes next.
  ghost predicate Reached(w: World, inputs: seq<Req>, order: seq<Req>, req: Req) {
    Caused(w, inputs, order) && Next(w, inputs, order, req)
  }

  datatype Outcome =
    | Activate(dists: seq<Dist>)
    | NotFound(req: Req)
    | Conflict(dist: Dist, req: Req)
    | UnknownExtra(dist: Dist, req: Req)

  // What each outcome means.
  ghost predicate Explains(w: World, inputs: seq<Req>, order: seq<Req>, o: Outcome) {
    match o
    case Activate(dists) => Resolved(w, inputs, order) && dists == Activated(w, order)
    case NotFound(r) =>
      Reached(w, inputs, order, r) && Chosen(w, order + [r], r.key).None?
    case Conflict(d, r) =>
      Reached(w, inputs, order, r) && Chosen(w, order + [r], r.key) == Some(d) && !w.satisfies(d, r)
    case UnknownExtra(d, r) =>
      && Reached(w, inputs, order, r) && Chosen(w, order + [r], r.key) == Some(d) && w.satisfies(d, r)
      && w.dependencies(d, r).None?
  }

  // All requirements that can ever come up.
  ghost predicate Closed(w: World, universe: set<Req>) {
    forall d, r, i {:trigger w.dependencies(d, r).value[i]} ::
      r in universe && w.dependencies(d, r).Some? && 0 <= i < |w.dependencies(d, r).value| ==>
        w.dependencies(d, r).value[i] in universe
  }

  ghost predicate Within(s: seq<Req>, universe: set<Req>) { forall i :: 0 <= i < |s| ==> s[i] in universe }

  // The table of chosen distributions that resolve() keeps.
  ghost predicate BestOf(w: World, order: seq<Req>, best: map<string, Dist>) {
    && (forall k :: k in best <==> k !in w.byKey && Mentions(order, k))
    && (forall k :: k in best ==> Chosen(w, order, k) == Some(best[k]))
  }

  // ---------------------------------------------------------------------------
  // One more requirement
  // ---------------------------------------------------------------------------

  lemma DedupSnoc(s: seq<Req>, r: Req)
    ensures Dedup(s + [r]) == if r in Dedup(s) then Dedup(s) else Dedup(s) + [r]
  {
    assert (s + [r])[..|s|] == s;
  }

  lemma ChosenSnoc(w: World, order: seq<Req>, r: Req, key: string)
    ensures Chosen(w, order + [r], key) ==
            if key in w.byKey || Mentions(order, key) then Chosen(w, order, key)
            else if r.key == key then w.bestMatch(r) else None
    ensures Mentions(order + [r], key) <==> Mentions(order, key) || r.key == key
  {
    assert (order + [r])[..|order|] == order;
    var s := order + [r];
    assert s[|order|] == r;
    if Mentions(order, key) {
      var i :| 0 <= i < |order| && order[i].key == key;
      assert s[i].key == key;
    }
  }

  lemma MetSnoc(w: World, order: seq<Req>, r: Req)
    requires AllMet(w, order) && Met(w, order + [r])
    ensures AllMet(w, order + [r])
    ensures Added(w, order + [r]) == Added(w, order) + Adds(w, order + [r])
    ensures Activated(w, order + [r]) ==
            Activated(w, order) +
            (if r.key in w.byKey || !Mentions(order, r.key) then [Chosen(w, order + [r], r.key).value] else [])
  {
    hide Met, Adds, Chosen, Mentions;
    assert (order + [r])[..|order|] == order;
  }

  // ---------------------------------------------------------------------------
  // The work list
  // ---------------------------------------------------------------------------

  // What the loop has done so far.
  ghost predicate Progress(w: World, inputs: seq<Req>, popped: seq<Req>, queue: seq<Req>, order: seq<Req>) {
    Caused(w, inputs, order) && popped + queue == Work(w, inputs, order) && order == Dedup(popped)
  }

  lemma CausedMet(w: World, inputs: seq<Req>, order: seq<Req>)
    requires Caused(w, inputs, order)
    ensures AllMet(w, order)
  {}

  lemma Seen(w: World, inputs: seq<Req>, popped: seq<Req>, queue: seq<Req>, order: seq<Req>)
    requires Progress(w, inputs, popped, queue, order) && queue != [] && queue[0] in order
    ensures Progress(w, inputs, popped + [queue[0]], queue[1..], order)
  {
    hide AllMet, Work, Dedup, Caused;
    CausedMet(w, inputs, order);
    DedupSnoc(popped, queue[0]);
    assert popped + [queue[0]] + queue[1..] == popped + queue;
  }

  lemma Reaches(w: World, inputs: seq<Req>, popped: seq<Req>, queue: seq<Req>, order: seq<Req>)
    requires Progress(w, inputs, popped, queue, order) && queue != [] && queue[0] !in order
    ensures Reached(w, inputs, order, queue[0])
  {
    hide AllMet, Work, Dedup;
    CausedMet(w, inputs, order);
    hide Caused;
    var all := Work(w, inputs, order);
    assert all == popped + queue;
    assert all[|popped|] == queue[0] && all[..|popped|] == popped;
  }

  lemma Processed(w: World, inputs: seq<Req>, popped: seq<Req>, queue: seq<Req>, order: seq<Req>)
    requires Progress(w, inputs, popped, queue, order) && queue != [] && queue[0] !in order
    requires Met(w, order + [queue[0]])
    ensures Progress(w, inputs, popped + [queue[0]], queue[1..] + Adds(w, order + [queue[0]]), order + [queue[0]])
  {
    hide AllMet, Dedup, Met, Adds, Next, Work, Caused;
    var r := queue[0];
    CausedMet(w, inputs, order);
    Reaches(w, inputs, popped, queue, order);
    DedupSnoc(popped, r);
    MetSnoc(w, order, r);
    CausedNext(w, inputs, order, r);
    WorkNext(w, inputs, order, r);
    assert popped + [r] + (queue[1..] + Adds(w, order + [r])) == popped + queue + Adds(w, order + [r]);
  }

  lemma CausedNext(w: World, inputs: seq<Req>, order: seq<Req>, r: Req)
    requires Reached(w, inputs, order, r) && AllMet(w, order + [r])
    ensures Caused(w, inputs, order + [r])
  {
    hide AllMet, Next;
    assert (order + [r])[..|order|] == order;
  }

  lemma WorkNext(w: World, inputs: seq<Req>, order: seq<Req>, r: Req)
    requires AllMet(w, order) && Met(w, order + [r]) && AllMet(w, order + [r])
    ensures Work(w, inputs, order + [r]) == Work(w, inputs, order) + Adds(w, order + [r])
  {
    hide AllMet, Met, Adds, Added, Reverse;
    MetSnoc(w, order, r);
  }

  lemma Started(w: World, inputs: seq<Req>)
    ensures AllMet(w, []) && Progress(w, inputs, [], Reverse(inputs), []) && Activated(w, []) == []
  {}

  lemma Finished(w: World, inputs: seq<Req>, popped: seq<Req>, order: seq<Req>)
    requires Progress(w, inputs, popped, [], order)
    ensures Resolved(w, inputs, order)
  {
    hide AllMet, Work, Dedup, Caused;
    assert popped + [] == popped;
  }

  // Finding the distribution for a requirement, and noting it.
  method Pick(w: World, req: Req, best: map<string, Dist>, active: seq<Dist>, ghost order: seq<Req>)
    returns (dist: Option<Dist>, best': map<string, Dist>, active': seq<Dist>)
    requires BestOf(w, order, best)
    ensures dist == Chosen(w, order + [req], req.key)
    ensures dist.Some? ==> BestOf(w, order + [req], best')
    ensures dist.Some? ==>
              active' == active + (if req.key in w.byKey || !Mentions(order, req.key) then [dist.value] else [])
  {
    hide Chosen, Mentions;
    ChosenSnoc(w, order, req, req.key);
    ChosenActive(w, order, req.key);
    best', active' := best, active;
    forall k ensures Chosen(w, order + [req], k) ==
            (if k in w.byKey || Mentions(order, k) then Chosen(w, order, k)
            else if req.key == k then w.bestMatch(req) else None)
            && (Mentions(order + [req], k) <==> Mentions(order, k) || req.key == k)
    {
      ChosenSnoc(w, order, req, k);
    }
    if req.key in best {
      dist := Some(best[req.key]);
    } else {
      if req.key in w.byKey {
        dist := Some(w.byKey[req.key]);
      } else {
        dist := w.bestMatch(req);
        if dist.None? {
          return;
        }
        best' := best[req.key := dist.value];
      }
      active' := active + [dist.value];
    }
  }

  lemma ChosenActive(w: World, order: seq<Req>, key: string)
    ensures key in w.byKey ==> Chosen(w, order, key) == Some(w.byKey[key])
  {}

  method Resolve(w: World, inputs: seq<Req>, ghost universe: set<Req>) returns (o: Outcome)
    requires Within(inputs, universe) && Closed(w, universe)
    ensures exists order :: Explains(w, inputs, order, o)
  {
    hide AllMet, Dedup, Work, Activated, Progress, Reached, Resolved, Chosen, BestOf, Closed;
    hide Met, Adds, Mentions, Within, Reverse;
    assert Within(Reverse(inputs), universe) by { WithinReverse(inputs, universe); }
    var queue := Reverse(inputs);
    var processed: set<Req> := {};
    var best: map<string, Dist> := map[];
    var active: seq<Dist> := [];
    ghost var order: seq<Req> := [];
    ghost var popped: seq<Req> := [];
    Started(w, inputs);
    BestNone(w);
    while queue != []
      invariant Progress(w, inputs, popped, queue, order) && AllMet(w, order) && active == Activated(w, order)
      invariant forall r :: r in processed <==> r in order
      invariant BestOf(w, order, best)
      invariant Within(queue, universe)
      decreases |universe - processed|, |queue|
    {
      var req := queue[0];
      WithinFirst(queue, universe);
      if req in processed {
        Seen(w, inputs, popped, queue, order);
        popped := popped + [req];
        queue := queue[1..];
        continue;
      }
      Reaches(w, inputs, popped, queue, order);
      var dist: Option<Dist>;
      dist, best, active := Pick(w, req, best, active, order);
      if dist.None? {
        o := NotFound(req);
        assert Explains(w, inputs, order, o);
        return;
      }
      if !w.satisfies(dist.value, req) {
        o := Conflict(dist.value, req);
        assert Explains(w, inputs, order, o);
        return;
      }
      var more := w.dependencies(dist.value, req);
      if more.None? {
        o := UnknownExtra(dist.value, req);
        assert Explains(w, inputs, order, o);
        return;
      }
      MetBy(w, order, req, dist.value, more.value);
      Processed(w, inputs, popped, queue, order);
      MetSnoc(w, order, req);
      Grow(w, universe, dist.value, req, more.value, queue[1..]);
      Smaller(universe, processed, req);
      popped := popped + [req];
      queue := queue[1..] + Reverse(more.value);
      order := order + [req];
      processed := processed + {req};
    }
    Finished(w, inputs, popped, order);
    o := Activate(active);
    assert Explains(w, inputs, order, o);
  }

  lemma BestNone(w: World)
    ensures BestOf(w, [], map[])
  {}

  lemma WithinReverse(s: seq<Req>, universe: set<Req>)
    requires Within(s, universe)
    ensures Within(Reverse(s), universe)
  {}

  lemma WithinFirst(s: seq<Req>, universe: set<Req>)
    requires Within(s, universe) && s != []
    ensures s[0] in universe && Within(s[1..], universe)
  {}

  lemma Grow(w: World, universe: set<Req>, d: Dist, r: Req, more: seq<Req>, rest: seq<Req>)
    requires Closed(w, universe) && r in universe && w.dependencies(d, r) == Some(more) && Within(rest, universe)
    ensures Within(rest + Reverse(more), universe)
  {
    assert forall i | 0 <= i < |more| :: w.dependencies(d, r).value[i] in universe;
  }

  lemma MetBy(w: World, order: seq<Req>, r: Req, d: Dist, more: seq<Req>)
    requires Chosen(w, order + [r], r.key) == Some(d) && w.satisfies(d, r) && w.dependencies(d, r) == Some(more)
    ensures Met(w, order + [r]) && Adds(w, order + [r]) == Reverse(more)
  {
    hide Chosen, Reverse;
  }

  lemma Smaller(universe: set<Req>, processed: set<Req>, r: Req)
    requires r in universe && r !in processed
    ensures |universe - (processed + {r})| < |universe - processed|
  {
    assert universe - (processed + {r}) == universe - processed - {r};
  }

  // ---------------------------------------------------------------------------
  // What a result means
  // ---------------------------------------------------------------------------

  lemma {:induction false} DedupMembers(s: seq<Req>)
    ensures forall r :: r in Dedup(s) <==> r in s
    ensures forall i, j :: 0 <= i < j < |Dedup(s)| ==> Dedup(s)[i] != Dedup(s)[j]
    decreases |s|
  {
    if s != [] {
      var p, last := s[..|s| - 1], s[|s| - 1];
      DedupMembers(p);
      assert s == p + [last];
    }
  }

  // A choice once made stays.
  lemma {:induction false} ChosenStays(w: World, order: seq<Req>, n: nat, key: string)
    requires n <= |order| && (key in w.byKey || Mentions(order[..n], key))
    ensures Chosen(w, order, key) == Chosen(w, order[..n], key)
    decreases |order|
  {
    if n == |order| {
      assert order[..n] == order;
    } else {
      var p := order[..|order| - 1];
      assert p[..n] == order[..n];
      ChosenStays(w, p, n, key);
      if key !in w.byKey {
        MentionsMore(order, n, |order| - 1, key);
      }
    }
  }

  lemma MentionsMore(order: seq<Req>, n: nat, m: nat, key: string)
    requires n <= m <= |order| && Mentions(order[..n], key)
    ensures Mentions(order[..m], key)
  {
    var i :| 0 <= i < n && order[..n][i].key == key;
    assert order[..m][i].key == key;
  }

  // The choice for a project that was not active is the best match of the first requirement
  // for it.
  lemma {:induction false} ChosenFirst(w: World, order: seq<Req>, n: nat)
    requires n < |order| && order[n].key !in w.byKey && !Mentions(order[..n], order[n].key)
    ensures Chosen(w, order, order[n].key) == w.bestMatch(order[n])
  {
    var key, p := order[n].key, order[..n + 1];
    assert p == order[..n] + [order[n]];
    ChosenSnoc(w, order[..n], order[n], key);
    ChosenStays(w, order, n + 1, key);
  }

  // With all projects active already, there is one entry per requirement.
  lemma {:induction false} AllActive(w: World, order: seq<Req>)
    requires AllMet(w, order) && forall i :: 0 <= i < |order| ==> order[i].key in w.byKey
    ensures |Activated(w, order)| == |order|
    ensures forall i :: 0 <= i < |order| ==> Activated(w, order)[i] == w.byKey[order[i].key]
    decreases |order|
  {
    if order != [] {
      AllActive(w, order[..|order| - 1]);
    }
  }

  predicate Inactive(w: World, order: seq<Req>) {
    forall i :: 0 <= i < |order| ==> order[i].key !in w.byKey
  }

  ghost predicate Keys(order: seq<Req>, keys: set<string>) { forall k :: k in keys <==> Mentions(order, k) }

  lemma KeysNext(w: World, order: seq<Req>, r: Req, keys: set<string>)
    requires Keys(order, keys)
    ensures Keys(order + [r], keys + {r.key})
    ensures r.key in keys <==> Mentions(order, r.key)
  {
    hide Mentions;
    forall k ensures k in keys + {r.key} <==> Mentions(order + [r], k) {
      ChosenSnoc(w, order, r, k);
    }
  }

  // With none active, there is one entry per project.
  lemma {:induction false} NoneActive(w: World, order: seq<Req>) returns (keys: set<string>)
    requires AllMet(w, order) && Inactive(w, order)
    ensures Keys(order, keys) && |Activated(w, order)| == |keys|
    decreases |order|
  {
    if order == [] {
      keys := {};
    } else {
      var p, r := order[..|order| - 1], order[|order| - 1];
      assert order == p + [r];
      keys := NoneActive(w, p);
      NoneActiveNext(w, p, r, keys);
      keys := keys + {r.key};
    }
  }

  lemma NoneActiveNext(w: World, order: seq<Req>, r: Req, keys: set<string>)
    requires AllMet(w, order) && Met(w, order + [r]) && r.key !in w.byKey
    requires Keys(order, keys) && |Activated(w, order)| == |keys|
    ensures Keys(order + [r], keys + {r.key})
    ensures AllMet(w, order + [r]) && |Activated(w, order + [r])| == |keys + {r.key}|
  {
    hide AllMet, Met, Chosen, Mentions, Activated, Keys;
    MetSnoc(w, order, r);
    KeysNext(w, order, r, keys);
    assert r.key in keys ==> keys + {r.key} == keys;
  }

  // A requirement of the result against the distribution finally chosen.
  ghost predicate Holds(w: World, order: seq<Req>, r: Req) {
    var d := Chosen(w, order, r.key);
    && d.Some? && w.satisfies(d.value, r) && w.dependencies(d.value, r).Some?
  }

  lemma {:induction false} AllHold(w: World, order: seq<Req>, n: nat)
    requires AllMet(w, order) && n < |order|
    ensures AllMet(w, order[..n + 1]) && Met(w, order[..n + 1])
    ensures Holds(w, order, order[n])
    ensures Adds(w, order[..n + 1]) == Reverse(w.dependencies(Chosen(w, order, order[n].key).value, order[n]).value)
    decreases |order| - n
  {
    PrefixMet(w, order, n + 1);
    var p := order[..n + 1];
    assert p[n].key == order[n].key;
    ChosenStays(w, order, n + 1, order[n].key);
    hide Chosen, Mentions;
  }

  lemma {:induction false} PrefixMet(w: World, order: seq<Req>, n: nat)
    requires AllMet(w, order) && n <= |order|
    ensures AllMet(w, order[..n]) && (n > 0 ==> Met(w, order[..n]))
    decreases |order|
  {
    hide Met;
    if n < |order| {
      var p := order[..|order| - 1];
      assert p[..n] == order[..n];
      PrefixMet(w, p, n);
    } else {
      assert order[..n] == order;
    }
  }

  // The work list only grows.
  lemma {:induction false} AddedAt(w: World, order: seq<Req>, n: nat)
    requires AllMet(w, order) && n < |order|
    ensures AllMet(w, order[..n + 1]) && Met(w, order[..n + 1])
    ensures forall x :: x in Adds(w, order[..n + 1]) ==> x in Added(w, order)
    decreases |order|
  {
    hide Met, Adds;
    PrefixMet(w, order, n + 1);
    var p := order[..|order| - 1];
    if n < |p| {
      assert p[..n + 1] == order[..n + 1];
      AddedAt(w, p, n);
    } else {
      assert order[..n + 1] == order;
    }
  }

  // A set of requirements closed under what the chosen distributions require.
  ghost predicate ClosedUnder(w: World, order: seq<Req>, q: set<Req>) {
    forall i, x :: 0 <= i < |order| && order[i] in q && Needs(w, order, order[i], x) ==> x in q
  }

  ghost predicate Needs(w: World, order: seq<Req>, r: Req, x: Req) {
    var d := Chosen(w, order, r.key);
    d.Some? && w.dependencies(d.value, r).Some? && x in w.dependencies(d.value, r).value
  }

  lemma InReverse(s: seq<Req>, x: Req)
    ensures x in Reverse(s) <==> x in s
  {
    if x in s {
      var i :| 0 <= i < |s| && s[i] == x;
      assert Reverse(s)[|s| - 1 - i] == x;
    }
  }

  // The processed requirements contain the inputs and are closed under the requirements of
  // the chosen distributions; one distribution per project satisfies them all.
  lemma Complete(w: World, inputs: seq<Req>, order: seq<Req>)
    requires Resolved(w, inputs, order)
    ensures forall r :: r in inputs ==> r in order
    ensures forall i :: 0 <= i < |order| ==> Holds(w, order, order[i])
    ensures forall i, x :: 0 <= i < |order| && Needs(w, order, order[i], x) ==> x in order
  {
    hide Caused, Dedup, Chosen;
    CausedMet(w, inputs, order);
    DedupMembers(Work(w, inputs, order));
    forall r | r in inputs ensures r in order {
      InReverse(inputs, r);
    }
    forall i | 0 <= i < |order| ensures Holds(w, order, order[i]) {
      AllHold(w, order, i);
    }
    forall i, x | 0 <= i < |order| && Needs(w, order, order[i], x) ensures x in order {
      AllHold(w, order, i);
      AddedAt(w, order, i);
      InReverse(w.dependencies(Chosen(w, order, order[i].key).value, order[i]).value, x);
    }
  }

  lemma {:induction false} PrefixCaused(w: World, inputs: seq<Req>, order: seq<Req>, n: nat)
    requires Caused(w, inputs, order) && n < |order|
    ensures Caused(w, inputs, order[..n]) && Next(w, inputs, order[..n], order[n])
    decreases |order|
  {
    hide Next, AllMet;
    if n < |order| - 1 {
      var p := order[..|order| - 1];
      assert p[..n] == order[..n] && p[n] == order[n];
      PrefixCaused(w, inputs, p, n);
    }
  }

  lemma NextOnWork(w: World, inputs: seq<Req>, order: seq<Req>, r: Req)
    requires AllMet(w, order) && Next(w, inputs, order, r)
    ensures r in Work(w, inputs, order) && r !in order
  {
    hide Work;
  }

  // Nothing was processed without need: every set that contains the inputs and is closed
  // contains the processed requirements and the whole work list.
  lemma {:induction false} Least(w: World, inputs: seq<Req>, order: seq<Req>, q: set<Req>, n: nat)
    requires Caused(w, inputs, order) && AllMet(w, order) && ClosedUnder(w, order, q) && n <= |order|
    requires forall r :: r in inputs ==> r in q
    ensures AllMet(w, order[..n])
    ensures forall i :: 0 <= i < n ==> order[i] in q
    ensures forall x :: x in Work(w, inputs, order[..n]) ==> x in q
  {
    hide Caused, Next, Chosen, Reverse, Met, Adds, Work, AllMet, Needs;
    PrefixMet(w, order, n);
    if n == 0 {
      forall x | x in Work(w, inputs, order[..n]) ensures x in q {
        WorkNone(w, inputs, order[..n]);
        InReverse(inputs, x);
      }
    } else {
      Least(w, inputs, order, q, n - 1);
      PrefixCaused(w, inputs, order, n - 1);
      NextOnWork(w, inputs, order[..n - 1], order[n - 1]);
      forall x | x in Work(w, inputs, order[..n]) ensures x in q {
        NeedsAdds(w, order, n - 1, x);
        WorkSnoc(w, inputs, order[..n]);
        assert order[..n][..n - 1] == order[..n - 1];
      }
    }
  }

  lemma WorkNone(w: World, inputs: seq<Req>, order: seq<Req>)
    requires order == []
    ensures AllMet(w, order) && Work(w, inputs, order) == Reverse(inputs)
  {
    hide Reverse;
  }

  lemma NeedsAdds(w: World, order: seq<Req>, n: nat, x: Req)
    requires AllMet(w, order) && n < |order|
    ensures Met(w, order[..n + 1])
    ensures x in Adds(w, order[..n + 1]) <==> Needs(w, order, order[n], x)
  {
    AllHold(w, order, n);
    hide Chosen, Reverse;
    InReverse(w.dependencies(Chosen(w, order, order[n].key).value, order[n]).value, x);
  }

  lemma WorkSnoc(w: World, inputs: seq<Req>, order: seq<Req>)
    requires AllMet(w, order) && order != []
    ensures AllMet(w, order[..|order| - 1]) && Met(w, order)
    ensures Work(w, inputs, order) == Work(w, inputs, order[..|order| - 1]) + Adds(w, order)
  {
    hide Reverse, Adds;
  }

  // When resolution stops early, the requirement it stopped at is in every set that contains
  // the inputs and is closed: no such set can be satisfied by the distributions chosen.
  lemma StoppedForGood(w: World, inputs: seq<Req>, order: seq<Req>, o: Outcome, q: set<Req>)
    requires Explains(w, inputs, order, o) && !o.Activate? && ClosedUnder(w, order, q)
    requires forall r :: r in inputs ==> r in q
    ensures o.req in q && !Holds(w, order + [o.req], o.req)
  {
    hide Caused, Next, Chosen, Work;
    CausedMet(w, inputs, order);
    Least(w, inputs, order, q, |order|);
    assert order[..|order|] == order;
    NextOnWork(w, inputs, order, o.req);
  }

  // What is activated is exactly what was chosen.
  lemma {:induction false} ActivatedChosen(w: World, order: seq<Req>, n: nat)
    requires AllMet(w, order) && n <= |order|
    ensures AllMet(w, order[..n])
    ensures Covers(w, order, n, Activated(w, order[..n]))
    ensures AllPicked(w, order, n, Activated(w, order[..n]))
  {
    PrefixMet(w, order, n);
    if n > 0 {
      ActivatedChosen(w, order, n - 1);
      AllHold(w, order, n - 1);
      ActivatedAt(w, order, n);
      hide Chosen, Activated, AllMet;
      ActivatedStep(w, order, n, Activated(w, order[..n - 1]));
    }
  }

  lemma ActivatedAt(w: World, order: seq<Req>, n: nat)
    requires AllMet(w, order) && 0 < n <= |order| && AllMet(w, order[..n]) && AllMet(w, order[..n - 1])
    requires Chosen(w, order, order[n - 1].key).Some?
    ensures var key := order[n - 1].key;
            Activated(w, order[..n]) == Activated(w, order[..n - 1]) +
              (if key in w.byKey || !Mentions(order[..n - 1], key) then [Chosen(w, order, key).value] else [])
  {
    var p := order[..n];
    assert p[n - 1].key == order[n - 1].key && p[..n - 1] == order[..n - 1];
    ChosenStays(w, order, n, order[n - 1].key);
    hide Chosen, Mentions, AllMet;
  }

  lemma ActivatedStep(w: World, order: seq<Req>, n: nat, ds: seq<Dist>)
    requires 0 < n <= |order| && Covers(w, order, n - 1, ds) && AllPicked(w, order, n - 1, ds)
    requires Chosen(w, order, order[n - 1].key).Some?
    ensures var key := order[n - 1].key;
            var first := key in w.byKey || !Mentions(order[..n - 1], key);
            var es := ds + (if first then [Chosen(w, order, key).value] else []);
            Covers(w, order, n, es) && AllPicked(w, order, n, es)
  {
    hide Chosen;
    var key := order[n - 1].key;
    PickedMore(w, order, n, ds);
    var d := Chosen(w, order, key).value;
    assert Picked(w, order, n, d);
    if Mentions(order[..n - 1], key) {
      var i :| 0 <= i < n - 1 && order[..n - 1][i].key == key;
      assert order[i].key == key;
    }
  }

  lemma PickedMore(w: World, order: seq<Req>, n: nat, ds: seq<Dist>)
    requires 0 < n <= |order| && AllPicked(w, order, n - 1, ds)
    ensures AllPicked(w, order, n, ds)
  {
    hide Chosen;
    forall k | 0 <= k < |ds| ensures Picked(w, order, n, ds[k]) {
      assert Picked(w, order, n - 1, ds[k]);
    }
  }

  ghost predicate Covers(w: World, order: seq<Req>, n: nat, dists: seq<Dist>)
    requires n <= |order|
  {
    forall i :: 0 <= i < n ==> Chosen(w, order, order[i].key).Some? && Chosen(w, order, order[i].key).value in dists
  }

  ghost predicate Picked(w: World, order: seq<Req>, n: nat, d: Dist)
    requires n <= |order|
  {
    exists i :: 0 <= i < n && Chosen(w, order, order[i].key) == Some(d)
  }

  ghost predicate AllPicked(w: World, order: seq<Req>, n: nat, dists: seq<Dist>)
    requires n <= |order|
  {
    forall k :: 0 <= k < |dists| ==> Picked(w, order, n, dists[k])
  }

  // The result does not depend on anything but the inputs.
  lemma NextUnique(w: World, inputs: seq<Req>, order: seq<Req>, a: Req, b: Req)
    requires AllMet(w, order) && Next(w, inputs, order, a) && Next(w, inputs, order, b)
    ensures a == b
  {
    hide AllMet, Work, Dedup;
    var all := Work(w, inputs, order);
    var n :| 0 <= n < |all| && all[n] == a && order == Dedup(all[..n]);
    var m :| 0 <= m < |all| && all[m] == b && order == Dedup(all[..m]);
    NewAt(all, order, n, m);
    NewAt(all, order, m, n);
  }

  // An element that is not in order comes after everything order was made of.
  lemma NewAt(all: seq<Req>, order: seq<Req>, n: nat, m: nat)
    requires n < |all| && m < |all| && all[n] !in order && order == Dedup(all[..m])
    ensures m <= n
  {
    hide Dedup;
    DedupMembers(all[..m]);
    assert forall i | 0 <= i < m :: all[..m][i] in order;
    assert forall i | 0 <= i < m :: all[..m][i] == all[i];
  }

  lemma {:induction false} SamePrefix(w: World, inputs: seq<Req>, s: seq<Req>, t: seq<Req>, n: nat)
    requires Caused(w, inputs, s) && Caused(w, inputs, t) && n <= |s| && n <= |t|
    ensures s[..n] == t[..n]
  {
    hide AllMet, Next, Caused;
    if n > 0 {
      SamePrefix(w, inputs, s, t, n - 1);
      PrefixCaused(w, inputs, s, n - 1);
      PrefixCaused(w, inputs, t, n - 1);
      CausedMet(w, inputs, s[..n - 1]);
      NextUnique(w, inputs, s[..n - 1], s[n - 1], t[n - 1]);
      assert s[..n] == s[..n - 1] + [s[n - 1]] && t[..n] == t[..n - 1] + [t[n - 1]];
    }
  }

  lemma NotLonger(w: World, inputs: seq<Req>, s: seq<Req>, t: seq<Req>)
    requires Resolved(w, inputs, s) && Caused(w, inputs, t)
    ensures |t| <= |s|
  {
    hide AllMet, Work, Dedup, Next;
    if |s| < |t| {
      SamePrefix(w, inputs, s, t, |s|);
      assert s[..|s|] == s;
      PrefixCaused(w, inputs, t, |s|);
      CausedMet(w, inputs, s);
      NextOnWork(w, inputs, s, t[|s|]);
      DedupMembers(Work(w, inputs, s));
    }
  }

  lemma ResultUnique(w: World, inputs: seq<Req>, s: seq<Req>, t: seq<Req>)
    requires Resolved(w, inputs, s) && Resolved(w, inputs, t)
    ensures s == t
  {
    hide AllMet, Work, Dedup, Next, Caused;
    NotLonger(w, inputs, s, t);
    NotLonger(w, inputs, t, s);
    SamePrefix(w, inputs, s, t, |s|);
    assert s[..|s|] == s && t[..|t|] == t;
  }
}
