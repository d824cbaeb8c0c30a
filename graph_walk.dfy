/** What graph.py does with a built action list: resolving affects to the actions they
    target, walking the actions reachable from a set of roots, finding the roots an
    external action triggers, and writing the reachable part as a dot digraph. */
module GraphWalk {
  import opened Wrappers
  import opened Seqs
  import Deps
  import opened Graph

  // ---------------------------------------------------------------------------
  // resolving an affect
  // ---------------------------------------------------------------------------

  /** affect.action: the context's action under the affect's (group_id, action_id) key.
      A NULL action id never matches, since every context key holds two ints. */
  function Resolve(m: map<ActionKey, Action>, af: Affect): (r: Result<ActionKey, BuildError>)
    ensures r.Ok? <==> af.actionId.Some? && (af.groupId, af.actionId.value) in m
    ensures r.Ok? ==> r.value == (af.groupId, af.actionId.value) && r.value in m
    ensures r.Err? ==> r.error == KeyMissing("actions", PairKey(af.groupId, af.actionId))
  {
    if af.actionId.Some? && (af.groupId, af.actionId.value) in m then Ok((af.groupId, af.actionId.value))
    else Err(KeyMissing("actions", PairKey(af.groupId, af.actionId)))
  }

  /** How a lookup mixin reaches the context. As written, the context is declared an
      InitVar, which the constructor receives and drops: no instance has a `_ctx`
      attribute, and every lookup raises. The rest of this model uses the context the
      builder filled. */
  datatype Lookup = InitVarLookup | ContextLookup(actions: map<ActionKey, Action>)

  function AffectAction(lookup: Lookup, af: Affect): (r: Result<ActionKey, BuildError>)
    ensures lookup.InitVarLookup? ==> r == Err(NoAttribute("_ctx"))
    ensures lookup.ContextLookup? ==> r == Resolve(lookup.actions, af)
  {
    match lookup
    case InitVarLookup => Err(NoAttribute("_ctx"))
    case ContextLookup(m) => Resolve(m, af)
  }

  /** The affect resolves to an action in T. */
  predicate ResolvesInto(m: map<ActionKey, Action>, af: Affect, T: set<ActionKey>) {
    Resolve(m, af).Ok? && Resolve(m, af).value in T
  }

  /** Every action of S is in the context and every one of its affects resolves into T. */
  predicate ClosedOver(m: map<ActionKey, Action>, S: set<ActionKey>, T: set<ActionKey>) {
    forall k :: k in S ==> k in m && forall af :: af in m[k].Affects() ==> ResolvesInto(m, af, T)
  }

  /** T is closed under following affects. */
  predicate Closed(m: map<ActionKey, Action>, T: set<ActionKey>) {
    ClosedOver(m, T, T)
  }

  /** R is what walking from the roots must produce: the least closed set holding them. */
  ghost predicate IsReach(m: map<ActionKey, Action>, roots: set<ActionKey>, R: set<ActionKey>) {
    && roots <= R && Closed(m, R)
    && forall T :: Closed(m, T) && roots <= T ==> R <= T
  }

  /** The least closed set is unique, so the order the roots are walked in, which Python
      leaves to set iteration, cannot change the reachable set. */
  lemma ReachUnique(m: map<ActionKey, Action>, roots: set<ActionKey>, A: set<ActionKey>, B: set<ActionKey>)
    requires IsReach(m, roots, A) && IsReach(m, roots, B)
    ensures A == B
  {
    assert A <= B;
    assert B <= A;
  }

  /** Walking again from everything reached reaches nothing new. */
  lemma ReachIdempotent(m: map<ActionKey, Action>, roots: set<ActionKey>, R: set<ActionKey>)
    requires IsReach(m, roots, R)
    ensures IsReach(m, R, R)
  {
  }

  /** Growing the target keeps a set closed over it. */
  lemma ClosedOverGrow(m: map<ActionKey, Action>, S: set<ActionKey>, T: set<ActionKey>, U: set<ActionKey>)
    requires ClosedOver(m, S, T) && T <= U
    ensures ClosedOver(m, S, U)
  {
  }

  // ---------------------------------------------------------------------------
  // _walk
  // ---------------------------------------------------------------------------

  /** _walk: add the action, then walk the targets of its start affects and of its
      complete affects, skipping actions already reached. */
  method Walk(m: map<ActionKey, Action>, k: ActionKey, reachable: set<ActionKey>) returns (r: Result<set<ActionKey>, BuildError>)
    requires k in m
    decreases m.Keys - reachable
    ensures k in reachable ==> r == Ok(reachable)
    ensures r.Ok? ==> reachable + {k} <= r.value <= reachable + m.Keys
    ensures r.Ok? ==> ClosedOver(m, r.value - reachable, r.value)
    ensures forall T :: Closed(m, T) && k in T && reachable <= T ==> r.Ok? && r.value <= T
    ensures r.Err? ==> r.error.KeyMissing? && r.error.table == "actions"
  {
    if k in reachable {
      return Ok(reachable);
    }
    var action := m[k];
    var afterStart := WalkEach(m, k, action.startAffects, reachable, reachable + {k});
    if afterStart.Err? {
      return afterStart;
    }
    var afterComplete := WalkEach(m, k, action.completeAffects, reachable, afterStart.value);
    if afterComplete.Err? {
      return afterComplete;
    }
    var cur := afterComplete.value;
    assert forall af :: af in action.Affects() ==> af in action.startAffects || af in action.completeAffects;
    return Ok(cur);
  }

  /** One of _walk's loops: walk the target of each affect in the list in turn. */
  method WalkEach(m: map<ActionKey, Action>, k: ActionKey, affects: seq<Affect>, reachable: set<ActionKey>, cur0: set<ActionKey>)
    returns (r: Result<set<ActionKey>, BuildError>)
    requires k in m && k !in reachable && forall af :: af in affects ==> af in m[k].Affects()
    requires reachable + {k} <= cur0 <= reachable + m.Keys
    requires ClosedOver(m, cur0 - reachable - {k}, cur0)
    decreases m.Keys - reachable, 1
    ensures r.Ok? ==> cur0 <= r.value <= reachable + m.Keys
    ensures r.Ok? ==> ClosedOver(m, r.value - reachable - {k}, r.value)
    ensures r.Ok? ==> forall af :: af in affects ==> ResolvesInto(m, af, r.value)
    ensures forall T :: Closed(m, T) && k in T && cur0 <= T ==> r.Ok? && r.value <= T
    ensures r.Err? ==> r.error.KeyMissing? && r.error.table == "actions"
  {
    var cur := cur0;
    var i := 0;
    while i < |affects|
      invariant 0 <= i <= |affects|
      invariant cur0 <= cur <= reachable + m.Keys
      invariant ClosedOver(m, cur - reachable - {k}, cur)
      invariant forall j :: 0 <= j < i ==> ResolvesInto(m, affects[j], cur)
      invariant forall T :: Closed(m, T) && k in T && cur0 <= T ==> cur <= T
    {
      var next := WalkAffect(m, k, affects[i], reachable, cur);
      if next.Err? {
        return next;
      }
      ClosedOverGrow(m, cur - reachable - {k}, cur, next.value);
      cur := next.value;
      i := i + 1;
    }
    assert forall af :: af in affects ==> exists j :: 0 <= j < |affects| && affects[j] == af;
    return Ok(cur);
  }

  /** One turn of _walk's loops: resolve the affect, then walk its target. */
  method WalkAffect(m: map<ActionKey, Action>, k: ActionKey, af: Affect, reachable: set<ActionKey>, cur: set<ActionKey>)
    returns (r: Result<set<ActionKey>, BuildError>)
    requires k in m && k !in reachable && af in m[k].Affects()
    requires reachable + {k} <= cur <= reachable + m.Keys
    decreases m.Keys - reachable, 0
    ensures r.Ok? ==> cur <= r.value <= reachable + m.Keys && ResolvesInto(m, af, r.value)
    ensures r.Ok? ==> ClosedOver(m, r.value - cur, r.value)
    ensures forall T :: Closed(m, T) && k in T && cur <= T ==> r.Ok? && r.value <= T
    ensures r.Err? ==> r.error.KeyMissing? && r.error.table == "actions"
  {
    var target := Resolve(m, af);
    if target.Err? {
      return Err(target.error);
    }
    assert m.Keys - cur < m.Keys - reachable by {
      assert k in m.Keys - reachable;
    }
    r := Walk(m, target.value, cur);
  }

  /** generate_digraph_from_action_list's first loop: walk every root in turn, in
      whatever order the set yields them. The result is the least closed set holding the
      roots; the walk fails only when no closed set holds them. */
  method ReachableFrom(m: map<ActionKey, Action>, roots: set<ActionKey>) returns (r: Result<set<ActionKey>, BuildError>)
    requires roots <= m.Keys
    ensures r.Ok? ==> IsReach(m, roots, r.value) && r.value <= m.Keys
    ensures (exists T :: Closed(m, T) && roots <= T) ==> r.Ok?
  {
    var reachable: set<ActionKey> := {};
    var todo := roots;
    while todo != {}
      invariant todo <= roots
      invariant roots - todo <= reachable <= m.Keys
      invariant Closed(m, reachable)
      invariant forall T :: Closed(m, T) && roots <= T ==> reachable <= T
      decreases todo
    {
      var k :| k in todo;
      var w := Walk(m, k, reachable);
      if w.Err? {
        return w;
      }
      ClosedOverGrow(m, reachable, reachable, w.value);
      reachable := w.value;
      todo := todo - {k};
    }
    return Ok(reachable);
  }

  // ---------------------------------------------------------------------------
  // find_roots
  // ---------------------------------------------------------------------------

  /** find_roots' default external actions: document added, file created, action event
      received. */
  const DefaultExternalActions: map<int, string> :=
    map[121 := "Document Added", 14 := "File Created", 154 := "Received Action Event"]

  function RootIds(externalActions: Option<map<int, string>>): (ids: set<int>)
    ensures externalActions.None? ==> ids == {121, 14, 154}
    ensures externalActions.Some? ==> ids == externalActions.value.Keys
  {
    (if externalActions.None? then DefaultExternalActions else externalActions.value).Keys
  }

  /** The roots found so far, acc, plus the targets of the remaining triggers whose
      external action is one of ids, looked up in order; the first failing lookup
      aborts. */
  function RootsOf(lookup: Lookup, acc: set<ActionKey>, triggers: seq<Trigger>, ids: set<int>): Result<set<ActionKey>, BuildError>
    decreases |triggers|
  {
    if triggers == [] then Ok(acc)
    else if triggers[0].externalAction.id in ids then
      var k :- AffectAction(lookup, triggers[0].affect);
      RootsOf(lookup, acc + {k}, triggers[1..], ids)
    else RootsOf(lookup, acc, triggers[1..], ids)
  }

  /** Through the context, the roots are exactly the targets of the matching triggers,
      and the search fails exactly when one of those targets is missing. */
  lemma {:induction false} RootsOfMeaning(m: map<ActionKey, Action>, acc: set<ActionKey>, triggers: seq<Trigger>, ids: set<int>)
    ensures RootsOf(ContextLookup(m), acc, triggers, ids).Ok? <==>
      forall i :: 0 <= i < |triggers| && triggers[i].externalAction.id in ids ==> Resolve(m, triggers[i].affect).Ok?
    ensures RootsOf(ContextLookup(m), acc, triggers, ids).Ok? ==>
      forall k :: k in RootsOf(ContextLookup(m), acc, triggers, ids).value <==>
        k in acc || exists i :: 0 <= i < |triggers| && triggers[i].externalAction.id in ids && Resolve(m, triggers[i].affect) == Ok(k)
    decreases |triggers|
  {
    if triggers != [] {
      var acc' := if triggers[0].externalAction.id in ids && Resolve(m, triggers[0].affect).Ok?
                  then acc + {Resolve(m, triggers[0].affect).value} else acc;
      RootsOfMeaning(m, acc', triggers[1..], ids);
      assert forall i :: 0 < i < |triggers| ==> triggers[1..][i - 1] == triggers[i];
    }
  }

  /** Every root found is an action of the context. */
  lemma RootsInContext(m: map<ActionKey, Action>, triggers: seq<Trigger>, ids: set<int>)
    requires RootsOf(ContextLookup(m), {}, triggers, ids).Ok?
    ensures RootsOf(ContextLookup(m), {}, triggers, ids).value <= m.Keys
  {
    RootsOfMeaning(m, {}, triggers, ids);
  }

  /** As written, find_roots fails as soon as one trigger matches, and otherwise finds
      no roots at all. */
  lemma {:induction false} AsWrittenRootsFail(acc: set<ActionKey>, triggers: seq<Trigger>, ids: set<int>)
    ensures RootsOf(InitVarLookup, acc, triggers, ids).Err? <==>
      exists i :: 0 <= i < |triggers| && triggers[i].externalAction.id in ids
    ensures RootsOf(InitVarLookup, acc, triggers, ids).Ok? ==> RootsOf(InitVarLookup, acc, triggers, ids).value == acc
    decreases |triggers|
  {
    if triggers != [] {
      AsWrittenRootsFail(acc, triggers[1..], ids);
      assert forall i :: 0 < i < |triggers| ==> triggers[1..][i - 1] == triggers[i];
    }
  }

  /** find_roots: the loop over every group's triggers, resolving through the context. */
  method FindRoots(m: map<ActionKey, Action>, groups: seq<Group>, externalActions: Option<map<int, string>>)
    returns (r: Result<set<ActionKey>, BuildError>)
    ensures r == RootsOf(ContextLookup(m), {}, AllTriggers(groups), RootIds(externalActions))
  {
    var ids := RootIds(externalActions);
    var roots: set<ActionKey> := {};
    var i := 0;
    while i < |groups|
      invariant 0 <= i <= |groups|
      invariant RootsOf(ContextLookup(m), {}, AllTriggers(groups), ids) ==
                RootsOf(ContextLookup(m), roots, AllTriggers(groups[i..]), ids)
    {
      ghost var later := AllTriggers(groups[i + 1..]);
      assert groups[i..][1..] == groups[i + 1..];
      var triggers := groups[i].triggers;
      var j := 0;
      while j < |triggers|
        invariant 0 <= j <= |triggers|
        invariant RootsOf(ContextLookup(m), {}, AllTriggers(groups), ids) ==
                  RootsOf(ContextLookup(m), roots, triggers[j..] + later, ids)
      {
        assert (triggers[j..] + later)[1..] == triggers[j + 1..] + later;
        if triggers[j].externalAction.id in ids {
          var k := Resolve(m, triggers[j].affect);
          if k.Err? {
            return Err(k.error);
          }
          roots := roots + {k.value};
        }
        j := j + 1;
      }
      assert triggers[j..] + later == later;
      i := i + 1;
    }
    return Ok(roots);
  }

  // ---------------------------------------------------------------------------
  // the digraph
  // ---------------------------------------------------------------------------

  /** "a -> b". */
  function Edge(from: string, to: string): string {
    from + " -> " + to
  }

  /** The vertex line of an external action: its label, its node name and its colours. */
  function ExternalVertex(e: ExternalAction): string {
    Deps.VertexText(e.Label(), None, None, Some(e.NodeName()), e.DotAttrs())
  }

  /** The vertex line of an action: a box labelled with the name less any "Word: "
      prefix. */
  function ActionVertex(a: Action): string {
    Deps.VertexText(StripPrefix(a.name), None, Some("box"), Some(a.NodeName()), [])
  }

  function EmailVertex(e: Email): string {
    Deps.VertexText(e.name, None, None, Some(e.NodeName()), e.DotAttrs())
  }

  /** A word character of name_prefix's `\w` over ASCII text. */
  predicate IsWordChar(c: char) {
    ('a' <= c <= 'z') || ('A' <= c <= 'Z') || ('0' <= c <= '9') || c == '_'
  }

  /** Length of the run of word characters s starts with. */
  function WordRun(s: string): (n: nat)
    ensures n <= |s|
    ensures forall i :: 0 <= i < n ==> IsWordChar(s[i])
    ensures n < |s| ==> !IsWordChar(s[n])
  {
    if s != [] && IsWordChar(s[0]) then 1 + WordRun(s[1..]) else 0
  }

  /** name_prefix.sub('', s): drop a leading run of word characters followed by ": ". */
  function StripPrefix(s: string): string {
    var n := WordRun(s);
    if n >= 1 && n + 2 <= |s| && s[n..n + 2] == ": " then s[n + 2..] else s
  }

  predicate AllWord(w: string) {
    forall i :: 0 <= i < |w| ==> IsWordChar(w[i])
  }

  /** The prefix goes exactly when the name is a non-empty word, ": ", and the rest. */
  lemma StripPrefixMeaning(s: string)
    ensures StripPrefix(s) != s ==> exists w :: |w| >= 1 && AllWord(w) && s == w + ": " + StripPrefix(s)
    ensures forall w, rest :: |w| >= 1 && AllWord(w) && s == w + ": " + rest ==> StripPrefix(s) == rest
  {
    var n := WordRun(s);
    if StripPrefix(s) != s {
      assert s == s[..n] + ": " + s[n + 2..];
    }
    forall w, rest | |w| >= 1 && AllWord(w) && s == w + ": " + rest ensures StripPrefix(s) == rest {
      assert s[|w|] == ':' && !IsWordChar(':');
      assert forall i :: 0 <= i < |w| ==> s[i] == w[i];
      assert forall i :: 0 <= i < |w| ==> IsWordChar(s[i]);
      assert n == |w|;
      assert s[n..n + 2] == ": ";
      assert s[n + 2..] == rest;
    }
  }

  /** The lines one trigger offers to emit: none when its target is not reachable. */
  function TriggerLines(m: map<ActionKey, Action>, reach: set<ActionKey>, t: Trigger): (r: Result<seq<string>, BuildError>)
    ensures r.Ok? <==> Resolve(m, t.affect).Ok?
    ensures r.Ok? ==> (r.value == [] <==> Resolve(m, t.affect).value !in reach)
  {
    var k :- Resolve(m, t.affect);
    if k !in reach then Ok([])
    else Ok([ExternalVertex(t.externalAction), Edge(t.externalAction.NodeName(), m[k].NodeName())])
  }

  /** Lines already produced, followed by the outcome of producing the rest. */
  function Then(done: seq<string>, rest: Result<seq<string>, BuildError>): Result<seq<string>, BuildError> {
    if rest.Ok? then Ok(done + rest.value) else rest
  }

  lemma ThenEmpty(rest: Result<seq<string>, BuildError>)
    ensures Then([], rest) == rest
  {
    if rest.Ok? {
      assert [] + rest.value == rest.value;
    }
  }

  lemma ThenThen(a: seq<string>, b: seq<string>, rest: Result<seq<string>, BuildError>)
    ensures Then(a, Then(b, rest)) == Then(a + b, rest)
  {
    if rest.Ok? {
      assert a + (b + rest.value) == (a + b) + rest.value;
    }
  }

  /** An edge from the action to the target of each affect, in order. */
  function AffectEdges(m: map<ActionKey, Action>, from: string, affects: seq<Affect>): (r: Result<seq<string>, BuildError>)
    ensures r.Ok? <==> forall i :: 0 <= i < |affects| ==> Resolve(m, affects[i]).Ok?
    ensures r.Ok? ==> |r.value| == |affects|
    ensures r.Ok? ==> forall i :: 0 <= i < |affects| ==> r.value[i] == Edge(from, m[Resolve(m, affects[i]).value].NodeName())
  {
    if affects == [] then Ok([])
    else
      var k :- Resolve(m, affects[0]);
      Then([Edge(from, m[k].NodeName())], AffectEdges(m, from, affects[1..]))
  }

  /** Two lines per element, in order: first(x), then second(x). */
  function Pairs<T>(first: T -> string, second: T -> string, xs: seq<T>): (r: seq<string>)
    ensures |r| == 2 * |xs|
  {
    if xs == [] then []
    else
      var n := |xs| - 1;
      Pairs(first, second, xs[..n]) + [first(xs[n]), second(xs[n])]
  }

  lemma PairsNext<T>(first: T -> string, second: T -> string, xs: seq<T>, j: nat)
    requires j < |xs|
    ensures Pairs(first, second, xs[..j + 1]) == Pairs(first, second, xs[..j]) + [first(xs[j]), second(xs[j])]
  {
    assert xs[..j + 1][..j] == xs[..j];
  }

  /** Element i contributes its first line at 2i and its second at 2i + 1. */
  lemma {:induction false} PairsAt<T>(first: T -> string, second: T -> string, xs: seq<T>, i: nat)
    requires i < |xs|
    ensures Pairs(first, second, xs)[2 * i] == first(xs[i])
    ensures Pairs(first, second, xs)[2 * i + 1] == second(xs[i])
  {
    var n := |xs| - 1;
    var prev := Pairs(first, second, xs[..n]);
    var all := Pairs(first, second, xs);
    assert all == prev + [first(xs[n]), second(xs[n])];
    if i < n {
      PairsAt(first, second, xs[..n], i);
      assert xs[..n][i] == xs[i];
      assert all[2 * i] == prev[2 * i];
      assert all[2 * i + 1] == prev[2 * i + 1];
    }
  }

  /** The edge from the action to an email. */
  function EmailEdge(from: string, e: Email): string {
    Edge(from, e.NodeName())
  }

  /** A vertex for each email, each followed by an edge to it from the action. */
  function EmailLines(from: string, emails: seq<Email>): seq<string> {
    Pairs(EmailVertex, e => EmailEdge(from, e), emails)
  }

  lemma EmailLinesNext(from: string, emails: seq<Email>, j: nat)
    requires j < |emails|
    ensures EmailLines(from, emails[..j + 1]) ==
      EmailLines(from, emails[..j]) + [EmailVertex(emails[j]), EmailEdge(from, emails[j])]
  {
    PairsNext(EmailVertex, e => EmailEdge(from, e), emails, j);
  }

  /** Email i contributes its vertex at 2i and the edge to it at 2i + 1. */
  lemma EmailLinesAt(from: string, emails: seq<Email>, i: nat)
    requires i < |emails|
    ensures |EmailLines(from, emails)| == 2 * |emails|
    ensures EmailLines(from, emails)[2 * i] == EmailVertex(emails[i])
    ensures EmailLines(from, emails)[2 * i + 1] == EmailEdge(from, emails[i])
  {
    PairsAt(EmailVertex, e => EmailEdge(from, e), emails, i);
  }

  /** The lines one action offers to emit: none when it is not reachable; otherwise its
      box, an edge per affect and a vertex and an edge per email. */
  function ActionLines(m: map<ActionKey, Action>, reach: set<ActionKey>, a: Action): (r: Result<seq<string>, BuildError>)
    ensures a.Key() !in reach ==> r == Ok([])
    ensures r.Ok? && a.Key() in reach ==> |r.value| == 1 + |a.Affects()| + 2 * |a.Emails()| && r.value[0] == ActionVertex(a)
  {
    if a.Key() !in reach then Ok([])
    else
      var edges :- AffectEdges(m, a.NodeName(), a.Affects());
      Ok([ActionVertex(a)] + edges + EmailLines(a.NodeName(), a.Emails()))
  }

  function TriggersLines(m: map<ActionKey, Action>, reach: set<ActionKey>, ts: seq<Trigger>): Result<seq<string>, BuildError> {
    if ts == [] then Ok([])
    else
      var first :- TriggerLines(m, reach, ts[0]);
      Then(first, TriggersLines(m, reach, ts[1..]))
  }

  function ActionsLines(m: map<ActionKey, Action>, reach: set<ActionKey>, as_: seq<Action>): Result<seq<string>, BuildError> {
    if as_ == [] then Ok([])
    else
      var first :- ActionLines(m, reach, as_[0]);
      Then(first, ActionsLines(m, reach, as_[1..]))
  }

  /** The lines a group offers: its triggers', then its actions'. */
  function GroupLines(m: map<ActionKey, Action>, reach: set<ActionKey>, g: Group): Result<seq<string>, BuildError> {
    var t :- TriggersLines(m, reach, g.triggers);
    Then(t, ActionsLines(m, reach, g.actions))
  }

  /** Every line offered to emit, group by group, repeats included. */
  function Candidates(m: map<ActionKey, Action>, reach: set<ActionKey>, groups: seq<Group>): Result<seq<string>, BuildError> {
    if groups == [] then Ok([])
    else
      var first :- GroupLines(m, reach, groups[0]);
      Then(first, Candidates(m, reach, groups[1..]))
  }

  /** The generator's output once the walk is done: the header, each offered line the
      first time it is offered, and the closing brace. */
  function DigraphLines(m: map<ActionKey, Action>, reach: set<ActionKey>, groups: seq<Group>): Result<seq<string>, BuildError> {
    var c :- Candidates(m, reach, groups);
    Ok(["digraph G {"] + Dedup(c) + ["}"])
  }

  /** A line some trigger of g offers, whose target was reached. */
  predicate FromReachedTrigger(m: map<ActionKey, Action>, reach: set<ActionKey>, g: Group, line: string) {
    exists t :: t in g.triggers && ResolvesInto(m, t.affect, reach) && line in TriggerLines(m, reach, t).value
  }

  /** A line some reached action of g offers. */
  predicate FromReachedAction(m: map<ActionKey, Action>, reach: set<ActionKey>, g: Group, line: string) {
    exists a :: a in g.actions && a.Key() in reach && ActionLines(m, reach, a).Ok? && line in ActionLines(m, reach, a).value
  }

  predicate FromReached(m: map<ActionKey, Action>, reach: set<ActionKey>, groups: seq<Group>, line: string) {
    exists g :: g in groups && (FromReachedTrigger(m, reach, g, line) || FromReachedAction(m, reach, g, line))
  }

  lemma {:induction false} TriggersLinesOrigin(m: map<ActionKey, Action>, reach: set<ActionKey>, g: Group, ts: seq<Trigger>)
    requires TriggersLines(m, reach, ts).Ok? && forall t :: t in ts ==> t in g.triggers
    ensures forall line :: line in TriggersLines(m, reach, ts).value <==>
      exists t :: t in ts && TriggerLines(m, reach, t).Ok? && line in TriggerLines(m, reach, t).value
    ensures forall line :: line in TriggersLines(m, reach, ts).value ==> FromReachedTrigger(m, reach, g, line)
  {
    if ts != [] {
      TriggersLinesOrigin(m, reach, g, ts[1..]);
      assert forall t :: t in ts <==> t == ts[0] || t in ts[1..];
    }
  }

  lemma {:induction false} ActionsLinesOrigin(m: map<ActionKey, Action>, reach: set<ActionKey>, g: Group, as_: seq<Action>)
    requires ActionsLines(m, reach, as_).Ok? && forall a :: a in as_ ==> a in g.actions
    ensures forall line :: line in ActionsLines(m, reach, as_).value <==>
      exists a :: a in as_ && ActionLines(m, reach, a).Ok? && line in ActionLines(m, reach, a).value
    ensures forall line :: line in ActionsLines(m, reach, as_).value ==> FromReachedAction(m, reach, g, line)
  {
    if as_ != [] {
      ActionsLinesOrigin(m, reach, g, as_[1..]);
      assert forall a :: a in as_ <==> a == as_[0] || a in as_[1..];
    }
  }

  /** The lines offered are exactly those of the reached actions and of the triggers
      whose target was reached. */
  lemma {:induction false} CandidatesMeaning(m: map<ActionKey, Action>, reach: set<ActionKey>, groups: seq<Group>)
    requires Candidates(m, reach, groups).Ok?
    ensures forall line :: line in Candidates(m, reach, groups).value <==> FromReached(m, reach, groups, line)
  {
    if groups != [] {
      var g := groups[0];
      CandidatesMeaning(m, reach, groups[1..]);
      TriggersLinesOrigin(m, reach, g, g.triggers);
      ActionsLinesOrigin(m, reach, g, g.actions);
      assert forall h :: h in groups <==> h == g || h in groups[1..];
      forall line | FromReached(m, reach, groups, line) && !FromReached(m, reach, groups[1..], line)
        ensures line in GroupLines(m, reach, g).value
      {
        if FromReachedTrigger(m, reach, g, line) {
          var t :| t in g.triggers && ResolvesInto(m, t.affect, reach) && line in TriggerLines(m, reach, t).value;
        } else {
          assert FromReachedAction(m, reach, g, line);
          var a :| a in g.actions && a.Key() in reach && ActionLines(m, reach, a).Ok? && line in ActionLines(m, reach, a).value;
        }
      }
    }
  }

  /** The output opens with the header and closes with the brace; between them no line
      appears twice, and the lines there are exactly those of the reached actions and
      of the triggers whose target was reached. */
  lemma DigraphShape(m: map<ActionKey, Action>, reach: set<ActionKey>, groups: seq<Group>)
    requires DigraphLines(m, reach, groups).Ok?
    ensures var out := DigraphLines(m, reach, groups).value;
      && |out| >= 2 && out[0] == "digraph G {" && out[|out| - 1] == "}"
      && NoDuplicates(out[1..|out| - 1])
      && forall line :: line in out[1..|out| - 1] <==> FromReached(m, reach, groups, line)
  {
    var c := Candidates(m, reach, groups).value;
    var out := DigraphLines(m, reach, groups).value;
    assert out[1..|out| - 1] == Dedup(c);
    DedupNoDuplicates(c);
    DedupElements(c);
    CandidatesMeaning(m, reach, groups);
  }

  // ---------------------------------------------------------------------------
  // the generator
  // ---------------------------------------------------------------------------

  /** The generator's `yielded` set and the lines it has yielded through emit. */
  datatype Emitter = Emitter(yielded: set<string>, out: seq<string>)

  /** The set of lines in a sequence. */
  function Elems(s: seq<string>): set<string> {
    if s == [] then {} else Elems(s[..|s| - 1]) + {s[|s| - 1]}
  }

  lemma {:induction false} ElemsMeaning(s: seq<string>)
    ensures forall x :: x in Elems(s) <==> x in s
  {
    if s != [] {
      ElemsMeaning(s[..|s| - 1]);
      assert s == s[..|s| - 1] + [s[|s| - 1]];
    }
  }

  /** After offering `produced`, the generator has yielded each line once, at its first
      offer, and remembers exactly the lines offered. */
  ghost predicate Emitted(e: Emitter, produced: seq<string>) {
    e.out == Dedup(produced) && e.yielded == Elems(produced)
  }

  /** emit: a line goes out only the first time it is offered. */
  method Emit(e: Emitter, line: string, ghost produced: seq<string>) returns (e': Emitter)
    requires Emitted(e, produced)
    ensures Emitted(e', produced + [line])
  {
    ghost var next := produced + [line];
    assert next[..|produced|] == produced;
    DedupElements(produced);
    ElemsMeaning(produced);
    if line in e.yielded {
      return e;
    }
    return Emitter(e.yielded + {line}, e.out + [line]);
  }

  /** emit of two lines in a row. */
  method Emit2(e: Emitter, first: string, second: string, ghost produced: seq<string>) returns (e': Emitter)
    requires Emitted(e, produced)
    ensures Emitted(e', produced + [first, second])
  {
    var mid := Emit(e, first, produced);
    e' := Emit(mid, second, produced + [first]);
    Regroup(produced, [first], [second]);
    assert [first] + [second] == [first, second];
  }

  /** The body of the loop over a group's triggers: skip a trigger whose target was not
      reached, else emit the external action's vertex and the edge to the target. */
  method EmitTrigger(m: map<ActionKey, Action>, reach: set<ActionKey>, t: Trigger, e: Emitter, ghost produced: seq<string>)
    returns (r: Result<Emitter, BuildError>)
    requires Emitted(e, produced)
    ensures r.Ok? ==> TriggerLines(m, reach, t).Ok? && Emitted(r.value, produced + TriggerLines(m, reach, t).value)
    ensures r.Err? ==> TriggerLines(m, reach, t) == Err(r.error)
  {
    var target := Resolve(m, t.affect);
    if target.Err? {
      return Err(target.error);
    }
    if target.value !in reach {
      assert produced + [] == produced;
      return Ok(e);
    }
    var vertex := ExternalVertex(t.externalAction);
    var edge := Edge(t.externalAction.NodeName(), m[target.value].NodeName());
    var next := Emit2(e, vertex, edge, produced);
    return Ok(next);
  }

  /** The outcome for the triggers from i on: the first one's failure, or its lines
      followed by the outcome for the rest. */
  lemma TriggersLinesStep(m: map<ActionKey, Action>, reach: set<ActionKey>, ts: seq<Trigger>, i: nat)
    requires i < |ts|
    ensures TriggerLines(m, reach, ts[i]).Err? ==>
      TriggersLines(m, reach, ts[i..]) == Err(TriggerLines(m, reach, ts[i]).error)
    ensures TriggerLines(m, reach, ts[i]).Ok? ==>
      TriggersLines(m, reach, ts[i..]) == Then(TriggerLines(m, reach, ts[i]).value, TriggersLines(m, reach, ts[i + 1..]))
  {
    assert ts[i..][0] == ts[i];
    assert ts[i..][1..] == ts[i + 1..];
  }

  /** The loop over a group's triggers. */
  method EmitTriggers(m: map<ActionKey, Action>, reach: set<ActionKey>, ts: seq<Trigger>, e: Emitter, ghost produced: seq<string>)
    returns (r: Result<Emitter, BuildError>)
    requires Emitted(e, produced)
    ensures r.Ok? ==> TriggersLines(m, reach, ts).Ok? && Emitted(r.value, produced + TriggersLines(m, reach, ts).value)
    ensures r.Err? ==> TriggersLines(m, reach, ts) == Err(r.error)
  {
    var cur := e;
    ghost var done: seq<string> := [];
    var i := 0;
    assert ts[0..] == ts && produced + [] == produced;
    ThenEmpty(TriggersLines(m, reach, ts));
    while i < |ts|
      invariant 0 <= i <= |ts|
      invariant TriggersLines(m, reach, ts) == Then(done, TriggersLines(m, reach, ts[i..]))
      invariant Emitted(cur, produced + done)
    {
      TriggersLinesStep(m, reach, ts, i);
      var next := EmitTrigger(m, reach, ts[i], cur, produced + done);
      if next.Err? {
        return Err(next.error);
      }
      ghost var lines := TriggerLines(m, reach, ts[i]).value;
      ThenThen(done, lines, TriggersLines(m, reach, ts[i + 1..]));
      Regroup(produced, done, lines);
      cur := next.value;
      done := done + lines;
      i := i + 1;
    }
    assert ts[i..] == [] && done + [] == done;
    return Ok(cur);
  }

  /** The loop over an action's affects: an edge from the action to each target. */
  method EmitAffectEdges(m: map<ActionKey, Action>, node: string, affects: seq<Affect>, e: Emitter, ghost produced: seq<string>)
    returns (r: Result<Emitter, BuildError>)
    requires Emitted(e, produced)
    ensures r.Ok? ==> AffectEdges(m, node, affects).Ok? && Emitted(r.value, produced + AffectEdges(m, node, affects).value)
    ensures r.Err? ==> AffectEdges(m, node, affects) == Err(r.error)
  {
    var cur := e;
    ghost var edges: seq<string> := [];
    var i := 0;
    assert affects[0..] == affects && produced + [] == produced;
    ThenEmpty(AffectEdges(m, node, affects));
    while i < |affects|
      invariant 0 <= i <= |affects|
      invariant AffectEdges(m, node, affects) == Then(edges, AffectEdges(m, node, affects[i..]))
      invariant Emitted(cur, produced + edges)
    {
      var next;
      next, edges := EmitAffectEdgeAt(m, node, affects, i, cur, produced, edges);
      if next.Err? {
        return Err(next.error);
      }
      cur := next.value;
      i := i + 1;
    }
    assert affects[i..] == [] && edges + [] == edges;
    return Ok(cur);
  }

  /** One turn of the loop over an action's affects: the edge to the resolved target. */
  method EmitAffectEdgeAt(m: map<ActionKey, Action>, node: string, affects: seq<Affect>, i: nat, e: Emitter,
                          ghost produced: seq<string>, ghost edges: seq<string>)
    returns (r: Result<Emitter, BuildError>, ghost edges': seq<string>)
    requires i < |affects|
    requires AffectEdges(m, node, affects) == Then(edges, AffectEdges(m, node, affects[i..]))
    requires Emitted(e, produced + edges)
    ensures r.Ok? ==> AffectEdges(m, node, affects) == Then(edges', AffectEdges(m, node, affects[i + 1..]))
    ensures r.Ok? ==> Emitted(r.value, produced + edges')
    ensures r.Err? ==> AffectEdges(m, node, affects) == Err(r.error)
  {
    assert affects[i..][1..] == affects[i + 1..];
    edges' := edges;
    var target := Resolve(m, affects[i]);
    if target.Err? {
      return Err(target.error), edges';
    }
    var edge := Edge(node, m[target.value].NodeName());
    ThenThen(edges, [edge], AffectEdges(m, node, affects[i + 1..]));
    var next := Emit(e, edge, produced + edges);
    Regroup(produced, edges, [edge]);
    edges' := edges + [edge];
    r := Ok(next);
  }

  /** The body of the loop over an action's emails: the email's vertex, then the edge
      to it. */
  method EmitEmail(node: string, emails: seq<Email>, j: nat, e: Emitter, ghost produced: seq<string>)
    returns (e': Emitter)
    requires j < |emails|
    requires Emitted(e, produced + EmailLines(node, emails[..j]))
    ensures Emitted(e', produced + EmailLines(node, emails[..j + 1]))
  {
    ghost var done := EmailLines(node, emails[..j]);
    var vertex := EmailVertex(emails[j]);
    var edge := EmailEdge(node, emails[j]);
    e' := Emit2(e, vertex, edge, produced + done);
    EmailLinesNext(node, emails, j);
    Regroup(produced, done, [vertex, edge]);
  }

  /** The loop over an action's emails. */
  method EmitEmails(node: string, emails: seq<Email>, e: Emitter, ghost produced: seq<string>) returns (e': Emitter)
    requires Emitted(e, produced)
    ensures Emitted(e', produced + EmailLines(node, emails))
  {
    var cur := e;
    var j := 0;
    assert emails[..0] == [] && produced + [] == produced;
    while j < |emails|
      invariant 0 <= j <= |emails|
      invariant Emitted(cur, produced + EmailLines(node, emails[..j]))
    {
      cur := EmitEmail(node, emails, j, cur, produced);
      j := j + 1;
    }
    assert emails[..j] == emails;
    return cur;
  }

  /** The body of the loop over a group's actions: skip an unreached action, else emit
      its box, an edge per affect, and a vertex and an edge per email. */
  method EmitAction(m: map<ActionKey, Action>, reach: set<ActionKey>, a: Action, e: Emitter, ghost produced: seq<string>)
    returns (r: Result<Emitter, BuildError>)
    requires Emitted(e, produced)
    ensures r.Ok? ==> ActionLines(m, reach, a).Ok? && Emitted(r.value, produced + ActionLines(m, reach, a).value)
    ensures r.Err? ==> ActionLines(m, reach, a) == Err(r.error)
  {
    if a.Key() !in reach {
      assert produced + [] == produced;
      return Ok(e);
    }
    var node := a.NodeName();
    var cur := Emit(e, ActionVertex(a), produced);
    var afterEdges := EmitAffectEdges(m, node, a.startAffects + a.completeAffects, cur, produced + [ActionVertex(a)]);
    if afterEdges.Err? {
      return Err(afterEdges.error);
    }
    ghost var edges := AffectEdges(m, node, a.Affects()).value;
    var done := EmitEmails(node, a.startEmails + a.completeEmails, afterEdges.value, produced + [ActionVertex(a)] + edges);
    Regroup(produced, [ActionVertex(a)], edges);
    Regroup(produced, [ActionVertex(a)] + edges, EmailLines(node, a.Emails()));
    return Ok(done);
  }

  /** The loop over a group's actions. */
  method EmitActions(m: map<ActionKey, Action>, reach: set<ActionKey>, as_: seq<Action>, e: Emitter, ghost produced: seq<string>)
    returns (r: Result<Emitter, BuildError>)
    requires Emitted(e, produced)
    ensures r.Ok? ==> ActionsLines(m, reach, as_).Ok? && Emitted(r.value, produced + ActionsLines(m, reach, as_).value)
    ensures r.Err? ==> ActionsLines(m, reach, as_) == Err(r.error)
  {
    var cur := e;
    ghost var done: seq<string> := [];
    var j := 0;
    assert as_[0..] == as_ && produced + [] == produced;
    ThenEmpty(ActionsLines(m, reach, as_));
    while j < |as_|
      invariant 0 <= j <= |as_|
      invariant ActionsLines(m, reach, as_) == Then(done, ActionsLines(m, reach, as_[j..]))
      invariant Emitted(cur, produced + done)
    {
      var next;
      next, done := EmitActionAt(m, reach, as_, j, cur, produced, done);
      if next.Err? {
        return Err(next.error);
      }
      cur := next.value;
      j := j + 1;
    }
    assert as_[j..] == [] && done + [] == done;
    return Ok(cur);
  }

  /** One turn of the loop over a group's actions, with the lines emitted so far. */
  method EmitActionAt(m: map<ActionKey, Action>, reach: set<ActionKey>, as_: seq<Action>, j: nat, e: Emitter,
                      ghost produced: seq<string>, ghost done: seq<string>)
    returns (r: Result<Emitter, BuildError>, ghost done': seq<string>)
    requires j < |as_|
    requires ActionsLines(m, reach, as_) == Then(done, ActionsLines(m, reach, as_[j..]))
    requires Emitted(e, produced + done)
    ensures r.Ok? ==> ActionsLines(m, reach, as_) == Then(done', ActionsLines(m, reach, as_[j + 1..]))
    ensures r.Ok? ==> Emitted(r.value, produced + done')
    ensures r.Err? ==> ActionsLines(m, reach, as_) == Err(r.error)
  {
    assert as_[j..][1..] == as_[j + 1..];
    done' := done;
    r := EmitAction(m, reach, as_[j], e, produced + done);
    if r.Ok? {
      ghost var lines := ActionLines(m, reach, as_[j]).value;
      ThenThen(done, lines, ActionsLines(m, reach, as_[j + 1..]));
      Regroup(produced, done, lines);
      done' := done + lines;
    }
  }

  /** The body of the loop over groups: the group's triggers whose target was reached,
      then its actions. */
  method EmitGroup(m: map<ActionKey, Action>, reach: set<ActionKey>, g: Group, e: Emitter, ghost produced: seq<string>)
    returns (r: Result<Emitter, BuildError>)
    requires Emitted(e, produced)
    ensures r.Ok? ==> GroupLines(m, reach, g).Ok? && Emitted(r.value, produced + GroupLines(m, reach, g).value)
    ensures r.Err? ==> GroupLines(m, reach, g) == Err(r.error)
  {
    var afterTriggers := EmitTriggers(m, reach, g.triggers, e, produced);
    if afterTriggers.Err? {
      return Err(afterTriggers.error);
    }
    ghost var t := TriggersLines(m, reach, g.triggers).value;
    var afterActions := EmitActions(m, reach, g.actions, afterTriggers.value, produced + t);
    if afterActions.Err? {
      return Err(afterActions.error);
    }
    Regroup(produced, t, ActionsLines(m, reach, g.actions).value);
    return Ok(afterActions.value);
  }

  /** generate_digraph_from_action_list after the walk: the header, every group's lines
      through emit, and the closing brace. */
  method EmitDigraph(m: map<ActionKey, Action>, reach: set<ActionKey>, groups: seq<Group>) returns (r: Result<seq<string>, BuildError>)
    ensures r == DigraphLines(m, reach, groups)
  {
    var cur := Emitter({}, []);
    ghost var done: seq<string> := [];
    var i := 0;
    assert groups[0..] == groups;
    ThenEmpty(Candidates(m, reach, groups));
    while i < |groups|
      invariant 0 <= i <= |groups|
      invariant Candidates(m, reach, groups) == Then(done, Candidates(m, reach, groups[i..]))
      invariant Emitted(cur, done)
    {
      assert groups[i..][1..] == groups[i + 1..];
      var next := EmitGroup(m, reach, groups[i], cur, done);
      if next.Err? {
        return Err(next.error);
      }
      ghost var lines := GroupLines(m, reach, groups[i]).value;
      ThenThen(done, lines, Candidates(m, reach, groups[i + 1..]));
      cur := next.value;
      done := done + lines;
      i := i + 1;
    }
    assert groups[i..] == [] && done + [] == done;
    return Ok(["digraph G {"] + cur.out + ["}"]);
  }

  /** The roots the generator walks from: the caller's, or find_roots' with the default
      external actions. */
  ghost predicate RootsChosen(m: map<ActionKey, Action>, groups: seq<Group>, roots: Option<set<ActionKey>>, rs: set<ActionKey>) {
    if roots.Some? then rs == roots.value
    else RootsOf(ContextLookup(m), {}, AllTriggers(groups), RootIds(None)) == Ok(rs)
  }

  /** generate_digraph_from_action_list: pick the roots, walk from them, then write the
      reached part of the graph. Its output is the digraph of the least closed set
      holding the roots. */
  method GenerateDigraph(m: map<ActionKey, Action>, groups: seq<Group>, roots: Option<set<ActionKey>>)
    returns (r: Result<seq<string>, BuildError>)
    requires roots.Some? ==> roots.value <= m.Keys
    ensures r.Ok? ==> exists rs, reach :: RootsChosen(m, groups, roots, rs) && IsReach(m, rs, reach) &&
                                           r == DigraphLines(m, reach, groups)
    ensures roots.None? && RootsOf(ContextLookup(m), {}, AllTriggers(groups), RootIds(None)).Err? ==> r.Err?
    ensures forall rs :: RootsChosen(m, groups, roots, rs) && !(exists T :: Closed(m, T) && rs <= T) ==> r.Err?
    ensures forall rs, reach :: RootsChosen(m, groups, roots, rs) && IsReach(m, rs, reach) ==> r == DigraphLines(m, reach, groups)
  {
    var rs: set<ActionKey>;
    if roots.Some? {
      rs := roots.value;
    } else {
      var found := FindRoots(m, groups, None);
      if found.Err? {
        return Err(found.error);
      }
      rs := found.value;
      RootsInContext(m, AllTriggers(groups), RootIds(None));
    }
    var reach := ReachableFrom(m, rs);
    if reach.Err? {
      return Err(reach.error);
    }
    r := EmitDigraph(m, reach.value, groups);
    assert RootsChosen(m, groups, roots, rs) && IsReach(m, rs, reach.value);
    forall rs', reach' | RootsChosen(m, groups, roots, rs') && IsReach(m, rs', reach')
      ensures r == DigraphLines(m, reach', groups)
    {
      assert rs' == rs;
      ReachUnique(m, rs, reach.value, reach');
    }
  }
}
