/**
 Nested plugin scopes: each node caches resources by key and unwinds an exit stack when it closes.

 `ScopeNode` is the class; `AcquireNode` and `CloseNode` are its methods as functions on values. A
 `World` is a tree of nodes driven by an adversary under structured nesting: a scope is opened under
 an open parent, closed after its children, and an acquire completes before its scope exits. The
 journal records, per node, everything that happened to its resources.
 */
module Lifecycle {
  import opened Basics

  datatype Scope = OperationScope | RequestScope | ProcessScope

  type Resource = nat

  /** What the factory and the entering of its result do when they are asked. */
  datatype Attempt = Raises | Makes(resource: Resource, managed: bool)

  datatype Happening =
    | Built(key: string)
    | BuildFailed(key: string)
    | Entered(key: string, resource: Resource)
    | Cached(key: string, resource: Resource)
    | Served(key: string, resource: Resource)
    | Exited(key: string, resource: Resource)

  datatype Reply = Got(resource: Resource) | AttemptRaised | ScopeClosed | NoSuchScope

  datatype Node = Node(
    kind: Scope,
    parent: Option<nat>,
    stack: seq<(string, Resource)>,
    instances: map<string, Resource>,
    closed: bool)

  // ---------------------------------------------------------------- one node

  function AcquireNode(node: Node, key: string, attempt: Attempt): (Node, seq<Happening>, Reply) {
    if node.closed then (node, [], ScopeClosed)
    else if key in node.instances then (node, [Served(key, node.instances[key])], Got(node.instances[key]))
    else match attempt
      case Raises => (node, [Built(key), BuildFailed(key)], AttemptRaised)
      case Makes(r, managed) =>
        (node.(stack := if managed then node.stack + [(key, r)] else node.stack, instances := node.instances[key := r]),
         [Built(key), if managed then Entered(key, r) else Cached(key, r), Served(key, r)], Got(r))
  }

  function ExitsOf(stack: seq<(string, Resource)>): seq<Happening> {
    if stack == [] then []
    else [Exited(stack[|stack| - 1].0, stack[|stack| - 1].1)] + ExitsOf(stack[..|stack| - 1])
  }

  function CloseNode(node: Node): (Node, seq<Happening>) {
    if node.closed then (node, [])
    else (node.(stack := [], instances := map[], closed := true), ExitsOf(node.stack))
  }

  class ScopeNode {
    const kind: Scope
    const parent: ScopeNode?
    ghost const depth: nat
    var stack: seq<(string, Resource)>
    var instances: map<string, Resource>
    var closed: bool

    ghost predicate Rooted()
      decreases depth
    {
      parent != null ==> parent.depth < depth && parent.Rooted()
    }

    /** The nearest node of the requested kind, from this one upward. */
    ghost function Owner(scope: Scope): (owner: ScopeNode?)
      requires Rooted()
      ensures owner != null ==> owner.kind == scope
      decreases depth
    {
      if kind == scope then this else if parent == null then null else parent.Owner(scope)
    }

    /** The node as a value; the object holds its parent itself, so no index is given. */
    ghost function Value(): Node reads this {
      Node(kind, None, stack, instances, closed)
    }

    constructor (kind: Scope, parent: ScopeNode?)
      requires parent != null ==> parent.Rooted()
      ensures Rooted() && this.kind == kind && this.parent == parent
      ensures Value() == Node(kind, None, [], map[], false)
    {
      this.kind, this.parent := kind, parent;
      this.depth := if parent == null then 0 else parent.depth + 1;
      stack, instances, closed := [], map[], false;
    }

    method Target(scope: Scope) returns (found: ScopeNode?)
      requires Rooted()
      ensures found == Owner(scope)
    {
      found := this;
      while found != null && found.kind != scope
        invariant found != null ==> found.Rooted() && found.Owner(scope) == Owner(scope)
        invariant found == null ==> Owner(scope) == null
        decreases if found == null then 0 else found.depth + 1
      {
        found := found.parent;
      }
    }

    method Acquire(key: string, attempt: Attempt) returns (reply: Reply, happened: seq<Happening>)
      modifies this
      ensures (Value(), happened, reply) == AcquireNode(old(Value()), key, attempt)
    {
      happened := [];
      if closed { return ScopeClosed, happened; }
      if key in instances {
        return Got(instances[key]), [Served(key, instances[key])];
      }
      if attempt.Raises? {
        return AttemptRaised, [Built(key), BuildFailed(key)];
      }
      if attempt.managed {
        stack := stack + [(key, attempt.resource)];
        happened := [Built(key), Entered(key, attempt.resource)];
      } else {
        happened := [Built(key), Cached(key, attempt.resource)];
      }
      instances := instances[key := attempt.resource];
      reply, happened := Got(attempt.resource), happened + [Served(key, attempt.resource)];
      assert happened == [Built(key), if attempt.managed then Entered(key, attempt.resource) else Cached(key, attempt.resource),
                          Served(key, attempt.resource)];
    }

    method Close() returns (happened: seq<Happening>)
      modifies this
      ensures (Value(), happened) == CloseNode(old(Value()))
    {
      happened := [];
      if closed { return; }
      closed := true;
      while stack != []
        invariant instances == old(instances) && closed
        invariant happened + ExitsOf(stack) == ExitsOf(old(stack))
        decreases |stack|
      {
        var top := stack[|stack| - 1];
        happened := happened + [Exited(top.0, top.1)];
        stack := stack[..|stack| - 1];
      }
      assert happened + [] == happened;
      instances := map[];
    }
  }

  // ---------------------------------------------------------------- a tree of nodes

  datatype Entry = Entry(node: nat, what: Happening)

  datatype World = World(nodes: seq<Node>, journal: seq<Entry>)

  const START := World([Node(ProcessScope, None, [], map[], false)], [])

  ghost predicate WellParented(nodes: seq<Node>) {
    forall n :: 0 <= n < |nodes| && nodes[n].parent.Some? ==> nodes[n].parent.value < n
  }

  ghost function OwnerOf(nodes: seq<Node>, n: nat, scope: Scope): Option<nat>
    requires WellParented(nodes) && n < |nodes|
  {
    if nodes[n].kind == scope then Some(n)
    else if nodes[n].parent.None? then None
    else OwnerOf(nodes, nodes[n].parent.value, scope)
  }

  function Tagged(node: nat, happened: seq<Happening>): seq<Entry> {
    seq(|happened|, i requires 0 <= i < |happened| => Entry(node, happened[i]))
  }

  /** Request scopes open under the process scope, operation scopes under a request scope. */
  ghost predicate OpenStep(w: World, v: World, parent: nat) {
    && parent < |w.nodes| && !w.nodes[parent].closed && !w.nodes[parent].kind.OperationScope?
    && var kind := if w.nodes[parent].kind.ProcessScope? then RequestScope else OperationScope;
       v == w.(nodes := w.nodes + [Node(kind, Some(parent), [], map[], false)])
  }

  /** An acquire through a handle on scope `n`, and what it answers. */
  ghost predicate AcquireStep(w: World, v: World, n: nat, scope: Scope, key: string, attempt: Attempt, reply: Reply)
    requires WellParented(w.nodes)
  {
    && n < |w.nodes|
    && match OwnerOf(w.nodes, n, scope)
       case None => v == w && reply == NoSuchScope
       case Some(owner) =>
         owner < |w.nodes|
         && var (node, happened, answer) := AcquireNode(w.nodes[owner], key, attempt);
            v == World(w.nodes[owner := node], w.journal + Tagged(owner, happened)) && reply == answer
  }

  ghost predicate CloseStep(w: World, v: World, n: nat) {
    && n < |w.nodes|
    && (forall c :: 0 <= c < |w.nodes| && w.nodes[c].parent == Some(n) ==> w.nodes[c].closed)
    && var (node, happened) := CloseNode(w.nodes[n]);
       v == World(w.nodes[n := node], w.journal + Tagged(n, happened))
  }

  ghost predicate Next(w: World, v: World)
    requires WellParented(w.nodes)
  {
    || (exists parent: nat :: OpenStep(w, v, parent))
    || (exists n: nat, scope, key, attempt, reply :: AcquireStep(w, v, n, scope, key, attempt, reply))
    || (exists n: nat :: CloseStep(w, v, n))
  }

  ghost predicate IsRun(run: seq<World>) {
    && run != [] && run[0] == START
    && forall k :: 0 <= k < |run| - 1 ==> WellParented(run[k].nodes) && Next(run[k], run[k + 1])
  }

  // ---------------------------------------------------------------- reading the journal

  /** The resources a node entered, in order; and those it exited, in order. */
  ghost function EnteredBy(journal: seq<Entry>, n: nat): seq<(string, Resource)> {
    if journal == [] then []
    else
      var last := journal[|journal| - 1];
      EnteredBy(journal[..|journal| - 1], n)
      + if last.node == n && last.what.Entered? then [(last.what.key, last.what.resource)] else []
  }

  ghost function ExitedBy(journal: seq<Entry>, n: nat): seq<(string, Resource)> {
    if journal == [] then []
    else
      var last := journal[|journal| - 1];
      ExitedBy(journal[..|journal| - 1], n)
      + if last.node == n && last.what.Exited? then [(last.what.key, last.what.resource)] else []
  }

  function Reversed<T>(xs: seq<T>): seq<T> {
    if xs == [] then [] else [xs[|xs| - 1]] + Reversed(xs[..|xs| - 1])
  }

  lemma {:induction false} EnteredByConcat(a: seq<Entry>, b: seq<Entry>, n: nat)
    ensures EnteredBy(a + b, n) == EnteredBy(a, n) + EnteredBy(b, n)
    ensures ExitedBy(a + b, n) == ExitedBy(a, n) + ExitedBy(b, n)
  {
    if b == [] {
      assert a + b == a;
    } else {
      EnteredByConcat(a, b[..|b| - 1], n);
      assert (a + b)[..|a + b| - 1] == a + b[..|b| - 1];
    }
  }

  lemma {:induction false} OthersSeeNothing(node: nat, happened: seq<Happening>, n: nat)
    requires n != node
    ensures EnteredBy(Tagged(node, happened), n) == [] && ExitedBy(Tagged(node, happened), n) == []
  {
    if happened != [] {
      var init := happened[..|happened| - 1];
      OthersSeeNothing(node, init, n);
      assert Tagged(node, happened)[..|happened| - 1] == Tagged(node, init);
    }
  }

  lemma {:induction false} ClosingExitsReversed(n: nat, stack: seq<(string, Resource)>)
    ensures ExitedBy(Tagged(n, ExitsOf(stack)), n) == Reversed(stack)
    ensures EnteredBy(Tagged(n, ExitsOf(stack)), n) == []
  {
    if stack != [] {
      hide EnteredBy, ExitedBy;
      var init, last := stack[..|stack| - 1], stack[|stack| - 1];
      ClosingExitsReversed(n, init);
      var first := [Entry(n, Exited(last.0, last.1))];
      assert Tagged(n, ExitsOf(stack)) == first + Tagged(n, ExitsOf(init));
      EnteredByConcat(first, Tagged(n, ExitsOf(init)), n);
      OneEntry(first[0], n);
    }
  }

  lemma OneEntry(e: Entry, n: nat)
    ensures EnteredBy([e], n) == if e.node == n && e.what.Entered? then [(e.what.key, e.what.resource)] else []
    ensures ExitedBy([e], n) == if e.node == n && e.what.Exited? then [(e.what.key, e.what.resource)] else []
  {
    assert [e][..0] == [];
  }

  lemma {:induction false} NoCrossings(journal: seq<Entry>, n: nat)
    requires forall e :: e in journal && e.node == n ==> !e.what.Entered? && !e.what.Exited?
    ensures EnteredBy(journal, n) == [] && ExitedBy(journal, n) == []
  {
    if journal != [] { NoCrossings(journal[..|journal| - 1], n); }
  }

  lemma AcquiringEnters(n: nat, node: Node, key: string, attempt: Attempt)
    ensures var (after, happened, _) := AcquireNode(node, key, attempt);
            && ExitedBy(Tagged(n, happened), n) == []
            && node.stack + EnteredBy(Tagged(n, happened), n) == after.stack
  {
    var (after, happened, reply) := AcquireNode(node, key, attempt);
    var tagged := Tagged(n, happened);
    hide EnteredBy, ExitedBy;
    if after.stack == node.stack {
      NoCrossings(tagged, n);
    } else {
      var (first, second, third) := (tagged[..1], tagged[1..2], tagged[2..]);
      assert tagged == (first + second) + third;
      EnteredByConcat(first + second, third, n);
      EnteredByConcat(first, second, n);
      NoCrossings(first, n);
      NoCrossings(third, n);
      assert second == [Entry(n, Entered(key, attempt.resource))];
      OneEntry(second[0], n);
    }
  }

  // ---------------------------------------------------------------- what every step keeps

  ghost predicate TreeInv(w: World) {
    && WellParented(w.nodes)
    && (forall e :: e in w.journal ==> e.node < |w.nodes|)
    && (forall n :: 0 <= n < |w.nodes| && w.nodes[n].parent.Some? && w.nodes[w.nodes[n].parent.value].closed ==> w.nodes[n].closed)
  }

  ghost predicate DistinctKeys(pairs: seq<(string, Resource)>) {
    forall i, j :: 0 <= i < j < |pairs| ==> pairs[i].0 != pairs[j].0
  }

  /** The exit stack is the list of entered resources; closing exits them in reverse. */
  ghost predicate CrossingsOk(node: Node, journal: seq<Entry>, n: nat) {
    var entered, exited := EnteredBy(journal, n), ExitedBy(journal, n);
    && DistinctKeys(entered)
    && (if node.closed then exited == Reversed(entered) else exited == [] && entered == node.stack)
    && (!node.closed ==> forall i :: 0 <= i < |node.stack| ==> node.stack[i].0 in node.instances)
  }

  /** The key and resource an entry hands out, if it does. */
  function Provided(what: Happening): Option<(string, Resource)> {
    match what
    case Entered(k, r) => Some((k, r))
    case Cached(k, r) => Some((k, r))
    case Served(k, r) => Some((k, r))
    case _ => None
  }

  ghost predicate Provides(journal: seq<Entry>, n: nat, key: string, r: Resource) {
    exists what :: Entry(n, what) in journal && Provided(what) == Some((key, r))
  }

  /** Every entry of the node that hands out a key hands out the same resource; while open, exactly the cached one. */
  ghost predicate ProvisionOk(node: Node, journal: seq<Entry>, n: nat) {
    && (forall key, r, q :: Provides(journal, n, key, r) && Provides(journal, n, key, q) ==> r == q)
    && (!node.closed ==> forall key, r :: Provides(journal, n, key, r) <==> key in node.instances && node.instances[key] == r)
  }

  /** A build is followed at once by its result. */
  ghost predicate BuildFollowed(journal: seq<Entry>, i: nat)
    requires i < |journal| && journal[i].what.Built?
  {
    && i + 1 < |journal| && journal[i + 1].node == journal[i].node
    && (journal[i + 1].what == BuildFailed(journal[i].what.key)
        || (Provided(journal[i + 1].what).Some? && Provided(journal[i + 1].what).value.0 == journal[i].what.key))
  }

  /** ... and a key is built again in the same scope only if every earlier build of it failed. */
  ghost predicate BuildsOk(journal: seq<Entry>) {
    && (forall i :: 0 <= i < |journal| && journal[i].what.Built? ==> BuildFollowed(journal, i))
    && (forall i, j :: 0 <= i < j < |journal| && journal[i].what.Built? && journal[j] == journal[i] ==>
          i + 1 < |journal| && journal[i + 1].what.BuildFailed?)
  }

  ghost predicate Above(nodes: seq<Node>, a: nat, n: nat)
    requires WellParented(nodes) && n < |nodes|
    decreases n
  {
    nodes[n].parent.Some? && (nodes[n].parent.value == a || Above(nodes, a, nodes[n].parent.value))
  }

  /** Nothing happens in a scope once one of its ancestors has begun to exit its resources. */
  ghost predicate OutlivesOk(nodes: seq<Node>, journal: seq<Entry>)
    requires WellParented(nodes)
  {
    && (forall e :: e in journal && e.what.Exited? && e.node < |nodes| ==> nodes[e.node].closed)
    && (forall i, j :: 0 <= i < j < |journal| ==> QuietAfter(nodes, journal[i], journal[j]))
  }

  ghost predicate QuietAfter(nodes: seq<Node>, earlier: Entry, later: Entry)
    requires WellParented(nodes)
  {
    earlier.what.Exited? && later.node < |nodes| ==> !Above(nodes, earlier.node, later.node)
  }

  ghost predicate Inv(w: World) {
    && TreeInv(w)
    && (forall n :: 0 <= n < |w.nodes| ==> CrossingsOk(w.nodes[n], w.journal, n))
    && (forall n :: 0 <= n < |w.nodes| ==> ProvisionOk(w.nodes[n], w.journal, n))
    && BuildsOk(w.journal)
    && OutlivesOk(w.nodes, w.journal)
  }

  lemma {:induction false} AncestorsClosed(w: World, a: nat, n: nat)
    requires TreeInv(w) && n < |w.nodes| && Above(w.nodes, a, n)
    ensures a < n && (w.nodes[a].closed ==> w.nodes[n].closed)
    decreases n
  {
    if w.nodes[n].parent.value != a { AncestorsClosed(w, a, w.nodes[n].parent.value); }
  }

  lemma {:induction false} AboveStable(nodes: seq<Node>, more: seq<Node>, a: nat, n: nat)
    requires WellParented(nodes) && WellParented(more) && |nodes| <= |more| && n < |nodes|
    requires forall i :: 0 <= i < |nodes| ==> more[i].parent == nodes[i].parent
    ensures Above(nodes, a, n) <==> Above(more, a, n)
    decreases n
  {
    if nodes[n].parent.Some? { AboveStable(nodes, more, a, nodes[n].parent.value); }
  }

  /** The shape shared by acquiring and closing: one node changes and tells the journal. */
  ghost predicate Change(w: World, v: World, n: nat, node: Node, happened: seq<Happening>) {
    && n < |w.nodes|
    && v == World(w.nodes[n := node], w.journal + Tagged(n, happened))
    && node.parent == w.nodes[n].parent && node.kind == w.nodes[n].kind
    && (w.nodes[n].closed ==> node == w.nodes[n] && happened == [])
  }

  lemma ChangeKeepsCrossings(w: World, v: World, n: nat, node: Node, happened: seq<Happening>, m: nat)
    requires Inv(w) && Change(w, v, n, node, happened) && m < |v.nodes|
    requires CrossingsOk(node, v.journal, n)
    ensures CrossingsOk(v.nodes[m], v.journal, m)
  {
    if m != n {
      assert CrossingsOk(w.nodes[m], w.journal, m);
      hide EnteredBy, ExitedBy, Inv;
      EnteredByConcat(w.journal, Tagged(n, happened), m);
      OthersSeeNothing(n, happened, m);
      assert EnteredBy(v.journal, m) == EnteredBy(w.journal, m);
      assert ExitedBy(v.journal, m) == ExitedBy(w.journal, m);
    }
  }

  lemma ProvidesGrows(journal: seq<Entry>, n: nat, happened: seq<Happening>, m: nat, key: string, r: Resource)
    ensures Provides(journal + Tagged(n, happened), m, key, r) <==>
            Provides(journal, m, key, r) || (m == n && exists what :: what in happened && Provided(what) == Some((key, r)))
  {
    var tagged := Tagged(n, happened);
    forall what ensures Entry(m, what) in tagged <==> m == n && what in happened {
      if m == n && what in happened {
        var i :| 0 <= i < |happened| && happened[i] == what;
        assert tagged[i] == Entry(n, what);
      }
    }
    if m == n && exists what :: what in happened && Provided(what) == Some((key, r)) {
      var what :| what in happened && Provided(what) == Some((key, r));
      assert Entry(m, what) in journal + tagged;
    }
    if Provides(journal, m, key, r) {
      var what :| Entry(m, what) in journal && Provided(what) == Some((key, r));
      assert Entry(m, what) in journal + tagged;
    }
  }

  lemma ChangeKeepsProvision(w: World, v: World, n: nat, node: Node, happened: seq<Happening>, m: nat)
    requires Inv(w) && Change(w, v, n, node, happened) && m < |v.nodes|
    requires ProvisionOk(node, v.journal, n)
    ensures ProvisionOk(v.nodes[m], v.journal, m)
  {
    if m != n {
      assert ProvisionOk(w.nodes[m], w.journal, m);
      hide Inv, Provides;
      forall key, r ensures Provides(v.journal, m, key, r) <==> Provides(w.journal, m, key, r) {
        ProvidesGrows(w.journal, n, happened, m, key, r);
      }
    }
  }

  /** Whatever a live scope does, no ancestor of it has exited anything before. */
  lemma LiveScopesComeFirst(w: World, n: nat, earlier: Entry, later: Entry)
    requires TreeInv(w) && OutlivesOk(w.nodes, w.journal) && n < |w.nodes| && !w.nodes[n].closed && later.node == n
    requires earlier in w.journal || earlier.node == n
    ensures QuietAfter(w.nodes, earlier, later)
  {
    if Above(w.nodes, earlier.node, n) { AncestorsClosed(w, earlier.node, n); }
  }

  lemma QuietStable(nodes: seq<Node>, more: seq<Node>, earlier: Entry, later: Entry)
    requires WellParented(nodes) && WellParented(more) && |nodes| <= |more| && later.node < |nodes|
    requires forall i :: 0 <= i < |nodes| ==> more[i].parent == nodes[i].parent
    ensures QuietAfter(nodes, earlier, later) <==> QuietAfter(more, earlier, later)
  {
    AboveStable(nodes, more, earlier.node, later.node);
  }

  lemma ChangeKeepsOrder(w: World, v: World, n: nat, node: Node, happened: seq<Happening>, i: nat, j: nat)
    requires TreeInv(w) && OutlivesOk(w.nodes, w.journal) && Change(w, v, n, node, happened)
    requires WellParented(v.nodes) && i < j < |v.journal|
    ensures QuietAfter(v.nodes, v.journal[i], v.journal[j])
  {
    hide QuietAfter;
    if j < |w.journal| {
      assert v.journal[i] == w.journal[i] && v.journal[j] == w.journal[j];
      assert QuietAfter(w.nodes, w.journal[i], w.journal[j]);
      assert w.journal[j] in w.journal;
    } else {
      assert v.journal[i] in w.journal || v.journal[i].node == n;
      LiveScopesComeFirst(w, n, v.journal[i], v.journal[j]);
    }
    QuietStable(w.nodes, v.nodes, v.journal[i], v.journal[j]);
  }

  lemma ChangeKeepsTree(w: World, v: World, n: nat, node: Node, happened: seq<Happening>)
    requires TreeInv(w) && Change(w, v, n, node, happened)
    requires node.closed && !w.nodes[n].closed ==>
               forall c :: 0 <= c < |w.nodes| && w.nodes[c].parent == Some(n) ==> w.nodes[c].closed
    ensures TreeInv(v)
  {
    assert WellParented(v.nodes);
    forall e | e in v.journal ensures e.node < |v.nodes| {
      if e !in w.journal { assert e in Tagged(n, happened); }
    }
  }

  lemma ChangeKeepsOutlives(w: World, v: World, n: nat, node: Node, happened: seq<Happening>)
    requires TreeInv(w) && TreeInv(v) && OutlivesOk(w.nodes, w.journal) && Change(w, v, n, node, happened)
    requires (exists what :: what in happened && what.Exited?) ==> node.closed
    ensures OutlivesOk(v.nodes, v.journal)
  {
    hide QuietAfter;
    forall i, j | 0 <= i < j < |v.journal| ensures QuietAfter(v.nodes, v.journal[i], v.journal[j]) {
      ChangeKeepsOrder(w, v, n, node, happened, i, j);
    }
    forall e | e in v.journal && e.what.Exited? && e.node < |v.nodes| ensures v.nodes[e.node].closed {
      if e !in w.journal {
        assert e in Tagged(n, happened);
        assert e.what in happened;
      }
    }
  }

  // ---------------------------------------------------------------- the three kinds of step

  lemma AcquireCrossings(node: Node, journal: seq<Entry>, n: nat, key: string, attempt: Attempt)
    requires CrossingsOk(node, journal, n)
    ensures var (after, happened, _) := AcquireNode(node, key, attempt);
            CrossingsOk(after, journal + Tagged(n, happened), n)
  {
    hide EnteredBy, ExitedBy;
    var (after, happened, reply) := AcquireNode(node, key, attempt);
    EnteredByConcat(journal, Tagged(n, happened), n);
    AcquiringEnters(n, node, key, attempt);
    if node.closed {
      assert Tagged(n, happened) == [];
      assert journal + Tagged(n, happened) == journal;
    }
  }

  lemma AcquireProvision(node: Node, journal: seq<Entry>, n: nat, key: string, attempt: Attempt)
    requires ProvisionOk(node, journal, n)
    ensures var (after, happened, _) := AcquireNode(node, key, attempt);
            ProvisionOk(after, journal + Tagged(n, happened), n)
  {
    hide Provides;
    var (after, happened, reply) := AcquireNode(node, key, attempt);
    if node.closed {
      assert journal + Tagged(n, happened) == journal;
    } else {
      forall k, r ensures Provides(journal + Tagged(n, happened), n, k, r) <==> k in after.instances && after.instances[k] == r {
        ProvidesGrows(journal, n, happened, n, k, r);
        if after != node && k == key && r == after.instances[k] { assert happened[2] == Served(k, r) && happened[2] in happened; }
      }
    }
  }

  lemma AcquireBuilds(node: Node, journal: seq<Entry>, n: nat, key: string, attempt: Attempt)
    requires BuildsOk(journal) && ProvisionOk(node, journal, n)
    ensures BuildsOk(journal + Tagged(n, AcquireNode(node, key, attempt).1))
  {
    var happened := AcquireNode(node, key, attempt).1;
    var longer := journal + Tagged(n, happened);
    forall i | 0 <= i < |longer| && longer[i].what.Built? ensures BuildFollowed(longer, i) {
      if i < |journal| {
        assert journal[i] == longer[i] && BuildFollowed(journal, i);
        assert journal[i + 1] == longer[i + 1];
      }
    }
    forall i, j | 0 <= i < j < |longer| && longer[i].what.Built? && longer[j] == longer[i]
      ensures i + 1 < |longer| && longer[i + 1].what.BuildFailed?
    {
      assert i < |journal| && BuildFollowed(journal, i);
      assert longer[i] == journal[i] && longer[i + 1] == journal[i + 1];
      if j < |journal| {
        assert longer[j] == journal[j];
      } else if Provided(journal[i + 1].what).Some? {
        var r := Provided(journal[i + 1].what).value.1;
        assert Entry(n, journal[i + 1].what) in journal;
        assert Provides(journal, n, key, r);
      }
    }
  }

  lemma CloseCrossings(node: Node, journal: seq<Entry>, n: nat)
    requires CrossingsOk(node, journal, n)
    ensures CrossingsOk(CloseNode(node).0, journal + Tagged(n, CloseNode(node).1), n)
  {
    hide EnteredBy, ExitedBy, ExitsOf;
    if node.closed {
      assert journal + Tagged(n, []) == journal;
    } else {
      EnteredByConcat(journal, Tagged(n, ExitsOf(node.stack)), n);
      ClosingExitsReversed(n, node.stack);
      assert [] + Reversed(node.stack) == Reversed(node.stack);
      assert node.stack + [] == node.stack;
    }
  }

  lemma {:induction false} ExitsOnlyExit(stack: seq<(string, Resource)>)
    ensures forall what :: what in ExitsOf(stack) ==> what.Exited?
  {
    if stack != [] { ExitsOnlyExit(stack[..|stack| - 1]); }
  }

  lemma CloseProvision(node: Node, journal: seq<Entry>, n: nat)
    requires ProvisionOk(node, journal, n)
    ensures ProvisionOk(CloseNode(node).0, journal + Tagged(n, CloseNode(node).1), n)
  {
    hide Provides;
    ExitsOnlyExit(node.stack);
    var happened := CloseNode(node).1;
    forall k, r ensures Provides(journal + Tagged(n, happened), n, k, r) <==> Provides(journal, n, k, r) {
      ProvidesGrows(journal, n, happened, n, k, r);
    }
    if node.closed { assert journal + Tagged(n, happened) == journal; }
  }

  lemma CloseBuilds(node: Node, journal: seq<Entry>, n: nat)
    requires BuildsOk(journal)
    ensures BuildsOk(journal + Tagged(n, CloseNode(node).1))
  {
    ExitsOnlyExit(node.stack);
    var happened := CloseNode(node).1;
    var longer := journal + Tagged(n, happened);
    forall i | |journal| <= i < |longer| ensures longer[i].what.Exited? {
      assert longer[i].what in happened;
    }
    forall i | 0 <= i < |longer| && longer[i].what.Built? ensures i < |journal| && BuildFollowed(longer, i) {
      assert journal[i] == longer[i] && BuildFollowed(journal, i);
      assert journal[i + 1] == longer[i + 1];
    }
    forall i, j | 0 <= i < j < |longer| && longer[i].what.Built? && longer[j] == longer[i]
      ensures i + 1 < |longer| && longer[i + 1].what.BuildFailed?
    {
      assert j < |journal| && longer[i] == journal[i] && longer[j] == journal[j];
    }
  }

  lemma ChangeKeepsInv(w: World, v: World, n: nat, node: Node, happened: seq<Happening>)
    requires Inv(w) && Change(w, v, n, node, happened)
    requires CrossingsOk(node, v.journal, n) && ProvisionOk(node, v.journal, n) && BuildsOk(v.journal)
    requires node.closed && !w.nodes[n].closed ==>
               forall c :: 0 <= c < |w.nodes| && w.nodes[c].parent == Some(n) ==> w.nodes[c].closed
    requires (exists what :: what in happened && what.Exited?) ==> node.closed
    ensures Inv(v)
  {
    hide CrossingsOk, ProvisionOk, BuildsOk;
    ChangeKeepsTree(w, v, n, node, happened);
    ChangeKeepsOutlives(w, v, n, node, happened);
    forall m | 0 <= m < |v.nodes| ensures CrossingsOk(v.nodes[m], v.journal, m) && ProvisionOk(v.nodes[m], v.journal, m) {
      ChangeKeepsCrossings(w, v, n, node, happened, m);
      ChangeKeepsProvision(w, v, n, node, happened, m);
    }
  }

  lemma OpenKeepsInv(w: World, v: World, parent: nat)
    requires Inv(w) && OpenStep(w, v, parent)
    ensures Inv(v)
  {
    hide CrossingsOk, ProvisionOk, BuildsOk, QuietAfter;
    var n := |w.nodes|;
    assert WellParented(v.nodes);
    forall m | 0 <= m < |v.nodes| ensures CrossingsOk(v.nodes[m], v.journal, m) && ProvisionOk(v.nodes[m], v.journal, m) {
      if m < n { assert v.nodes[m] == w.nodes[m]; } else { NewScopeIsEmpty(v.nodes[n], w.journal, n); }
    }
    forall i, j | 0 <= i < j < |v.journal| ensures QuietAfter(v.nodes, v.journal[i], v.journal[j]) {
      assert w.journal[j] in w.journal;
      assert QuietAfter(w.nodes, w.journal[i], w.journal[j]);
      QuietStable(w.nodes, v.nodes, w.journal[i], w.journal[j]);
    }
  }

  lemma NewScopeIsEmpty(node: Node, journal: seq<Entry>, n: nat)
    requires forall e :: e in journal ==> e.node != n
    requires !node.closed && node.stack == [] && node.instances == map[]
    ensures CrossingsOk(node, journal, n) && ProvisionOk(node, journal, n)
  {
    NoCrossings(journal, n);
  }

  lemma NextKeepsInv(w: World, v: World)
    requires Inv(w) && Next(w, v)
    ensures Inv(v)
  {
    hide CrossingsOk, ProvisionOk, BuildsOk, OutlivesOk;
    if parent: nat :| OpenStep(w, v, parent) {
      OpenKeepsInv(w, v, parent);
    } else if n: nat, scope, key, attempt, reply :| AcquireStep(w, v, n, scope, key, attempt, reply) {
      if OwnerOf(w.nodes, n, scope).Some? {
        var owner := OwnerOf(w.nodes, n, scope).value;
        var (node, happened, answer) := AcquireNode(w.nodes[owner], key, attempt);
        AcquireCrossings(w.nodes[owner], w.journal, owner, key, attempt);
        AcquireProvision(w.nodes[owner], w.journal, owner, key, attempt);
        AcquireBuilds(w.nodes[owner], w.journal, owner, key, attempt);
        ChangeKeepsInv(w, v, owner, node, happened);
      }
    } else {
      var n: nat :| CloseStep(w, v, n);
      var (node, happened) := CloseNode(w.nodes[n]);
      CloseCrossings(w.nodes[n], w.journal, n);
      CloseProvision(w.nodes[n], w.journal, n);
      CloseBuilds(w.nodes[n], w.journal, n);
      ChangeKeepsInv(w, v, n, node, happened);
    }
  }

  lemma StartOk()
    ensures Inv(START)
  {}

  lemma {:induction false} AlwaysInv(run: seq<World>)
    requires IsRun(run)
    ensures Inv(run[|run| - 1])
  {
    hide Inv, Next, WellParented;
    StartOk();
    if |run| > 1 {
      AlwaysInv(run[..|run| - 1]);
      assert Next(run[|run| - 2], run[|run| - 2 + 1]);
      NextKeepsInv(run[|run| - 2], run[|run| - 1]);
    }
  }

  // ---------------------------------------------------------------- theorems about runs

  /**
   * Each scope enters a key at most once, exits nothing before it closes, and by closing exits
   * exactly what it entered, in reverse order.
   */
  lemma EnteredOnceExitedInReverse(run: seq<World>, n: nat)
    requires IsRun(run) && n < |run[|run| - 1].nodes|
    ensures var w := run[|run| - 1];
            && DistinctKeys(EnteredBy(w.journal, n))
            && ExitedBy(w.journal, n) == if w.nodes[n].closed then Reversed(EnteredBy(w.journal, n)) else []
  {
    AlwaysInv(run);
    assert CrossingsOk(run[|run| - 1].nodes[n], run[|run| - 1].journal, n);
  }

  /** Every acquire of a key in a scope's lifetime is served the one resource that was built for it. */
  lemma ServedResourceIsUnique(run: seq<World>, i: nat, j: nat)
    requires IsRun(run) && i < |run[|run| - 1].journal| && j < |run[|run| - 1].journal|
    requires var journal := run[|run| - 1].journal;
             && journal[i].node == journal[j].node
             && Provided(journal[i].what).Some? && Provided(journal[j].what).Some?
             && Provided(journal[i].what).value.0 == Provided(journal[j].what).value.0
    ensures Provided(run[|run| - 1].journal[i].what) == Provided(run[|run| - 1].journal[j].what)
  {
    AlwaysInv(run);
    var w := run[|run| - 1];
    var (e, f) := (w.journal[i], w.journal[j]);
    assert e in w.journal && f in w.journal && ProvisionOk(w.nodes[e.node], w.journal, e.node);
    var ((key, r), (_, q)) := (Provided(e.what).value, Provided(f.what).value);
    assert e == Entry(e.node, e.what) && f == Entry(e.node, f.what);
    assert Provides(w.journal, e.node, key, r) && Provides(w.journal, e.node, key, q);
  }

  /** Of two builds of a key in a scope the earlier one failed. */
  lemma RebuiltOnlyAfterFailure(run: seq<World>, i: nat, j: nat)
    requires IsRun(run) && i < j < |run[|run| - 1].journal|
    requires run[|run| - 1].journal[i].what.Built? && run[|run| - 1].journal[j] == run[|run| - 1].journal[i]
    ensures i + 1 < |run[|run| - 1].journal|
    ensures run[|run| - 1].journal[i + 1] == Entry(run[|run| - 1].journal[i].node, BuildFailed(run[|run| - 1].journal[i].what.key))
  {
    AlwaysInv(run);
    assert BuildFollowed(run[|run| - 1].journal, i);
  }

  ghost predicate Attempted(journal: seq<Entry>, n: nat, key: string) {
    Entry(n, Built(key)) in journal
  }

  ghost predicate EverProvided(journal: seq<Entry>, n: nat, key: string) {
    exists r :: Provides(journal, n, key, r)
  }

  /** The step from `w` to `v` builds the key in scope `n`. */
  ghost predicate BuildsNow(w: World, v: World, n: nat, key: string) {
    |w.journal| <= |v.journal| && Attempted(v.journal[|w.journal|..], n, key)
  }

  lemma CachedIffProvided(node: Node, journal: seq<Entry>, n: nat, key: string)
    requires ProvisionOk(node, journal, n) && !node.closed
    ensures key in node.instances <==> EverProvided(journal, n, key)
  {
    hide Provides;
    if key in node.instances { assert Provides(journal, n, key, node.instances[key]); }
  }

  /** Each build of the key in the scope is followed at once by its failure. */
  ghost predicate AllFailed(journal: seq<Entry>, n: nat, key: string) {
    forall i :: 0 <= i < |journal| && journal[i] == Entry(n, Built(key)) ==>
      i + 1 < |journal| && journal[i + 1] == Entry(n, BuildFailed(key))
  }

  lemma UnprovidedFailed(journal: seq<Entry>, n: nat, key: string)
    requires BuildsOk(journal) && !EverProvided(journal, n, key)
    ensures AllFailed(journal, n, key)
  {
    forall i | 0 <= i < |journal| && journal[i] == Entry(n, Built(key))
      ensures i + 1 < |journal| && journal[i + 1] == Entry(n, BuildFailed(key))
    {
      assert BuildFollowed(journal, i);
      var next := journal[i + 1];
      assert next in journal && next == Entry(n, next.what);
      if Provided(next.what).Some? { assert Provides(journal, n, key, Provided(next.what).value.1); }
    }
  }

  /**
   * Over every run: an acquire of a key from an open scope builds it exactly when nothing that happened
   * in the scope provided it. So it is built a second time exactly when it was attempted before and
   * never provided, and then every earlier attempt failed.
   */
  lemma {:induction false} BuiltExactlyUntilProvided(
      run: seq<World>, v: World, n: nat, scope: Scope, key: string, attempt: Attempt, reply: Reply, owner: nat)
    requires IsRun(run) && WellParented(run[|run| - 1].nodes) && AcquireStep(run[|run| - 1], v, n, scope, key, attempt, reply)
    requires OwnerOf(run[|run| - 1].nodes, n, scope) == Some(owner) && !run[|run| - 1].nodes[owner].closed
    ensures var w := run[|run| - 1];
            && (BuildsNow(w, v, owner, key) <==> !EverProvided(w.journal, owner, key))
            && (BuildsNow(w, v, owner, key) ==> AllFailed(w.journal, owner, key))
  {
    hide OwnerOf, CrossingsOk, BuildsOk, OutlivesOk, Provides;
    var w := run[|run| - 1];
    AlwaysInv(run);
    var node := w.nodes[owner];
    assert ProvisionOk(node, w.journal, owner);
    var (after, happened, answer) := AcquireNode(node, key, attempt);
    assert v.journal[|w.journal|..] == Tagged(owner, happened);
    CachedIffProvided(node, w.journal, owner, key);
    if key in node.instances {
      assert Tagged(owner, happened) == [Entry(owner, Served(key, node.instances[key]))];
    } else {
      assert Tagged(owner, happened)[0] == Entry(owner, Built(key));
      UnprovidedFailed(w.journal, owner, key);
    }
  }

  /**
   * "Constructed at most once" fails on every run that has not provided a key yet: a factory, or the
   * entering of its result, may raise, and the next acquire builds again.
   */
  lemma {:induction false} FailedBuildIsRepeated(run: seq<World>, n: nat, scope: Scope, key: string, r: Resource, owner: nat)
    returns (again: seq<World>)
    requires IsRun(run) && WellParented(run[|run| - 1].nodes) && n < |run[|run| - 1].nodes|
    requires OwnerOf(run[|run| - 1].nodes, n, scope) == Some(owner) && owner < |run[|run| - 1].nodes|
    requires !run[|run| - 1].nodes[owner].closed && !EverProvided(run[|run| - 1].journal, owner, key)
    ensures IsRun(again) && |again| == |run| + 2 && again[..|run|] == run
    ensures BuildsNow(again[|run| - 1], again[|run|], owner, key)
    ensures BuildsNow(again[|run|], again[|run| + 1], owner, key)
    ensures Provides(again[|run| + 1].journal, owner, key, r)
  {
    hide OwnerOf, CrossingsOk, BuildsOk, OutlivesOk, Provides, WellParented, BuildsNow;
    var w := run[|run| - 1];
    AlwaysInv(run);
    assert ProvisionOk(w.nodes[owner], w.journal, owner);
    CachedIffProvided(w.nodes[owner], w.journal, owner, key);
    var first := World(w.nodes, w.journal + Tagged(owner, [Built(key), BuildFailed(key)]));
    assert w.nodes[owner := w.nodes[owner]] == w.nodes;
    assert AcquireStep(w, first, n, scope, key, Raises, AttemptRaised);
    var (node, happened, reply) := AcquireNode(w.nodes[owner], key, Makes(r, true));
    var second := World(w.nodes[owner := node], first.journal + Tagged(owner, happened));
    assert AcquireStep(first, second, n, scope, key, Makes(r, true), reply);
    again := run + [first, second];
    GrownRun(run, first, second);
    BuildsFirst(w, first, owner, key, [Built(key), BuildFailed(key)]);
    BuildsFirst(first, second, owner, key, happened);
    ProvidesGrows(first.journal, owner, happened, owner, key, r);
    assert Served(key, r) in happened;
  }

  lemma GrownRun(run: seq<World>, first: World, second: World)
    requires IsRun(run) && WellParented(run[|run| - 1].nodes) && WellParented(first.nodes)
    requires Next(run[|run| - 1], first) && Next(first, second)
    ensures IsRun(run + [first, second])
  {
    hide Next, WellParented;
  }

  lemma BuildsFirst(w: World, v: World, n: nat, key: string, happened: seq<Happening>)
    requires v.journal == w.journal + Tagged(n, happened) && happened != [] && happened[0] == Built(key)
    ensures BuildsNow(w, v, n, key)
  {
    assert v.journal[|w.journal|..] == Tagged(n, happened);
    assert Tagged(n, happened)[0] == Entry(n, Built(key));
  }

  /** Nothing in a scope happens after one of its ancestors has exited a resource. */
  lemma AncestorsOutlive(run: seq<World>, i: nat, j: nat)
    requires IsRun(run) && i < j < |run[|run| - 1].journal|
    requires run[|run| - 1].journal[i].what.Exited?
    ensures var w := run[|run| - 1];
            WellParented(w.nodes) && w.journal[j].node < |w.nodes| && !Above(w.nodes, w.journal[i].node, w.journal[j].node)
  {
    AlwaysInv(run);
    var w := run[|run| - 1];
    assert w.journal[j] in w.journal && QuietAfter(w.nodes, w.journal[i], w.journal[j]);
  }

  /** The owner found for a scope kind is the nearest node of that kind at or above the handle. */
  lemma {:induction false} OwnerIsNearest(nodes: seq<Node>, n: nat, scope: Scope)
    requires WellParented(nodes) && n < |nodes|
    ensures match OwnerOf(nodes, n, scope)
            case Some(o) => && o < |nodes| && nodes[o].kind == scope && (o == n || Above(nodes, o, n))
                            && forall m :: 0 <= m < |nodes| && nodes[m].kind == scope && (m == n || Above(nodes, m, n)) ==> m <= o
            case None => forall m :: 0 <= m < |nodes| && (m == n || Above(nodes, m, n)) ==> nodes[m].kind != scope
    decreases n
  {
    if nodes[n].parent.Some? && nodes[n].kind != scope {
      OwnerIsNearest(nodes, nodes[n].parent.value, scope);
    }
    forall m | 0 <= m < |nodes| && Above(nodes, m, n) ensures m < n {
      AboveIsSmaller(nodes, m, n);
    }
  }

  lemma {:induction false} AboveIsSmaller(nodes: seq<Node>, a: nat, n: nat)
    requires WellParented(nodes) && n < |nodes| && Above(nodes, a, n)
    ensures a < n
    decreases n
  {
    if nodes[n].parent.value != a { AboveIsSmaller(nodes, a, nodes[n].parent.value); }
  }
}
