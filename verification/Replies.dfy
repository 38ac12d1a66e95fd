/**
 What an acquire answers, told from the journal of everything that happened before: the resource the
 scope has provided for the key, or the one just made, and an error in exactly the other cases.
 */
module Replies {
  import opened Basics
  import opened Lifecycle

  /** What an acquire of a key from an open scope adds to the journal, given what was provided before. */
  ghost predicate Adds(journal: seq<Entry>, owner: nat, key: string, attempt: Attempt, added: seq<Entry>) {
    if EverProvided(journal, owner, key) then
      exists r :: Provides(journal, owner, key, r) && added == [Entry(owner, Served(key, r))]
    else match attempt
      case Raises => added == [Entry(owner, Built(key)), Entry(owner, BuildFailed(key))]
      case Makes(r, managed) =>
        added == [Entry(owner, Built(key)), Entry(owner, if managed then Entered(key, r) else Cached(key, r)),
                  Entry(owner, Served(key, r))]
  }

  lemma TaggedOpens(owner: nat, happened: seq<Happening>)
    ensures |Tagged(owner, happened)| == |happened|
    ensures forall i :: 0 <= i < |happened| ==> Tagged(owner, happened)[i] == Entry(owner, happened[i])
  {}

  /** Over every run: what happens in the owning scope. */
  lemma {:induction false} AcquireIsToldByJournal(
      run: seq<World>, v: World, n: nat, scope: Scope, key: string, attempt: Attempt, reply: Reply, owner: nat)
    requires IsRun(run) && WellParented(run[|run| - 1].nodes) && AcquireStep(run[|run| - 1], v, n, scope, key, attempt, reply)
    requires OwnerOf(run[|run| - 1].nodes, n, scope) == Some(owner)
    ensures var w := run[|run| - 1];
            && w.journal <= v.journal
            && (if w.nodes[owner].closed then v == w
                else Adds(w.journal, owner, key, attempt, v.journal[|w.journal|..]))
  {
    hide OwnerOf, CrossingsOk, BuildsOk, OutlivesOk, Provides, Adds;
    var w := run[|run| - 1];
    AlwaysInv(run);
    var node := w.nodes[owner];
    assert ProvisionOk(node, w.journal, owner);
    var (after, happened, answer) := AcquireNode(node, key, attempt);
    assert v.journal[|w.journal|..] == Tagged(owner, happened);
    if node.closed {
      assert w.nodes[owner := node] == w.nodes;
      assert w.journal + Tagged(owner, []) == w.journal;
    } else {
      HappenedIsAdded(node, w.journal, owner, key, attempt);
    }
  }

  lemma HappenedIsAdded(node: Node, journal: seq<Entry>, owner: nat, key: string, attempt: Attempt)
    requires !node.closed && ProvisionOk(node, journal, owner)
    ensures Adds(journal, owner, key, attempt, Tagged(owner, AcquireNode(node, key, attempt).1))
  {
    TaggedOpens(owner, AcquireNode(node, key, attempt).1);
    CachedIffProvided(node, journal, owner, key);
    if key in node.instances { assert Provides(journal, owner, key, node.instances[key]); }
  }

  /**
   * The answer. Without a scope of that kind it is an error, from a closed scope it is another, and
   * exactly when the key was never provided and the attempt raises it is that failure. Otherwise a
   * resource is got, and it is the one just served: the one provided before, or else the one made.
   */
  lemma {:induction false} AnswersAreExact(
      run: seq<World>, v: World, n: nat, scope: Scope, key: string, attempt: Attempt, reply: Reply)
    requires IsRun(run) && WellParented(run[|run| - 1].nodes) && AcquireStep(run[|run| - 1], v, n, scope, key, attempt, reply)
    ensures reply == NoSuchScope <==> OwnerOf(run[|run| - 1].nodes, n, scope).None?
    ensures forall owner :: OwnerOf(run[|run| - 1].nodes, n, scope) == Some(owner) ==>
              var w := run[|run| - 1];
              && (reply == ScopeClosed <==> w.nodes[owner].closed)
              && (reply == AttemptRaised <==>
                    !w.nodes[owner].closed && !EverProvided(w.journal, owner, key) && attempt.Raises?)
              && (forall r :: reply == Got(r) <==>
                    |w.journal| < |v.journal| && v.journal[|v.journal| - 1] == Entry(owner, Served(key, r)))
              && (forall r :: reply == Got(r) ==>
                    if EverProvided(w.journal, owner, key) then Provides(w.journal, owner, key, r)
                    else attempt.Makes? && attempt.resource == r)
  {
    hide OwnerOf, CrossingsOk, BuildsOk, OutlivesOk, Provides;
    var w := run[|run| - 1];
    AlwaysInv(run);
    if OwnerOf(w.nodes, n, scope).Some? {
      var owner := OwnerOf(w.nodes, n, scope).value;
      var node := w.nodes[owner];
      assert ProvisionOk(node, w.journal, owner);
      var (after, happened, answer) := AcquireNode(node, key, attempt);
      TaggedOpens(owner, happened);
      if !node.closed {
        CachedIffProvided(node, w.journal, owner, key);
        if key in node.instances { assert Provides(w.journal, owner, key, node.instances[key]); }
      }
    }
  }

  lemma {:induction false} RunPrefix(run: seq<World>, n: nat)
    requires IsRun(run) && n < |run|
    ensures IsRun(run[..n + 1])
  {
    hide Next, WellParented;
  }

  lemma StepExtends(w: World, v: World)
    requires WellParented(w.nodes) && Next(w, v)
    ensures w.journal <= v.journal
  {
    hide OwnerOf, AcquireNode, CloseNode;
  }

  /** The journal only grows. */
  lemma {:induction false} JournalGrows(run: seq<World>, i: nat, j: nat)
    requires IsRun(run) && i <= j < |run|
    ensures run[i].journal <= run[j].journal
    decreases j
  {
    hide Next, WellParented;
    if i < j {
      JournalGrows(run, i, j - 1);
      assert WellParented(run[j - 1].nodes) && Next(run[j - 1], run[j - 1 + 1]);
      StepExtends(run[j - 1], run[j]);
    }
  }

  /** A resource that an acquire answered is in the journal for good. */
  lemma {:induction false} GotIsServed(run: seq<World>, i: nat, n: nat, scope: Scope, key: string, attempt: Attempt, r: Resource, owner: nat)
    requires IsRun(run) && i + 1 < |run| && WellParented(run[i].nodes)
    requires AcquireStep(run[i], run[i + 1], n, scope, key, attempt, Got(r)) && OwnerOf(run[i].nodes, n, scope) == Some(owner)
    ensures Entry(owner, Served(key, r)) in run[|run| - 1].journal
  {
    hide OwnerOf, Next, AcquireStep, WellParented;
    RunPrefix(run, i);
    assert run[..i + 1][i] == run[i];
    AnswersAreExact(run[..i + 1], run[i + 1], n, scope, key, attempt, Got(r));
    JournalGrows(run, i + 1, |run| - 1);
    var last := run[i + 1].journal[|run[i + 1].journal| - 1];
    assert last == Entry(owner, Served(key, r));
    assert run[|run| - 1].journal[|run[i + 1].journal| - 1] == last;
  }

  /** All acquires of a key in a scope's lifetime answer the same resource, whatever their factories make. */
  lemma {:induction false} AcquiresAgree(
      run: seq<World>, key: string, owner: nat,
      i: nat, n: nat, scope: Scope, attempt: Attempt, r: Resource,
      j: nat, m: nat, other: Scope, again: Attempt, q: Resource)
    requires IsRun(run) && i + 1 < |run| && j + 1 < |run| && WellParented(run[i].nodes) && WellParented(run[j].nodes)
    requires AcquireStep(run[i], run[i + 1], n, scope, key, attempt, Got(r)) && OwnerOf(run[i].nodes, n, scope) == Some(owner)
    requires AcquireStep(run[j], run[j + 1], m, other, key, again, Got(q)) && OwnerOf(run[j].nodes, m, other) == Some(owner)
    ensures r == q
  {
    hide OwnerOf, Next, AcquireStep, WellParented;
    GotIsServed(run, i, n, scope, key, attempt, r, owner);
    GotIsServed(run, j, m, other, key, again, q, owner);
    var journal := run[|run| - 1].journal;
    var a: nat :| a < |journal| && journal[a] == Entry(owner, Served(key, r));
    var b: nat :| b < |journal| && journal[b] == Entry(owner, Served(key, q));
    ServedResourceIsUnique(run, a, b);
  }

  // ---------------------------------------------------------------- how scopes nest

  /** The process scope is the root; request scopes are under it, and operation scopes under request scopes. */
  ghost predicate NestByKind(nodes: seq<Node>) {
    && WellParented(nodes) && nodes != []
    && forall n :: 0 <= n < |nodes| ==> NestsAt(nodes, n)
  }

  ghost predicate NestsAt(nodes: seq<Node>, n: nat)
    requires WellParented(nodes) && n < |nodes|
  {
    match nodes[n].kind
    case ProcessScope => n == 0 && nodes[n].parent.None?
    case RequestScope => nodes[n].parent == Some(0)
    case OperationScope => nodes[n].parent.Some? && nodes[nodes[n].parent.value].kind.RequestScope?
  }

  lemma StepNests(w: World, v: World)
    requires WellParented(w.nodes) && NestByKind(w.nodes) && Next(w, v)
    ensures NestByKind(v.nodes)
  {
    hide OwnerOf;
    if parent: nat :| OpenStep(w, v, parent) {
      assert forall n :: 0 <= n < |w.nodes| ==> v.nodes[n] == w.nodes[n];
      assert NestsAt(w.nodes, parent);
    }
    assert forall n :: 0 <= n < |w.nodes| ==> v.nodes[n].kind == w.nodes[n].kind && v.nodes[n].parent == w.nodes[n].parent;
    forall n | 0 <= n < |v.nodes| ensures NestsAt(v.nodes, n) {
      if n < |w.nodes| { assert NestsAt(w.nodes, n); }
    }
  }

  /** In every run; so a request is owned by itself or the process, an operation by itself or one of those. */
  lemma {:induction false} ScopesNestByKind(run: seq<World>)
    requires IsRun(run)
    ensures NestByKind(run[|run| - 1].nodes)
  {
    if |run| > 1 {
      hide Next, NestByKind, WellParented;
      ScopesNestByKind(run[..|run| - 1]);
      assert WellParented(run[|run| - 2].nodes) && Next(run[|run| - 2], run[|run| - 2 + 1]);
      StepNests(run[|run| - 2], run[|run| - 1]);
    }
  }

  // ---------------------------------------------------------------- scopes come and go

  lemma RunGrows(run: seq<World>, v: World)
    requires IsRun(run) && WellParented(run[|run| - 1].nodes) && Next(run[|run| - 1], v)
    ensures IsRun(run + [v])
  {
    hide Next, WellParented;
  }

  /** The process scope opens requests and a request opens operations at any time: a fresh, empty scope. */
  lemma {:induction false} ScopesCanOpen(run: seq<World>, parent: nat) returns (v: World)
    requires IsRun(run) && parent < |run[|run| - 1].nodes| && !run[|run| - 1].nodes[parent].closed
    requires !run[|run| - 1].nodes[parent].kind.OperationScope?
    ensures var w := run[|run| - 1];
            && IsRun(run + [v]) && |v.nodes| == |w.nodes| + 1 && v.nodes[..|w.nodes|] == w.nodes && v.journal == w.journal
            && var added := v.nodes[|w.nodes|];
               && added.parent == Some(parent) && added.stack == [] && added.instances == map[] && !added.closed
               && added.kind == if w.nodes[parent].kind.ProcessScope? then RequestScope else OperationScope
  {
    var w := run[|run| - 1];
    AlwaysInv(run);
    var kind := if w.nodes[parent].kind.ProcessScope? then RequestScope else OperationScope;
    v := w.(nodes := w.nodes + [Node(kind, Some(parent), [], map[], false)]);
    hide Inv, CloseStep, AcquireStep;
    assert OpenStep(w, v, parent);
    RunGrows(run, v);
  }

  ghost predicate ClosedFrom(nodes: seq<Node>, n: nat) {
    forall i :: n <= i < |nodes| ==> nodes[i].closed
  }

  /** The last open scope has no open child, so it can be closed. */
  lemma LastOpenCloses(w: World, n: nat) returns (v: World)
    requires WellParented(w.nodes) && 0 < n <= |w.nodes| && ClosedFrom(w.nodes, n)
    ensures CloseStep(w, v, n - 1) && |v.nodes| == |w.nodes| && ClosedFrom(v.nodes, n - 1)
  {
    var (node, happened) := CloseNode(w.nodes[n - 1]);
    v := World(w.nodes[n - 1 := node], w.journal + Tagged(n - 1, happened));
  }

  lemma {:induction false} ClosedFromOn(run: seq<World>, n: nat) returns (full: seq<World>)
    requires IsRun(run) && n <= |run[|run| - 1].nodes| && ClosedFrom(run[|run| - 1].nodes, n)
    ensures IsRun(full) && run <= full && |full[|full| - 1].nodes| == |run[|run| - 1].nodes|
    ensures ClosedFrom(full[|full| - 1].nodes, 0)
    decreases n
  {
    hide CloseStep, OpenStep, AcquireStep, ClosedFrom, TreeInv;
    full := run;
    if n > 0 {
      WellParentedAtEnd(run);
      var v := LastOpenCloses(run[|run| - 1], n);
      CloseIsNext(run[|run| - 1], v, n - 1);
      hide Next, WellParented, IsRun;
      RunGrows(run, v);
      assert (run + [v])[|run|] == v;
      full := ClosedFromOn(run + [v], n - 1);
      assert run <= run + [v] <= full;
    }
  }

  lemma WellParentedAtEnd(run: seq<World>)
    requires IsRun(run)
    ensures WellParented(run[|run| - 1].nodes)
  {
    AlwaysInv(run);
  }

  lemma CloseIsNext(w: World, v: World, n: nat)
    requires WellParented(w.nodes) && CloseStep(w, v, n)
    ensures Next(w, v)
  {
    hide CloseStep, OpenStep, AcquireStep;
  }

  /** From every reachable state structured closing goes on until every scope, the process scope included, is closed. */
  lemma {:induction false} EveryScopeCanClose(run: seq<World>) returns (full: seq<World>)
    requires IsRun(run)
    ensures IsRun(full) && run <= full && |full[|full| - 1].nodes| == |run[|run| - 1].nodes|
    ensures ClosedFrom(full[|full| - 1].nodes, 0)
  {
    full := ClosedFromOn(run, |run[|run| - 1].nodes|);
  }

  lemma OnlyCloseCloses(w: World, v: World, n: nat)
    requires WellParented(w.nodes) && Next(w, v) && n < |v.nodes| && v.nodes[n].closed
    ensures n < |w.nodes|
    ensures w.nodes[n].closed || CloseStep(w, v, n)
  {
    hide OwnerOf;
  }

  /** And a scope is closed only by its own close, so never before that. */
  lemma {:induction false} ClosedByClose(run: seq<World>, n: nat) returns (k: nat)
    requires IsRun(run) && n < |run[|run| - 1].nodes| && run[|run| - 1].nodes[n].closed
    ensures k + 1 < |run| && n < |run[k].nodes| && !run[k].nodes[n].closed && CloseStep(run[k], run[k + 1], n)
  {
    hide Next, CloseStep, WellParented;
    if |run| > 1 {
      assert WellParented(run[|run| - 2].nodes) && Next(run[|run| - 2], run[|run| - 2 + 1]);
      OnlyCloseCloses(run[|run| - 2], run[|run| - 1], n);
      k := |run| - 2;
      if run[k].nodes[n].closed {
        k := ClosedByClose(run[..|run| - 1], n);
      }
    }
  }
}
