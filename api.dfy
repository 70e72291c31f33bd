/**
 * `API.cs`: the services the loader offers to mods. The main-thread action
 * queue, the update and scene-loaded callback lists, the game-type search and
 * the private-member helpers.
 */
module ModApi {
  import opened Optional
  import opened Reflection
  import opened Logging

  // ---------------- main-thread actions ----------------

  /** An action handed to `RunOnMainThread`, named by an identity of its own. */
  type ActionId = nat

  /**
   * What an action does when it runs: it enqueues `enqueues` (it may enqueue itself)
   * and then, if `failure` is present, throws an exception with that text.
   */
  datatype ActionBehaviour = ActionBehaviour(failure: Option<string>, enqueues: seq<ActionId>)

  /** The actions a drain has run, in order, and what is still queued when it stops. */
  datatype Drained = Drained(order: seq<ActionId>, rest: seq<ActionId>)

  /**
   * At most `fuel` turns of the drain loop on `q`: dequeue the head and run it, its enqueued
   * actions joining the tail, stopping early when the queue is empty.
   */
  function Drain(q: seq<ActionId>, behaviour: ActionId -> ActionBehaviour, fuel: nat): Drained
    decreases fuel
  {
    if fuel == 0 || |q| == 0 then Drained([], q)
    else
      var next := Drain(q[1..] + behaviour(q[0]).enqueues, behaviour, fuel - 1);
      Drained([q[0]] + next.order, next.rest)
  }

  /** `fuel` turns are enough for the drain of `q` to empty the queue. */
  predicate DrainEnds(q: seq<ActionId>, behaviour: ActionId -> ActionBehaviour, fuel: nat)
  {
    Drain(q, behaviour, fuel).rest == []
  }

  /** One turn of a drain that ends: the queue is not yet empty, so the head runs and the bound drops by one. */
  lemma DrainTurn(q: seq<ActionId>, behaviour: ActionId -> ActionBehaviour, fuel: nat)
    requires DrainEnds(q, behaviour, fuel) && |q| != 0
    ensures fuel != 0
    ensures var next := q[1..] + behaviour(q[0]).enqueues;
      && DrainEnds(next, behaviour, fuel - 1)
      && Drain(q, behaviour, fuel).order == [q[0]] + Drain(next, behaviour, fuel - 1).order
  {
  }

  /** Everything the actions of `order` enqueue, one after the other. */
  function Enqueued(order: seq<ActionId>, behaviour: ActionId -> ActionBehaviour): seq<ActionId>
  {
    if |order| == 0 then [] else behaviour(order[0]).enqueues + Enqueued(order[1..], behaviour)
  }

  /** What was queued and what ran enqueued is, as a multiset, what ran and what is left. */
  predicate Conserved(q: seq<ActionId>, d: Drained, behaviour: ActionId -> ActionBehaviour)
  {
    multiset(q) + multiset(Enqueued(d.order, behaviour)) == multiset(d.order) + multiset(d.rest)
  }

  /** The bookkeeping of one turn: the head moves from the queue to what ran, its enqueued actions to the queue. */
  lemma ConservesTurn(q: seq<ActionId>, n: Drained, behaviour: ActionId -> ActionBehaviour)
    requires |q| != 0 && Conserved(q[1..] + behaviour(q[0]).enqueues, n, behaviour)
    ensures Conserved(q, Drained([q[0]] + n.order, n.rest), behaviour)
  {
    var e := behaviour(q[0]).enqueues;
    assert ([q[0]] + n.order)[1..] == n.order;
    assert q == [q[0]] + q[1..];
    var x, a, b, c := multiset([q[0]]), multiset(q[1..]), multiset(e), multiset(Enqueued(n.order, behaviour));
    var d, r := multiset(n.order), multiset(n.rest);
    assert multiset(q[1..] + e) == a + b;
    assert (a + b) + c == d + r;
    forall y
      ensures ((x + a) + (b + c))[y] == ((x + d) + r)[y]
    {
      assert ((a + b) + c)[y] == (d + r)[y];
    }
    assert multiset(q) == x + a;
    assert multiset(Enqueued([q[0]] + n.order, behaviour)) == b + c;
    assert multiset([q[0]] + n.order) == x + d;
  }

  /** No action is lost or made up: what was queued and what ran enqueued is what ran and what is left. */
  lemma {:induction false} DrainConserves(q: seq<ActionId>, behaviour: ActionId -> ActionBehaviour, fuel: nat)
    ensures Conserved(q, Drain(q, behaviour, fuel), behaviour)
    decreases fuel
  {
    if fuel != 0 && |q| != 0 {
      var next := q[1..] + behaviour(q[0]).enqueues;
      DrainConserves(next, behaviour, fuel - 1);
      ConservesTurn(q, Drain(next, behaviour, fuel - 1), behaviour);
    } else {
      assert Drain(q, behaviour, fuel) == Drained([], q);
    }
  }

  /** A drain that ends has run the actions queued at its start first, in queue order. */
  lemma {:induction false} DrainQueuedFirst(q: seq<ActionId>, behaviour: ActionId -> ActionBehaviour, fuel: nat)
    requires DrainEnds(q, behaviour, fuel)
    ensures var d := Drain(q, behaviour, fuel); |q| <= |d.order| && d.order[..|q|] == q
    decreases fuel
  {
    if |q| != 0 {
      var next := q[1..] + behaviour(q[0]).enqueues;
      DrainQueuedFirst(next, behaviour, fuel - 1);
      var n := Drain(next, behaviour, fuel - 1);
      assert n.order[..|q| - 1] == next[..|q| - 1] == q[1..];
      assert Drain(q, behaviour, fuel).order[..|q|] == [q[0]] + n.order[..|q| - 1];
    }
  }

  /** What an action followed by more actions enqueues: its own, then theirs. */
  lemma EnqueuedCons(a: ActionId, order: seq<ActionId>, behaviour: ActionId -> ActionBehaviour)
    ensures Enqueued([a] + order, behaviour) == behaviour(a).enqueues + Enqueued(order, behaviour)
  {
    assert ([a] + order)[1..] == order;
  }

  /** The bookkeeping of one turn, in order: the head moves to the front of what ran. */
  lemma FifoTurn(q: seq<ActionId>, n: Drained, behaviour: ActionId -> ActionBehaviour)
    requires |q| != 0
    requires n.order + n.rest == (q[1..] + behaviour(q[0]).enqueues) + Enqueued(n.order, behaviour)
    ensures ([q[0]] + n.order) + n.rest == q + Enqueued([q[0]] + n.order, behaviour)
  {
    var e, rest := behaviour(q[0]).enqueues, Enqueued(n.order, behaviour);
    EnqueuedCons(q[0], n.order, behaviour);
    assert q == [q[0]] + q[1..];
    assert ([q[0]] + n.order) + n.rest == [q[0]] + (n.order + n.rest);
    assert [q[0]] + ((q[1..] + e) + rest) == ([q[0]] + q[1..]) + (e + rest);
  }

  /**
   * The queue is first in, first out: after any number of turns, what ran followed by what
   * is left is the queue at the start followed by everything the actions that ran enqueued.
   */
  lemma {:induction false} DrainFifo(q: seq<ActionId>, behaviour: ActionId -> ActionBehaviour, fuel: nat)
    ensures var d := Drain(q, behaviour, fuel); d.order + d.rest == q + Enqueued(d.order, behaviour)
    decreases fuel
  {
    if fuel != 0 && |q| != 0 {
      var next := q[1..] + behaviour(q[0]).enqueues;
      DrainFifo(next, behaviour, fuel - 1);
      FifoTurn(q, Drain(next, behaviour, fuel - 1), behaviour);
    } else {
      assert Drain(q, behaviour, fuel) == Drained([], q);
    }
  }

  /**
   * A drain that ends runs exactly, in order, the queued actions and then everything the
   * actions that ran enqueued, in the order they enqueued it: each action once, counted with
   * multiplicity, and the queued ones first in queue order.
   */
  lemma DrainRunsAll(q: seq<ActionId>, behaviour: ActionId -> ActionBehaviour, fuel: nat)
    requires DrainEnds(q, behaviour, fuel)
    ensures var d := Drain(q, behaviour, fuel);
      && d.order == q + Enqueued(d.order, behaviour)
      && multiset(d.order) == multiset(q) + multiset(Enqueued(d.order, behaviour))
      && |q| <= |d.order| && d.order[..|q|] == q
  {
    DrainFifo(q, behaviour, fuel);
    DrainConserves(q, behaviour, fuel);
    DrainQueuedFirst(q, behaviour, fuel);
    assert Drain(q, behaviour, fuel).order + [] == Drain(q, behaviour, fuel).order;
  }

  /** Once a drain ends, more turns change nothing: the result does not depend on the bound. */
  lemma {:induction false} DrainFuelIrrelevant(q: seq<ActionId>, behaviour: ActionId -> ActionBehaviour, fuel: nat, more: nat)
    requires DrainEnds(q, behaviour, fuel) && fuel <= more
    ensures Drain(q, behaviour, more) == Drain(q, behaviour, fuel)
    decreases fuel
  {
    if |q| != 0 {
      DrainFuelIrrelevant(q[1..] + behaviour(q[0]).enqueues, behaviour, fuel - 1, more - 1);
    }
  }

  /**
   * An action that enqueues itself is queued again every time it runs, so no number of turns
   * empties the queue: the drain loop never returns.
   */
  lemma {:induction false} SelfEnqueueNeverEnds(q: seq<ActionId>, behaviour: ActionId -> ActionBehaviour, a: ActionId, fuel: nat)
    requires a in q && a in behaviour(a).enqueues
    ensures a in Drain(q, behaviour, fuel).rest
    ensures !DrainEnds(q, behaviour, fuel)
    decreases fuel
  {
    if fuel != 0 {
      var next := q[1..] + behaviour(q[0]).enqueues;
      if q[0] == a {
        assert a in behaviour(q[0]).enqueues;
      } else {
        assert a in q[1..];
      }
      assert a in next;
      SelfEnqueueNeverEnds(next, behaviour, a, fuel - 1);
    }
  }

  const ActionFailurePrefix: string := "Exception in main-thread action: "
  const UpdateFailurePrefix: string := "Exception in update callback: "
  const SceneFailurePrefix: string := "Exception in scene loaded callback: "

  /** The log lines of the actions in `order` that throw. */
  function ActionLog(order: seq<ActionId>, behaviour: ActionId -> ActionBehaviour): seq<LogEntry>
  {
    if |order| == 0 then []
    else
      var a := behaviour(order[|order| - 1]);
      ActionLog(order[..|order| - 1], behaviour) +
      (if a.failure.Some? then [LogEntry(LoaderName, ActionFailurePrefix + a.failure.value)] else [])
  }

  lemma ActionLogStep(done: seq<ActionId>, a: ActionId, behaviour: ActionId -> ActionBehaviour)
    ensures ActionLog(done + [a], behaviour) == ActionLog(done, behaviour) +
      (if behaviour(a).failure.Some? then [LogEntry(LoaderName, ActionFailurePrefix + behaviour(a).failure.value)] else [])
  {
    assert (done + [a])[..|done|] == done;
  }

  /**
   * The drain loop of `DrainMainThreadQueue` on the queue's contents: dequeue the head and run
   * it, its enqueued actions joining the tail, until nothing is left; returns what ran and the
   * log lines of the actions that threw. `fuel` is a number of turns after which the queue is empty.
   */
  method RunAllActions(queue: seq<ActionId>, behaviour: ActionId -> ActionBehaviour, ghost fuel: nat)
    returns (runs: seq<Ran>, lines: seq<LogEntry>)
    requires DrainEnds(queue, behaviour, fuel)
    ensures runs == ActionRuns(Drain(queue, behaviour, fuel).order)
    ensures lines == ActionLog(Drain(queue, behaviour, fuel).order, behaviour)
  {
    ghost var done: seq<ActionId> := [];
    ghost var left := fuel;
    var pending := queue;
    runs, lines := [], [];
    while |pending| > 0
      invariant Drain(queue, behaviour, fuel).order == done + Drain(pending, behaviour, left).order
      invariant DrainEnds(pending, behaviour, left)
      invariant runs == ActionRuns(done)
      invariant lines == ActionLog(done, behaviour)
      decreases left
    {
      var a := pending[0];
      DrainTurn(pending, behaviour, left);
      ActionLogStep(done, a, behaviour);
      ActionRunsStep(done, a);
      // the action runs: what it enqueues joins the tail, then it may throw
      var outcome := behaviour(a);
      pending := pending[1..] + outcome.enqueues;
      runs := runs + [RanAction(a)];
      if outcome.failure.Some? {
        lines := lines + [LogEntry(LoaderName, ActionFailurePrefix + outcome.failure.value)];
      }
      done := done + [a];
      left := left - 1;
    }
    assert done + [] == done;
  }

  // ---------------- update callbacks ----------------

  /** An update callback, compared by identity as delegates are. */
  type CallbackId = nat

  /** What an update callback does to the list while it runs. */
  datatype Edit = Register(callback: CallbackId) | Unregister(callback: CallbackId)

  /** What an update callback does when it runs: its edits, then its exception, if any. */
  datatype UpdateBehaviour = UpdateBehaviour(failure: Option<string>, edits: seq<Edit>)

  predicate NoDuplicates<T(==)>(s: seq<T>)
  {
    forall i, j :: 0 <= i < j < |s| ==> s[i] != s[j]
  }

  /** `List.Remove`: drop the first occurrence of `x`, if any. */
  function RemoveFirst<T(==)>(s: seq<T>, x: T): (r: seq<T>)
    ensures x !in s ==> r == s
    ensures |r| == if x in s then |s| - 1 else |s|
    ensures forall y :: y in r ==> y in s
  {
    if |s| == 0 then []
    else if s[0] == x then s[1..]
    else [s[0]] + RemoveFirst(s[1..], x)
  }

  lemma TailDistinct<T>(s: seq<T>)
    requires NoDuplicates(s) && |s| != 0
    ensures NoDuplicates(s[1..]) && s[0] !in s[1..]
  {
    forall k | 0 <= k < |s[1..]| ensures s[1..][k] != s[0] {
      assert s[1..][k] == s[k + 1];
    }
  }

  lemma ConsDistinct<T>(x: T, r: seq<T>)
    requires NoDuplicates(r) && x !in r
    ensures NoDuplicates([x] + r)
  {
    var out := [x] + r;
    forall a, b | 0 <= a < b < |out| ensures out[a] != out[b] {
      assert out[b] == r[b - 1];
      if a != 0 {
        assert out[a] == r[a - 1];
      } else {
        assert r[b - 1] in r;
      }
    }
  }

  /** When the first occurrence of `x` is the one at `i`, `List.Remove` deletes exactly that entry. */
  lemma {:induction false} RemoveAt<T>(s: seq<T>, x: T, i: nat)
    requires i < |s| && s[i] == x && forall k :: 0 <= k < i ==> s[k] != x
    ensures RemoveFirst(s, x) == s[..i] + s[i + 1..]
  {
    if i == 0 {
      assert s[..0] + s[1..] == s[1..];
    } else {
      assert s[0] != x;
      forall k | 0 <= k < i - 1
        ensures s[1..][k] != x
      {
        assert s[1..][k] == s[k + 1];
      }
      assert s[1..][i - 1] == x;
      RemoveAt(s[1..], x, i - 1);
      calc {
        RemoveFirst(s, x);
      ==
        [s[0]] + RemoveFirst(s[1..], x);
      == { assert s[1..][..i - 1] == s[1..i]; assert s[1..][i..] == s[i + 1..]; }
        [s[0]] + (s[1..i] + s[i + 1..]);
      == { assert [s[0]] + s[1..i] == s[..i]; }
        s[..i] + s[i + 1..];
      }
    }
  }

  /** Deleting one entry of a duplicate-free list leaves it duplicate-free and without that entry. */
  lemma DeleteDistinct<T>(s: seq<T>, i: nat)
    requires NoDuplicates(s) && i < |s|
    ensures NoDuplicates(s[..i] + s[i + 1..])
    ensures s[i] !in s[..i] + s[i + 1..]
  {
    var r := s[..i] + s[i + 1..];
    assert forall k :: 0 <= k < |r| ==> r[k] == s[if k < i then k else k + 1];
  }

  /** Removing from a duplicate-free list removes exactly the one occurrence, keeping the order of the rest. */
  lemma RemoveFromDistinct<T>(s: seq<T>, x: T, i: nat)
    requires NoDuplicates(s) && i < |s| && s[i] == x
    ensures RemoveFirst(s, x) == s[..i] + s[i + 1..]
    ensures x !in RemoveFirst(s, x)
    ensures NoDuplicates(RemoveFirst(s, x))
  {
    RemoveAt(s, x, i);
    DeleteDistinct(s, i);
  }

  /** `RegisterUpdate` on the list: appended unless already present. */
  function WithRegistered(s: seq<CallbackId>, callback: CallbackId): seq<CallbackId>
  {
    if callback in s then s else s + [callback]
  }

  /** Registration keeps the list duplicate-free and leaves the callback in it. */
  lemma RegisterKeepsDistinct(s: seq<CallbackId>, callback: CallbackId)
    requires NoDuplicates(s)
    ensures NoDuplicates(WithRegistered(s, callback)) && callback in WithRegistered(s, callback)
    ensures s <= WithRegistered(s, callback)
  {
    var r := WithRegistered(s, callback);
    if callback !in s {
      forall a, b | 0 <= a < b < |r| ensures r[a] != r[b] {
        if b == |s| {
          assert r[a] == s[a];
          assert s[a] in s;
        }
      }
    }
  }

  /** A list stays duplicate-free under any edit. */
  lemma EditKeepsDistinct(s: seq<CallbackId>, edit: Edit)
    requires NoDuplicates(s)
    ensures NoDuplicates(Edited(s, edit))
  {
    match edit
    case Register(cb) =>
      RegisterKeepsDistinct(s, cb);
    case Unregister(cb) =>
      if cb in s {
        var i :| 0 <= i < |s| && s[i] == cb;
        RemoveFromDistinct(s, cb, i);
      }
  }

  function Edited(s: seq<CallbackId>, edit: Edit): seq<CallbackId>
  {
    match edit
    case Register(cb) => WithRegistered(s, cb)
    case Unregister(cb) => RemoveFirst(s, cb)
  }

  function AllEdited(s: seq<CallbackId>, edits: seq<Edit>): seq<CallbackId>
  {
    if |edits| == 0 then s else Edited(AllEdited(s, edits[..|edits| - 1]), edits[|edits| - 1])
  }

  lemma {:induction false} AllEditedKeepsDistinct(s: seq<CallbackId>, edits: seq<Edit>)
    requires NoDuplicates(s)
    ensures NoDuplicates(AllEdited(s, edits))
  {
    if |edits| != 0 {
      AllEditedKeepsDistinct(s, edits[..|edits| - 1]);
      EditKeepsDistinct(AllEdited(s, edits[..|edits| - 1]), edits[|edits| - 1]);
    }
  }

  /** The edits made while the callbacks of `snapshot` run, in order. */
  function UpdateEdits(snapshot: seq<CallbackId>, behaviour: CallbackId -> UpdateBehaviour): seq<Edit>
  {
    if |snapshot| == 0 then []
    else UpdateEdits(snapshot[..|snapshot| - 1], behaviour) + behaviour(snapshot[|snapshot| - 1]).edits
  }

  function UpdateLog(snapshot: seq<CallbackId>, behaviour: CallbackId -> UpdateBehaviour): seq<LogEntry>
  {
    if |snapshot| == 0 then []
    else
      var b := behaviour(snapshot[|snapshot| - 1]);
      UpdateLog(snapshot[..|snapshot| - 1], behaviour) +
      (if b.failure.Some? then [LogEntry(LoaderName, UpdateFailurePrefix + b.failure.value)] else [])
  }

  lemma {:induction false} AllEditedAppend(s: seq<CallbackId>, edits: seq<Edit>, more: seq<Edit>)
    ensures AllEdited(s, edits + more) == AllEdited(AllEdited(s, edits), more)
    decreases |more|
  {
    if |more| == 0 {
      assert edits + more == edits;
    } else {
      var init := more[..|more| - 1];
      var all := edits + more;
      calc {
        AllEdited(s, all);
      == { assert all[..|all| - 1] == edits + init; assert all[|all| - 1] == more[|more| - 1]; }
        Edited(AllEdited(s, edits + init), more[|more| - 1]);
      == { AllEditedAppend(s, edits, init); }
        Edited(AllEdited(AllEdited(s, edits), init), more[|more| - 1]);
      }
    }
  }

  /** Taking one more callback of the snapshot: its edits, its run and its log line join the traces. */
  lemma UpdatePrefixStep(snapshot: seq<CallbackId>, i: nat, behaviour: CallbackId -> UpdateBehaviour)
    requires i < |snapshot|
    ensures UpdateEdits(snapshot[..i + 1], behaviour) ==
      UpdateEdits(snapshot[..i], behaviour) + behaviour(snapshot[i]).edits
    ensures UpdateRuns(snapshot[..i + 1]) == UpdateRuns(snapshot[..i]) + [RanUpdate(snapshot[i])]
    ensures UpdateLog(snapshot[..i + 1], behaviour) == UpdateLog(snapshot[..i], behaviour) +
      (var b := behaviour(snapshot[i]);
       if b.failure.Some? then [LogEntry(LoaderName, UpdateFailurePrefix + b.failure.value)] else [])
  {
    var t := snapshot[..i + 1];
    assert t[..i] == snapshot[..i] && t[i] == snapshot[i];
  }

  /** One callback of the snapshot runs: the list afterwards is the list before, edited by it. */
  lemma UpdateStep(snapshot: seq<CallbackId>, i: nat, behaviour: CallbackId -> UpdateBehaviour)
    requires i < |snapshot|
    ensures AllEdited(snapshot, UpdateEdits(snapshot[..i + 1], behaviour)) ==
      AllEdited(AllEdited(snapshot, UpdateEdits(snapshot[..i], behaviour)), behaviour(snapshot[i]).edits)
    ensures UpdateRuns(snapshot[..i + 1]) == UpdateRuns(snapshot[..i]) + [RanUpdate(snapshot[i])]
    ensures UpdateLog(snapshot[..i + 1], behaviour) == UpdateLog(snapshot[..i], behaviour) +
      (var b := behaviour(snapshot[i]);
       if b.failure.Some? then [LogEntry(LoaderName, UpdateFailurePrefix + b.failure.value)] else [])
  {
    UpdatePrefixStep(snapshot, i, behaviour);
    AllEditedAppend(snapshot, UpdateEdits(snapshot[..i], behaviour), behaviour(snapshot[i]).edits);
  }

  // ---------------- scene-loaded callbacks ----------------

  /** A scene-loaded callback; each registration wraps it anew, so duplicates are kept. */
  type SceneCallbackId = nat

  datatype Scene = Scene(name: string, buildIndex: int)

  /** What a scene callback does when it runs: the callbacks it registers, then its exception, if any. */
  datatype SceneBehaviour = SceneBehaviour(failure: Option<string>, registers: seq<SceneCallbackId>)

  /**
   * The first position at or after `i` whose callback registers another one while it runs,
   * or `|callbacks|` when there is none.
   */
  function FirstRegistering(callbacks: seq<SceneCallbackId>, scene: Scene,
                            behaviour: (SceneCallbackId, Scene) -> SceneBehaviour, i: nat): (k: nat)
    requires i <= |callbacks|
    ensures i <= k <= |callbacks|
    ensures forall j :: i <= j < k ==> behaviour(callbacks[j], scene).registers == []
    ensures k < |callbacks| ==> behaviour(callbacks[k], scene).registers != []
    decreases |callbacks| - i
  {
    if i == |callbacks| then i
    else if behaviour(callbacks[i], scene).registers != [] then i
    else FirstRegistering(callbacks, scene, behaviour, i + 1)
  }

  /**
   * The callbacks a `SceneLoadedHandler` run reaches: all of them, or those up to and including
   * the first that registers another, after which the list's enumerator throws.
   */
  function SceneReached(callbacks: seq<SceneCallbackId>, scene: Scene, behaviour: (SceneCallbackId, Scene) -> SceneBehaviour): (r: seq<SceneCallbackId>)
    ensures r <= callbacks
    ensures (forall i :: 0 <= i < |callbacks| ==> behaviour(callbacks[i], scene).registers == []) ==> r == callbacks
    ensures forall i :: 0 <= i < |r| - 1 ==> behaviour(r[i], scene).registers == []
  {
    var k := FirstRegistering(callbacks, scene, behaviour, 0);
    if k < |callbacks| then callbacks[..k + 1] else callbacks
  }

  /** Some callback of the list registers another when it runs. */
  predicate SomeRegisters(callbacks: seq<SceneCallbackId>, scene: Scene, behaviour: (SceneCallbackId, Scene) -> SceneBehaviour)
  {
    exists i :: 0 <= i < |callbacks| && behaviour(callbacks[i], scene).registers != []
  }

  /** A run stops after the first callback that registers another. */
  lemma SceneStopsAt(callbacks: seq<SceneCallbackId>, scene: Scene, behaviour: (SceneCallbackId, Scene) -> SceneBehaviour, i: nat)
    requires i < |callbacks| && behaviour(callbacks[i], scene).registers != []
    requires forall j :: 0 <= j < i ==> behaviour(callbacks[j], scene).registers == []
    ensures SomeRegisters(callbacks, scene, behaviour)
    ensures SceneReached(callbacks, scene, behaviour) == callbacks[..i + 1]
  {
    var k := FirstRegistering(callbacks, scene, behaviour, 0);
    assert k == i;
  }

  /** A run in which no callback registers another reaches all of them. */
  lemma SceneRunsAll(callbacks: seq<SceneCallbackId>, scene: Scene, behaviour: (SceneCallbackId, Scene) -> SceneBehaviour)
    requires forall j :: 0 <= j < |callbacks| ==> behaviour(callbacks[j], scene).registers == []
    ensures !SomeRegisters(callbacks, scene, behaviour)
    ensures SceneReached(callbacks, scene, behaviour) == callbacks
  {
  }

  function SceneLog(reached: seq<SceneCallbackId>, scene: Scene, behaviour: (SceneCallbackId, Scene) -> SceneBehaviour): seq<LogEntry>
  {
    if |reached| == 0 then []
    else
      var b := behaviour(reached[|reached| - 1], scene);
      SceneLog(reached[..|reached| - 1], scene, behaviour) +
      (if b.failure.Some? then [LogEntry(LoaderName, SceneFailurePrefix + b.failure.value)] else [])
  }

  /** Taking one more reached callback: its run and its log line join the traces. */
  lemma ScenePrefixStep(callbacks: seq<SceneCallbackId>, i: nat, scene: Scene,
                        behaviour: (SceneCallbackId, Scene) -> SceneBehaviour)
    requires i < |callbacks|
    ensures SceneRuns(callbacks[..i + 1], scene) == SceneRuns(callbacks[..i], scene) + [RanScene(callbacks[i], scene)]
    ensures SceneLog(callbacks[..i + 1], scene, behaviour) == SceneLog(callbacks[..i], scene, behaviour) +
      (var b := behaviour(callbacks[i], scene);
       if b.failure.Some? then [LogEntry(LoaderName, SceneFailurePrefix + b.failure.value)] else [])
  {
    var t := callbacks[..i + 1];
    assert t[..i] == callbacks[..i] && t[i] == callbacks[i];
  }

  // ---------------- the API's state ----------------

  /** One callback run, as seen from outside. */
  datatype Ran = RanAction(action: ActionId) | RanUpdate(callback: CallbackId) | RanScene(sceneCallback: SceneCallbackId, scene: Scene)

  function ActionRuns(order: seq<ActionId>): (r: seq<Ran>)
    ensures |r| == |order|
    ensures forall i :: 0 <= i < |order| ==> r[i] == RanAction(order[i])
  {
    seq(|order|, i requires 0 <= i < |order| => RanAction(order[i]))
  }

  lemma ActionRunsStep(done: seq<ActionId>, a: ActionId)
    ensures ActionRuns(done + [a]) == ActionRuns(done) + [RanAction(a)]
  {
  }

  function UpdateRuns(snapshot: seq<CallbackId>): (r: seq<Ran>)
    ensures |r| == |snapshot|
    ensures forall i :: 0 <= i < |snapshot| ==> r[i] == RanUpdate(snapshot[i])
  {
    seq(|snapshot|, i requires 0 <= i < |snapshot| => RanUpdate(snapshot[i]))
  }

  function SceneRuns(reached: seq<SceneCallbackId>, scene: Scene): (r: seq<Ran>)
    ensures |r| == |reached|
    ensures forall i :: 0 <= i < |reached| ==> r[i] == RanScene(reached[i], scene)
  {
    seq(|reached|, i requires 0 <= i < |reached| => RanScene(reached[i], scene))
  }

  datatype ApiState = ApiState(
    queue: seq<ActionId>,
    updateCallbacks: seq<CallbackId>,
    sceneLoadedCallbacks: seq<SceneCallbackId>,
    subscriptions: nat,
    ran: seq<Ran>,
    log: seq<LogEntry>)

  /**
   * The static state of `API`: the main-thread queue, the two callback lists, the handlers
   * attached to the engine's scene-loaded event, and what has run and been logged.
   */
  class Api {
    var queue: seq<ActionId>
    var updateCallbacks: seq<CallbackId>
    var sceneLoadedCallbacks: seq<SceneCallbackId>
    /** How many times `SceneLoadedHandler` is attached to `SceneManager.sceneLoaded`. */
    var subscriptions: nat
    var ran: seq<Ran>
    var log: seq<LogEntry>

    /** The update list is duplicate-free; the handler is attached once exactly when a scene callback exists. */
    predicate Valid()
      reads this
    {
      NoDuplicates(updateCallbacks) && subscriptions == (if |sceneLoadedCallbacks| == 0 then 0 else 1)
    }

    function State(): ApiState
      reads this
    {
      ApiState(queue, updateCallbacks, sceneLoadedCallbacks, subscriptions, ran, log)
    }

    constructor ()
      ensures Valid() && State() == ApiState([], [], [], 0, [], [])
    {
      queue := [];
      updateCallbacks := [];
      sceneLoadedCallbacks := [];
      subscriptions := 0;
      ran := [];
      log := [];
    }

    /** `Log(modName, msg)`. */
    method Log(modName: string, message: string)
      modifies this
      ensures State() == old(State()).(log := old(log) + [LogEntry(modName, message)])
    {
      log := log + [LogEntry(modName, message)];
    }

    /** `Log(object mod, msg)`: logs under the name of the mod's runtime type; `threw` is the `null` dereference. */
    method LogFor(mod: Instance?, message: string) returns (threw: bool)
      modifies this
      ensures threw <==> mod == null
      ensures threw ==> State() == old(State())
      ensures !threw ==> State() == old(State()).(log := old(log) + [LogEntry(mod.runtimeType.name, message)])
    {
      if mod == null {
        return true;
      }
      Log(mod.runtimeType.name, message);
      threw := false;
    }

    /** `RunOnMainThread`: `null` is ignored, any other action joins the tail of the queue. */
    method RunOnMainThread(a: Option<ActionId>)
      modifies this
      ensures State() == old(State()).(queue := old(queue) + (if a.Some? then [a.value] else []))
    {
      if a.None? {
        return;
      }
      queue := queue + [a.value];
    }

    /**
     * `DrainMainThreadQueue`: run actions from the head until the queue is empty, including
     * those enqueued meanwhile; an action's exception is logged and draining goes on.
     * `fuel` is a number of turns after which the queue is empty.
     */
    method DrainMainThreadQueue(behaviour: ActionId -> ActionBehaviour, ghost fuel: nat)
      requires DrainEnds(queue, behaviour, fuel)
      modifies this
      ensures State() == old(State()).(
        queue := [],
        ran := old(ran) + ActionRuns(Drain(old(queue), behaviour, fuel).order),
        log := old(log) + ActionLog(Drain(old(queue), behaviour, fuel).order, behaviour))
    {
      var runs, lines := RunAllActions(queue, behaviour, fuel);
      queue, ran, log := [], ran + runs, log + lines;
    }

    /** `RegisterUpdate`: `null` is ignored; a callback already in the list is not added again. */
    method RegisterUpdate(callback: Option<CallbackId>)
      requires Valid()
      modifies this
      ensures Valid()
      ensures State() == old(State()).(updateCallbacks :=
        if callback.Some? then WithRegistered(old(updateCallbacks), callback.value) else old(updateCallbacks))
    {
      if callback.None? {
        return;
      }
      RegisterKeepsDistinct(updateCallbacks, callback.value);
      if callback.value !in updateCallbacks {
        updateCallbacks := updateCallbacks + [callback.value];
      }
    }

    /** `UnregisterUpdate`: `null` is ignored; otherwise the callback's entry, if any, is removed. */
    method UnregisterUpdate(callback: Option<CallbackId>)
      requires Valid()
      modifies this
      ensures Valid()
      ensures State() == old(State()).(updateCallbacks :=
        if callback.Some? then RemoveFirst(old(updateCallbacks), callback.value) else old(updateCallbacks))
    {
      if callback.None? {
        return;
      }
      EditKeepsDistinct(updateCallbacks, Unregister(callback.value));
      updateCallbacks := RemoveFirst(updateCallbacks, callback.value);
    }

    /** Apply the edits one update callback makes while it runs. */
    method ApplyEdits(edits: seq<Edit>)
      requires Valid()
      modifies this
      ensures Valid()
      ensures State() == old(State()).(updateCallbacks := AllEdited(old(updateCallbacks), edits))
    {
      var j := 0;
      while j < |edits|
        invariant j <= |edits| && Valid()
        invariant State() == old(State()).(updateCallbacks := AllEdited(old(updateCallbacks), edits[..j]))
      {
        assert edits[..j + 1][..j] == edits[..j];
        match edits[j] {
          case Register(c) =>
            RegisterUpdate(Some(c));
          case Unregister(c) =>
            UnregisterUpdate(Some(c));
        }
        j := j + 1;
      }
      assert edits[..j] == edits;
    }

    /** One update callback runs: it makes its edits, then its exception, if any, is logged. */
    method RunUpdateCallback(callback: CallbackId, behaviour: CallbackId -> UpdateBehaviour)
      requires Valid()
      modifies this
      ensures Valid()
      ensures var b := behaviour(callback);
        && updateCallbacks == AllEdited(old(updateCallbacks), b.edits)
        && ran == old(ran) + [RanUpdate(callback)]
        && log == old(log) + (if b.failure.Some? then [LogEntry(LoaderName, UpdateFailurePrefix + b.failure.value)] else [])
      ensures queue == old(queue) && sceneLoadedCallbacks == old(sceneLoadedCallbacks) && subscriptions == old(subscriptions)
    {
      var b := behaviour(callback);
      ran := ran + [RanUpdate(callback)];
      ApplyEdits(b.edits);
      if b.failure.Some? {
        Log(LoaderName, UpdateFailurePrefix + b.failure.value);
      }
    }

    /**
     * `RunUpdateCallbacks`: run a snapshot of the list in order, however the callbacks edit
     * the list meanwhile; an exception is logged and the rest still run.
     */
    method RunUpdateCallbacks(behaviour: CallbackId -> UpdateBehaviour)
      requires Valid()
      modifies this
      ensures Valid()
      ensures State() == old(State()).(
        updateCallbacks := AllEdited(old(updateCallbacks), UpdateEdits(old(updateCallbacks), behaviour)),
        ran := old(ran) + UpdateRuns(old(updateCallbacks)),
        log := old(log) + UpdateLog(old(updateCallbacks), behaviour))
    {
      var snapshot := updateCallbacks;
      var i := 0;
      while i < |snapshot|
        invariant i <= |snapshot| && Valid()
        invariant updateCallbacks == AllEdited(snapshot, UpdateEdits(snapshot[..i], behaviour))
        invariant ran == old(ran) + UpdateRuns(snapshot[..i])
        invariant log == old(log) + UpdateLog(snapshot[..i], behaviour)
        invariant queue == old(queue) && sceneLoadedCallbacks == old(sceneLoadedCallbacks)
        invariant subscriptions == old(subscriptions)
      {
        UpdateStep(snapshot, i, behaviour);
        RunUpdateCallback(snapshot[i], behaviour);
        i := i + 1;
      }
      assert snapshot[..i] == snapshot;
    }

    /**
     * `OnSceneLoaded`: `null` is ignored; the handler is attached to the engine's event only when
     * the list was empty; the callback is always appended, even if it was registered before.
     */
    method OnSceneLoaded(callback: Option<SceneCallbackId>)
      requires Valid()
      modifies this
      ensures Valid()
      ensures callback.None? ==> State() == old(State())
      ensures callback.Some? ==> State() == old(State()).(
        sceneLoadedCallbacks := old(sceneLoadedCallbacks) + [callback.value],
        subscriptions := old(subscriptions) + (if |old(sceneLoadedCallbacks)| == 0 then 1 else 0))
    {
      if callback.None? {
        return;
      }
      if |sceneLoadedCallbacks| == 0 {
        subscriptions := subscriptions + 1;
      }
      sceneLoadedCallbacks := sceneLoadedCallbacks + [callback.value];
    }

    /** The registrations one scene callback makes while it runs. */
    method RegisterAll(callbacks: seq<SceneCallbackId>)
      requires Valid() && |sceneLoadedCallbacks| != 0
      modifies this
      ensures Valid()
      ensures State() == old(State()).(sceneLoadedCallbacks := old(sceneLoadedCallbacks) + callbacks)
    {
      var j := 0;
      while j < |callbacks|
        invariant j <= |callbacks| && Valid()
        invariant State() == old(State()).(sceneLoadedCallbacks := old(sceneLoadedCallbacks) + callbacks[..j])
      {
        assert callbacks[..j + 1] == callbacks[..j] + [callbacks[j]];
        OnSceneLoaded(Some(callbacks[j]));
        j := j + 1;
      }
      assert callbacks[..j] == callbacks;
    }

    /** One scene callback runs: it registers its callbacks, then its exception, if any, is logged. */
    method RunSceneCallback(callback: SceneCallbackId, scene: Scene, behaviour: (SceneCallbackId, Scene) -> SceneBehaviour)
      requires Valid() && |sceneLoadedCallbacks| != 0
      modifies this
      ensures Valid()
      ensures var b := behaviour(callback, scene);
        && sceneLoadedCallbacks == old(sceneLoadedCallbacks) + b.registers
        && ran == old(ran) + [RanScene(callback, scene)]
        && log == old(log) + (if b.failure.Some? then [LogEntry(LoaderName, SceneFailurePrefix + b.failure.value)] else [])
      ensures queue == old(queue) && updateCallbacks == old(updateCallbacks) && subscriptions == old(subscriptions)
    {
      var b := behaviour(callback, scene);
      ran := ran + [RanScene(callback, scene)];
      RegisterAll(b.registers);
      if b.failure.Some? {
        Log(LoaderName, SceneFailurePrefix + b.failure.value);
      }
    }

    /**
     * `SceneLoadedHandler`: run the callbacks of the live list in order, logging exceptions;
     * once a callback has added to the list, the enumerator throws (`threw`) before the next.
     */
    method SceneLoadedHandler(scene: Scene, behaviour: (SceneCallbackId, Scene) -> SceneBehaviour) returns (threw: bool)
      requires Valid()
      modifies this
      ensures Valid()
      ensures threw <==> SomeRegisters(old(sceneLoadedCallbacks), scene, behaviour)
      ensures var reached := SceneReached(old(sceneLoadedCallbacks), scene, behaviour);
        && sceneLoadedCallbacks == old(sceneLoadedCallbacks) +
             (if threw then behaviour(reached[|reached| - 1], scene).registers else [])
        && ran == old(ran) + SceneRuns(reached, scene)
        && log == old(log) + SceneLog(reached, scene, behaviour)
      ensures queue == old(queue) && updateCallbacks == old(updateCallbacks) && subscriptions == old(subscriptions)
    {
      ghost var callbacks := sceneLoadedCallbacks;
      ghost var stop;
      threw, stop := EnumerateSceneCallbacks(scene, behaviour);
      if threw {
        SceneStopsAt(callbacks, scene, behaviour, stop);
      } else {
        SceneRunsAll(callbacks, scene, behaviour);
        assert callbacks[..stop] == callbacks;
      }
    }

    /**
     * The enumeration inside `SceneLoadedHandler`: `stop` is the callback after which the
     * enumerator threw, or the length of the list when it did not.
     */
    method EnumerateSceneCallbacks(scene: Scene, behaviour: (SceneCallbackId, Scene) -> SceneBehaviour)
      returns (threw: bool, ghost stop: nat)
      requires Valid()
      modifies this
      ensures Valid()
      ensures stop <= |old(sceneLoadedCallbacks)|
      ensures forall j :: 0 <= j < stop ==> behaviour(old(sceneLoadedCallbacks)[j], scene).registers == []
      ensures threw ==> stop < |old(sceneLoadedCallbacks)|
      ensures !threw ==> stop == |old(sceneLoadedCallbacks)|
      ensures threw ==>
        var callbacks := old(sceneLoadedCallbacks);
        var b := behaviour(callbacks[stop], scene);
        && b.registers != []
        && sceneLoadedCallbacks == callbacks + b.registers
        && ran == old(ran) + SceneRuns(callbacks[..stop + 1], scene)
        && log == old(log) + SceneLog(callbacks[..stop + 1], scene, behaviour)
      ensures !threw ==>
        && sceneLoadedCallbacks == old(sceneLoadedCallbacks)
        && ran == old(ran) + SceneRuns(old(sceneLoadedCallbacks)[..stop], scene)
        && log == old(log) + SceneLog(old(sceneLoadedCallbacks)[..stop], scene, behaviour)
      ensures queue == old(queue) && updateCallbacks == old(updateCallbacks) && subscriptions == old(subscriptions)
    {
      ghost var callbacks := sceneLoadedCallbacks;
      // the enumerator's version: the list only ever grows, so its length identifies it
      var version := |sceneLoadedCallbacks|;
      var i := 0;
      while i < |sceneLoadedCallbacks|
        invariant i <= |callbacks|
        invariant forall j :: 0 <= j < i ==> behaviour(callbacks[j], scene).registers == []
        invariant sceneLoadedCallbacks == callbacks
        invariant ran == old(ran) + SceneRuns(callbacks[..i], scene)
        invariant log == old(log) + SceneLog(callbacks[..i], scene, behaviour)
        invariant queue == old(queue) && updateCallbacks == old(updateCallbacks)
        invariant subscriptions == old(subscriptions)
        decreases |callbacks| - i
      {
        var callback := sceneLoadedCallbacks[i];
        ScenePrefixStep(callbacks, i, scene, behaviour);
        RunSceneCallback(callback, scene, behaviour);
        if |sceneLoadedCallbacks| != version {
          return true, i;
        }
        i := i + 1;
      }
      threw, stop := false, i;
    }
  }

  // ---------------- reflection helpers ----------------

  /** A loaded assembly, with its simple name and its types. */
  datatype LoadedAssembly = LoadedAssembly(name: string, types: seq<RuntimeType>)

  const GameAssemblyName: string := "Assembly-CSharp"

  /** `Assembly.GetType(fullName, false, false)`: the type with that full name, or `null`. */
  function TypeNamed(types: seq<RuntimeType>, fullName: string): (r: Option<RuntimeType>)
    ensures r.None? <==> forall i :: 0 <= i < |types| ==> types[i].fullName != fullName
    ensures r.Some? ==> r.value in types && r.value.fullName == fullName
    ensures r.Some? ==>
      exists i :: 0 <= i < |types| && types[i] == r.value && forall j :: 0 <= j < i ==> types[j].fullName != fullName
  {
    if |types| == 0 then None
    else if types[0].fullName == fullName then Some(types[0])
    else
      var r := TypeNamed(types[1..], fullName);
      assert forall i :: 1 <= i < |types| ==> types[i] == types[1..][i - 1];
      r
  }

  /** The first assembly of that name, as `FirstOrDefault` finds it. */
  function FirstNamed(assemblies: seq<LoadedAssembly>, name: string): (r: Option<LoadedAssembly>)
    ensures r.None? <==> forall i :: 0 <= i < |assemblies| ==> assemblies[i].name != name
    ensures r.Some? ==> r.value in assemblies && r.value.name == name
    ensures r.Some? ==>
      exists i :: 0 <= i < |assemblies| && assemblies[i] == r.value && forall j :: 0 <= j < i ==> assemblies[j].name != name
  {
    if |assemblies| == 0 then None
    else if assemblies[0].name == name then Some(assemblies[0])
    else
      var r := FirstNamed(assemblies[1..], name);
      assert forall i :: 1 <= i < |assemblies| ==> assemblies[i] == assemblies[1..][i - 1];
      r
  }

  /** The type from the first assembly, in load order, that defines `fullName`. */
  function FirstDefining(assemblies: seq<LoadedAssembly>, fullName: string): (r: Option<RuntimeType>)
    ensures r.None? <==> forall i :: 0 <= i < |assemblies| ==> TypeNamed(assemblies[i].types, fullName).None?
    ensures r.Some? ==>
      exists i :: 0 <= i < |assemblies| && TypeNamed(assemblies[i].types, fullName) == r &&
        forall j :: 0 <= j < i ==> TypeNamed(assemblies[j].types, fullName).None?
  {
    if |assemblies| == 0 then None
    else
      var here := TypeNamed(assemblies[0].types, fullName);
      if here.Some? then here
      else
        var r := FirstDefining(assemblies[1..], fullName);
        assert forall i :: 1 <= i < |assemblies| ==> assemblies[i] == assemblies[1..][i - 1];
        r
  }

  /** The search for a definition from the `i`-th assembly on looks at that one first. */
  lemma FirstDefiningFrom(assemblies: seq<LoadedAssembly>, fullName: string, i: nat)
    requires i < |assemblies|
    ensures FirstDefining(assemblies[i..], fullName) ==
      var here := TypeNamed(assemblies[i].types, fullName);
      if here.Some? then here else FirstDefining(assemblies[i + 1..], fullName)
  {
    assert assemblies[i..][0] == assemblies[i];
    assert assemblies[i..][1..] == assemblies[i + 1..];
  }

  /** What `GetTypeFromGame` finds: the game assembly's type first, else the first in load order. */
  function TypeFromGame(assemblies: seq<LoadedAssembly>, fullName: string): Option<RuntimeType>
  {
    var game := FirstNamed(assemblies, GameAssemblyName);
    if game.Some? && TypeNamed(game.value.types, fullName).Some? then TypeNamed(game.value.types, fullName)
    else FirstDefining(assemblies, fullName)
  }

  /** `g` is the first loaded assembly named Assembly-CSharp. */
  predicate FirstGameAssembly(assemblies: seq<LoadedAssembly>, g: nat)
  {
    g < |assemblies| && assemblies[g].name == GameAssemblyName &&
    forall j :: 0 <= j < g ==> assemblies[j].name != GameAssemblyName
  }

  /** `FirstOrDefault` finds the first assembly named Assembly-CSharp, and `null` when there is none. */
  lemma FirstNamedGame(assemblies: seq<LoadedAssembly>)
    ensures forall g: nat :: FirstGameAssembly(assemblies, g) ==> FirstNamed(assemblies, GameAssemblyName) == Some(assemblies[g])
    ensures FirstNamed(assemblies, GameAssemblyName).None? ==> forall g: nat :: !FirstGameAssembly(assemblies, g)
  {
    var game := FirstNamed(assemblies, GameAssemblyName);
    if game.Some? {
      var i :| 0 <= i < |assemblies| && assemblies[i] == game.value &&
        forall j :: 0 <= j < i ==> assemblies[j].name != GameAssemblyName;
      forall g: nat | FirstGameAssembly(assemblies, g)
        ensures g == i
      {
        assert assemblies[g].name == GameAssemblyName && assemblies[i].name == GameAssemblyName;
      }
    } else {
      forall g: nat | g < |assemblies|
        ensures !FirstGameAssembly(assemblies, g)
      {
        assert assemblies[g].name != GameAssemblyName;
      }
    }
  }

  /**
   * The search returns `null` exactly when no loaded assembly defines the name, and a result is
   * always a definition of that name from one of them.
   */
  lemma TypeFromGameFacts(assemblies: seq<LoadedAssembly>, fullName: string)
    ensures TypeFromGame(assemblies, fullName).None? <==>
      forall i :: 0 <= i < |assemblies| ==> TypeNamed(assemblies[i].types, fullName).None?
    ensures TypeFromGame(assemblies, fullName).Some? ==>
      TypeFromGame(assemblies, fullName).value.fullName == fullName &&
      exists i :: 0 <= i < |assemblies| && TypeNamed(assemblies[i].types, fullName) == TypeFromGame(assemblies, fullName)
  {
    var game := FirstNamed(assemblies, GameAssemblyName);
    if game.Some? && TypeNamed(game.value.types, fullName).Some? {
      var k :| 0 <= k < |assemblies| && assemblies[k] == game.value;
      assert TypeNamed(assemblies[k].types, fullName).Some?;
    }
  }

  /**
   * A definition in the first assembly named Assembly-CSharp wins; without one, the result is the
   * definition in the first assembly, in load order, that has one.
   */
  lemma TypeFromGameFirst(assemblies: seq<LoadedAssembly>, fullName: string)
    ensures forall g: nat :: FirstGameAssembly(assemblies, g) && TypeNamed(assemblies[g].types, fullName).Some? ==>
      TypeFromGame(assemblies, fullName) == TypeNamed(assemblies[g].types, fullName)
    ensures (forall g: nat :: FirstGameAssembly(assemblies, g) ==> TypeNamed(assemblies[g].types, fullName).None?) ==>
      TypeFromGame(assemblies, fullName).Some? ==>
      exists i :: 0 <= i < |assemblies| && TypeNamed(assemblies[i].types, fullName) == TypeFromGame(assemblies, fullName) &&
        forall j :: 0 <= j < i ==> TypeNamed(assemblies[j].types, fullName).None?
  {
    FirstNamedGame(assemblies);
    var game := FirstNamed(assemblies, GameAssemblyName);
    if game.Some? {
      var i :| 0 <= i < |assemblies| && assemblies[i] == game.value &&
        forall j :: 0 <= j < i ==> assemblies[j].name != GameAssemblyName;
      assert FirstGameAssembly(assemblies, i);
    }
  }

  /** `GetTypeFromGame`: look in Assembly-CSharp first, then in every assembly in load order. */
  method GetTypeFromGame(assemblies: seq<LoadedAssembly>, fullTypeName: string) returns (t: Option<RuntimeType>)
    ensures t == TypeFromGame(assemblies, fullTypeName)
  {
    var game := FirstNamed(assemblies, GameAssemblyName);
    if game.Some? {
      t := TypeNamed(game.value.types, fullTypeName);
      if t.Some? {
        return;
      }
    }
    var i := 0;
    while i < |assemblies|
      invariant i <= |assemblies|
      invariant FirstDefining(assemblies, fullTypeName) == FirstDefining(assemblies[i..], fullTypeName)
    {
      FirstDefiningFrom(assemblies, fullTypeName, i);
      t := TypeNamed(assemblies[i].types, fullTypeName);
      if t.Some? {
        return;
      }
      i := i + 1;
    }
    t := None;
  }

  /**
   * A field's current value. Every declared field of a valid object is in `fields`, so the
   * `Null` branch is reached only for a map that is not an object's (see `Instance.Valid`).
   */
  function FieldValue(fields: map<string, Value>, fieldName: string): Value
  {
    if fieldName in fields then fields[fieldName] else Null
  }

  /** `GetPrivateField`: `null` for a `null` instance or a missing field, else the field's value. */
  function GetPrivateField(instance: Instance?, fieldName: string): (v: Value)
    reads instance
    ensures instance == null || fieldName !in instance.runtimeType.instanceFields ==> v == Null
    ensures instance != null && fieldName in instance.runtimeType.instanceFields ==>
      v == FieldValue(instance.fields, fieldName)
    ensures instance != null && instance.Valid() && fieldName in instance.runtimeType.instanceFields ==>
      v == instance.fields[fieldName]
  {
    if instance == null then Null
    else if fieldName !in instance.runtimeType.instanceFields then Null
    else FieldValue(instance.fields, fieldName)
  }

  /**
   * `SetPrivateField`: false for a `null` instance or a missing field; otherwise the field is set,
   * reads back as `value`, and is the only one that changes.
   */
  method SetPrivateField(instance: Instance?, fieldName: string, value: Value) returns (ok: bool)
    modifies instance
    ensures ok <==> instance != null && fieldName in instance.runtimeType.instanceFields
    ensures ok ==> instance.fields == old(instance.fields)[fieldName := value]
    ensures ok ==> GetPrivateField(instance, fieldName) == value
    ensures !ok && instance != null ==> instance.fields == old(instance.fields)
    ensures instance != null && old(instance.Valid()) ==> instance.Valid()
  {
    if instance == null {
      return false;
    }
    if fieldName !in instance.runtimeType.instanceFields {
      return false;
    }
    instance.fields := instance.fields[fieldName := value];
    ok := true;
  }

  /** What `CallPrivateMethod` does: return `null`, make the call, or throw `AmbiguousMatchException`. */
  datatype PrivateCall = ReturnsNull | Invokes(call: Invocation) | ThrowsAmbiguousMatch

  /** `CallPrivateMethod`: an instance-method lookup by name on the object's runtime type. */
  function CallPrivateMethod(instance: Instance?, methodName: string, args: seq<Value>): (r: PrivateCall)
    ensures instance == null ==> r == ReturnsNull
    ensures instance != null ==>
      && (r.ReturnsNull? <==> forall i :: 0 <= i < |instance.runtimeType.methods| ==>
            !Matches(instance.runtimeType.methods[i], instance.runtimeType.id, methodName, false, true))
      && (r.ThrowsAmbiguousMatch? ==> SeveralMatch(instance.runtimeType.methods, instance.runtimeType.id, methodName, false, true))
      && (Overloaded(instance.runtimeType.methods, instance.runtimeType.id, methodName, false, true) ==> r.ThrowsAmbiguousMatch?)
      && (r.Invokes? ==>
            && r.call.receiver == instance && r.call.args == args
            && r.call.info in instance.runtimeType.methods && !r.call.info.isStatic && r.call.info.name == methodName
            && forall m :: m in instance.runtimeType.methods && Matches(m, instance.runtimeType.id, methodName, false, true) && m != r.call.info ==>
                 m.parameters == r.call.info.parameters && m.depth < r.call.info.depth)
  {
    if instance == null then ReturnsNull
    else
      match GetMethod(instance.runtimeType, methodName, false, true)
      case NotFound => ReturnsNull
      case Ambiguous => ThrowsAmbiguousMatch
      case Found(m) => Invokes(Invocation(m, instance, args))
  }
}
