/** Workflow definitions: the graph check behind publishing, and what publishing freezes. */
module WorkflowGraph {
  import opened Collections

  type StateId = int

  datatype Kind = Initial | Normal | Terminal
  datatype JoinType = JoinAll | JoinAny | JoinQuorum
  datatype Action = Submit | Approve | Return | Reject | Cancel | Escalate | Resubmit

  datatype State = State(
    id: StateId, code: string, kind: Kind, isApprovalGate: bool, requiredPermission: Option<string>,
    joinType: JoinType, stepCount: int, quorumCount: Option<int>, slaHours: Option<int>,
    enforceSegregation: bool, requiresComment: bool)

  datatype Transition = Transition(
    source: StateId, target: StateId, action: Action, requiredPermission: Option<string>,
    minAmount: Option<real>, maxAmount: Option<real>, requiresComment: bool)

  function Ids(states: seq<State>): set<StateId> {
    set s | s in states :: s.id
  }

  // ---- what a well-formed graph is ---------------------------------------------

  /** `node` is reached from `start` by `k` transitions. */
  ghost predicate Reaches(transitions: seq<Transition>, start: StateId, node: StateId, k: nat)
    decreases k
  {
    if k == 0 then start == node
    else exists t :: t in transitions && t.target == node && Reaches(transitions, start, t.source, k - 1)
  }

  ghost predicate Reachable(transitions: seq<Transition>, start: StateId, node: StateId) {
    exists k: nat :: Reaches(transitions, start, node, k)
  }

  ghost predicate OnlyInitial(states: seq<State>, i: nat) {
    i < |states| && states[i].kind == Initial && forall j :: 0 <= j < |states| && states[j].kind == Initial ==> j == i
  }

  ghost predicate KnownEndpoints(states: seq<State>, transitions: seq<Transition>) {
    forall t :: t in transitions ==> t.source in Ids(states) && t.target in Ids(states)
  }

  ghost predicate HasExit(transitions: seq<Transition>, s: StateId) {
    exists t :: t in transitions && t.source == s
  }

  ghost predicate AllReachable(states: seq<State>, transitions: seq<Transition>, start: StateId) {
    forall s :: s in states ==> Reachable(transitions, start, s.id)
  }

  ghost function Missed(states: seq<State>, transitions: seq<Transition>, start: StateId): set<StateId> {
    set s | s in states && !Reachable(transitions, start, s.id) :: s.id
  }

  ghost predicate WellFormed(states: seq<State>, transitions: seq<Transition>) {
    && (exists s :: s in states && s.kind == Terminal)
    && KnownEndpoints(states, transitions)
    && (forall s :: s in states && s.kind != Terminal ==> HasExit(transitions, s.id))
    && exists i: nat :: OnlyInitial(states, i) && AllReachable(states, transitions, states[i].id)
  }

  // ---- the check ------------------------------------------------------------------

  datatype GraphError =
    | NoStates
    | InitialCount(n: nat)
    | NoTerminal
    | UnknownEndpoint
    | NoExit(code: string)
    | Unreachable(ids: set<StateId>)

  method CollectInitials(states: seq<State>) returns (initials: seq<nat>)
    ensures forall k :: 0 <= k < |initials| ==> initials[k] < |states| && states[initials[k]].kind == Initial
    ensures forall k, m :: 0 <= k < m < |initials| ==> initials[k] < initials[m]
    ensures forall j :: 0 <= j < |states| && states[j].kind == Initial ==> j in initials
  {
    initials := [];
    for i := 0 to |states|
      invariant forall k :: 0 <= k < |initials| ==> initials[k] < i && states[initials[k]].kind == Initial
      invariant forall k, m :: 0 <= k < m < |initials| ==> initials[k] < initials[m]
      invariant forall j :: 0 <= j < i && states[j].kind == Initial ==> j in initials
    {
      if states[i].kind == Initial {
        initials := initials + [i];
      }
    }
  }

  /** The adjacency lists hold exactly the transitions' targets, source by source. */
  ghost predicate Adjacent(out: map<StateId, seq<StateId>>, states: seq<State>, transitions: seq<Transition>) {
    && out.Keys == Ids(states)
    && (forall t :: t in transitions && t.source in out ==> t.target in out[t.source])
    && (forall s, d :: s in out && d in out[s] ==> exists t :: t in transitions && t.source == s && t.target == d)
  }

  method BuildAdjacency(states: seq<State>, transitions: seq<Transition>)
    returns (ok: bool, out: map<StateId, seq<StateId>>)
    ensures ok <==> KnownEndpoints(states, transitions)
    ensures ok ==> Adjacent(out, states, transitions)
  {
    out := map id | id in Ids(states) :: [];
    ok := true;
    for i := 0 to |transitions|
      invariant ok && KnownEndpoints(states, transitions[..i])
      invariant Adjacent(out, states, transitions[..i])
    {
      var t := transitions[i];
      assert transitions[..i + 1] == transitions[..i] + [t];
      if t.source !in Ids(states) || t.target !in Ids(states) {
        assert t in transitions;
        return false, map[];
      }
      out := AddEdge(out, states, transitions[..i], t);
    }
    assert transitions[..|transitions|] == transitions;
  }

  method AddEdge(out: map<StateId, seq<StateId>>, states: seq<State>, transitions: seq<Transition>, t: Transition)
    returns (out': map<StateId, seq<StateId>>)
    requires Adjacent(out, states, transitions) && t.source in out
    ensures Adjacent(out', states, transitions + [t])
  {
    out' := out[t.source := out[t.source] + [t.target]];
    forall s, d | s in out' && d in out'[s]
      ensures exists u :: u in transitions + [t] && u.source == s && u.target == d
    {
      if s in out && d in out[s] {
        var u :| u in transitions && u.source == s && u.target == d;
        assert u in transitions + [t];
      } else {
        assert t in transitions + [t];
      }
    }
  }

  /** The worklist: nodes may be pushed many times, but each pop either marks a new
      node or shortens the stack. */
  method MarkReachable(
    states: seq<State>, transitions: seq<Transition>, out: map<StateId, seq<StateId>>, start: StateId)
    returns (seen: set<StateId>)
    requires Adjacent(out, states, transitions) && KnownEndpoints(states, transitions) && start in out
    ensures forall n :: n in seen <==> Reachable(transitions, start, n)
  {
    seen := {};
    var frontier := [start];
    ReachesSelf(transitions, start);
    while frontier != []
      invariant forall n :: n in frontier ==> n in out && Reachable(transitions, start, n)
      invariant forall n :: n in seen ==> n in out && Reachable(transitions, start, n)
      invariant start in seen || start in frontier
      invariant forall t :: t in transitions && t.source in seen ==> t.target in seen || t.target in frontier
      decreases |out.Keys - seen|, |frontier|
    {
      var node := frontier[|frontier| - 1];
      var rest := frontier[..|frontier| - 1];
      assert forall n :: n in frontier <==> n == node || n in rest;
      if node !in seen {
        forall d | d in out[node] ensures d in out && Reachable(transitions, start, d) {
          ReachesOn(states, transitions, out, start, node, d);
        }
        SubsetSize(out.Keys - seen - {node}, out.Keys - seen);
        assert out.Keys - (seen + {node}) == out.Keys - seen - {node};
        seen := seen + {node};
        rest := rest + out[node];
      }
      frontier := rest;
    }
    forall n | Reachable(transitions, start, n) ensures n in seen {
      var k :| Reaches(transitions, start, n, k);
      ClosedHoldsReached(transitions, start, n, k, seen);
    }
  }

  lemma ReachesSelf(transitions: seq<Transition>, start: StateId)
    ensures Reachable(transitions, start, start)
  {
    assert Reaches(transitions, start, start, 0);
  }

  lemma ReachesOn(
    states: seq<State>, transitions: seq<Transition>, out: map<StateId, seq<StateId>>, start: StateId, node: StateId,
    d: StateId)
    requires Adjacent(out, states, transitions) && KnownEndpoints(states, transitions)
    requires node in out && d in out[node] && Reachable(transitions, start, node)
    ensures d in out && Reachable(transitions, start, d)
  {
    var t :| t in transitions && t.source == node && t.target == d;
    var k: nat :| Reaches(transitions, start, node, k);
    assert Reaches(transitions, start, d, k + 1);
  }

  lemma {:induction false} ClosedHoldsReached(
    transitions: seq<Transition>, start: StateId, node: StateId, k: nat, seen: set<StateId>)
    requires start in seen && forall t :: t in transitions && t.source in seen ==> t.target in seen
    requires Reaches(transitions, start, node, k)
    ensures node in seen
    decreases k
  {
    if k > 0 {
      var t :| t in transitions && t.target == node && Reaches(transitions, start, t.source, k - 1);
      ClosedHoldsReached(transitions, start, t.source, k - 1, seen);
    }
  }

  lemma ListedIsExit(out: map<StateId, seq<StateId>>, states: seq<State>, transitions: seq<Transition>, s: StateId)
    requires Adjacent(out, states, transitions) && s in out
    ensures out[s] != [] <==> HasExit(transitions, s)
  {
    if out[s] != [] {
      var d := out[s][0];
      assert d in out[s];
      var t :| t in transitions && t.source == s && t.target == d;
    }
  }

  method FindNoExit(states: seq<State>, out: map<StateId, seq<StateId>>, ghost transitions: seq<Transition>)
    returns (bad: Option<string>)
    requires Adjacent(out, states, transitions)
    ensures bad.None? <==> forall s :: s in states && s.kind != Terminal ==> HasExit(transitions, s.id)
    ensures bad.Some? ==>
              exists s :: s in states && s.code == bad.value && s.kind != Terminal && !HasExit(transitions, s.id)
  {
    for i := 0 to |states|
      invariant forall s :: s in states[..i] && s.kind != Terminal ==> HasExit(transitions, s.id)
    {
      var s := states[i];
      assert s in states && states[..i + 1] == states[..i] + [s];
      ListedIsExit(out, states, transitions, s.id);
      if s.kind != Terminal && out[s.id] == [] {
        return Some(s.code);
      }
    }
    assert states[..|states|] == states;
    return None;
  }

  /** Accepts exactly the well-formed graphs; when it names unreachable states it
      names exactly those. */
  method ValidateGraph(states: seq<State>, transitions: seq<Transition>) returns (error: Option<GraphError>)
    ensures error.None? <==> WellFormed(states, transitions)
    ensures error.Some? && error.value.Unreachable? ==>
              exists i: nat :: OnlyInitial(states, i) && error.value.ids == Missed(states, transitions, states[i].id)
  {
    if states == [] {
      return Some(NoStates);
    }
    var initials := CollectInitials(states);
    if |initials| != 1 {
      NotOneInitial(states, initials);
      return Some(InitialCount(|initials|));
    }
    var i := initials[0];
    if !exists s :: s in states && s.kind == Terminal {
      return Some(NoTerminal);
    }
    var known, out := BuildAdjacency(states, transitions);
    if !known {
      return Some(UnknownEndpoint);
    }
    var noExit := FindNoExit(states, out, transitions);
    if noExit.Some? {
      return Some(NoExit(noExit.value));
    }
    assert states[i] in states;
    var seen := MarkReachable(states, transitions, out, states[i].id);
    var unreachable := Ids(states) - seen;
    assert OnlyInitial(states, i);
    assert unreachable == Missed(states, transitions, states[i].id);
    if unreachable != {} {
      ghost var bad := Pick(unreachable);
      return Some(Unreachable(unreachable));
    }
    forall s | s in states ensures s.id in seen {
      assert s.id in Ids(states) && s.id !in unreachable;
    }
    return None;
  }

  lemma NotOneInitial(states: seq<State>, initials: seq<nat>)
    requires |initials| != 1
    requires forall k :: 0 <= k < |initials| ==> initials[k] < |states| && states[initials[k]].kind == Initial
    requires forall k, m :: 0 <= k < m < |initials| ==> initials[k] < initials[m]
    requires forall j :: 0 <= j < |states| && states[j].kind == Initial ==> j in initials
    ensures forall i: nat :: !OnlyInitial(states, i)
  {
    forall i: nat ensures !OnlyInitial(states, i) {
      if |initials| > 1 {
        assert initials[0] < initials[1];
      }
    }
  }

  // ---- authoring --------------------------------------------------------------------

  type VersionId = int

  datatype Version = Version(published: bool, states: seq<State>, transitions: seq<Transition>)

  type Library = map<VersionId, Version>

  datatype Edit =
    | CreateVersion(v: VersionId)
    | AddState(v: VersionId, state: State)
    | AddTransition(v: VersionId, transition: Transition)
    | Publish(v: VersionId)

  /** One authoring call; a refused call leaves the library as it was. */
  ghost function Edited(lib: Library, e: Edit): Library {
    match e
    case CreateVersion(v) => if v in lib then lib else lib[v := Version(false, [], [])]
    case AddState(v, s) =>
      if v in lib && !lib[v].published then lib[v := lib[v].(states := lib[v].states + [s])] else lib
    case AddTransition(v, t) =>
      if v in lib && !lib[v].published then lib[v := lib[v].(transitions := lib[v].transitions + [t])] else lib
    case Publish(v) =>
      if v in lib && WellFormed(lib[v].states, lib[v].transitions) then lib[v := lib[v].(published := true)] else lib
  }

  ghost function EditedAll(lib: Library, edits: seq<Edit>): Library
    decreases |edits|
  {
    if edits == [] then lib else EditedAll(Edited(lib, edits[0]), edits[1..])
  }

  ghost predicate PublishedAreWellFormed(lib: Library) {
    forall v :: v in lib && lib[v].published ==> WellFormed(lib[v].states, lib[v].transitions)
  }

  /** Whatever is authored afterwards, a published version keeps its validated graph. */
  lemma {:induction false} PublishedStaysValidated(lib: Library, edits: seq<Edit>)
    requires PublishedAreWellFormed(lib)
    ensures PublishedAreWellFormed(EditedAll(lib, edits))
    ensures forall v :: v in lib && lib[v].published ==>
              v in EditedAll(lib, edits) && EditedAll(lib, edits)[v] == lib[v]
    decreases |edits|
  {
    if edits != [] {
      PublishedStaysValidated(Edited(lib, edits[0]), edits[1..]);
    }
  }

  class Authoring {
    var versions: Library

    constructor ()
      ensures versions == map[]
    {
      versions := map[];
    }

    method CreateVersion(v: VersionId)
      requires v !in versions
      modifies this
      ensures versions == Edited(old(versions), Edit.CreateVersion(v))
    {
      versions := versions[v := Version(false, [], [])];
    }

    method AddState(v: VersionId, state: State) returns (ok: bool)
      requires v in versions
      modifies this
      ensures versions == Edited(old(versions), Edit.AddState(v, state))
      ensures ok <==> !old(versions)[v].published
    {
      if versions[v].published {
        return false;
      }
      versions := versions[v := versions[v].(states := versions[v].states + [state])];
      return true;
    }

    method AddTransition(v: VersionId, transition: Transition) returns (ok: bool)
      requires v in versions
      modifies this
      ensures versions == Edited(old(versions), Edit.AddTransition(v, transition))
      ensures ok <==> !old(versions)[v].published
    {
      if versions[v].published {
        return false;
      }
      versions := versions[v := versions[v].(transitions := versions[v].transitions + [transition])];
      return true;
    }

    /** Idempotent for a version that is already published. */
    method PublishVersion(v: VersionId) returns (error: Option<GraphError>)
      requires v in versions && PublishedAreWellFormed(versions)
      modifies this
      ensures versions == Edited(old(versions), Publish(v)) && PublishedAreWellFormed(versions)
      ensures error.None? <==> versions[v].published
    {
      if versions[v].published {
        return None;
      }
      error := ValidateGraph(versions[v].states, versions[v].transitions);
      if error.None? {
        versions := versions[v := versions[v].(published := true)];
      }
    }
  }
}
