/** The org-unit batch of a directory feed: cycle detection and the order of applying it. */
module OrgFeed {
  import opened Collections
  import opened Ordering

  type Code = string

  /** Each feed code with the parent code its row names. */
  type Parents = map<Code, Option<Code>>

  const MAX_TREE_DEPTH: nat := 64

  predicate InFeed(parents: Parents, cur: Option<Code>) {
    cur.Some? && cur.value in parents
  }

  /** The parent chain that starts at `cur` passes through at least `k` feed nodes. */
  predicate Stays(parents: Parents, cur: Option<Code>, k: nat)
    decreases k, cur
  {
    k == 0 || (InFeed(parents, cur) && Stays(parents, parents[cur.value], k - 1))
  }

  /** The chain leaves the feed, and does so within `MAX_TREE_DEPTH + 1` nodes. */
  predicate Leaves(parents: Parents, code: Code) {
    !Stays(parents, Some(code), MAX_TREE_DEPTH + 2)
  }

  lemma {:induction false} StaysLess(parents: Parents, cur: Option<Code>, j: nat, k: nat)
    requires j <= k && Stays(parents, cur, k)
    ensures Stays(parents, cur, j)
    decreases j, cur
  {
    if j > 0 {
      StaysLess(parents, parents[cur.value], j - 1, k - 1);
    }
  }

  /** A set of feed codes that holds each member's parent is never left. */
  lemma {:induction false} ClosedStays(parents: Parents, loop: set<Code>, code: Code, k: nat)
    requires code in loop
    requires forall c :: c in loop ==> c in parents && parents[c].Some? && parents[c].value in loop
    ensures Stays(parents, Some(code), k)
    decreases k
  {
    if k > 0 {
      ClosedStays(parents, loop, parents[code].value, k - 1);
      assert parents[code] == Some(parents[code].value);
    }
  }

  /** The node `depth` parent steps up the chain, if the chain is still in the feed. */
  function Nth(parents: Parents, cur: Option<Code>, depth: nat): Option<Code>
    decreases depth, cur
  {
    if depth == 0 then cur else if InFeed(parents, cur) then Nth(parents, parents[cur.value], depth - 1) else None
  }

  lemma {:induction false} ChainStep(parents: Parents, cur: Option<Code>, depth: nat)
    ensures Stays(parents, cur, depth + 1) <==> Stays(parents, cur, depth) && InFeed(parents, Nth(parents, cur, depth))
    ensures var at := Nth(parents, cur, depth);
            InFeed(parents, at) ==> Nth(parents, cur, depth + 1) == parents[at.value]
    decreases depth, cur
  {
    if depth > 0 && InFeed(parents, cur) {
      ChainStep(parents, parents[cur.value], depth - 1);
    }
  }

  /** The walk from `code` stands at `cur` after `depth` feed nodes. */
  ghost predicate OnChain(parents: Parents, code: Code, cur: Option<Code>, depth: nat) {
    Stays(parents, Some(code), depth) && cur == Nth(parents, Some(code), depth)
  }

  ghost predicate SeenLeadsOn(parents: Parents, seen: set<Code>, cur: Option<Code>) {
    forall c :: c in seen ==> c in parents && (parents[c] == cur || (parents[c].Some? && parents[c].value in seen))
  }

  /** A walk stopped inside the feed has met a node again or gone too deep. */
  lemma LoopOrTooLong(parents: Parents, code: Code, cur: Option<Code>, depth: nat, seen: set<Code>)
    requires OnChain(parents, code, cur, depth) && InFeed(parents, cur) && SeenLeadsOn(parents, seen, cur)
    requires (code in seen && cur.value in seen) || depth == MAX_TREE_DEPTH + 1
    ensures !Leaves(parents, code)
  {
    if code in seen && cur.value in seen {
      ClosedStays(parents, seen, code, MAX_TREE_DEPTH + 2);
    } else {
      ChainStep(parents, Some(code), depth);
    }
  }

  lemma LeftInTime(parents: Parents, code: Code, cur: Option<Code>, depth: nat)
    requires OnChain(parents, code, cur, depth) && !InFeed(parents, cur) && depth <= MAX_TREE_DEPTH + 1
    ensures Leaves(parents, code)
  {
    ChainStep(parents, Some(code), depth);
    if !Leaves(parents, code) {
      StaysLess(parents, Some(code), depth + 1, MAX_TREE_DEPTH + 2);
    }
  }

  /** The walk from one code, with its `seen` set and depth guard. */
  method Loops(parents: Parents, code: Code) returns (reported: bool)
    requires code in parents
    ensures reported <==> !Leaves(parents, code)
  {
    var seen: set<Code> := {};
    var cur := Some(code);
    var depth := 0;
    while InFeed(parents, cur)
      invariant depth <= MAX_TREE_DEPTH + 1 && OnChain(parents, code, cur, depth)
      invariant depth == 0 ==> cur == Some(code) && seen == {}
      invariant depth > 0 ==> code in seen
      invariant SeenLeadsOn(parents, seen, cur)
      decreases MAX_TREE_DEPTH + 2 - depth
    {
      if cur.value in seen || depth > MAX_TREE_DEPTH {
        LoopOrTooLong(parents, code, cur, depth, seen);
        return true;
      }
      ChainStep(parents, Some(code), depth);
      seen := seen + {cur.value};
      cur := parents[cur.value];
      depth := depth + 1;
    }
    LeftInTime(parents, code, cur, depth);
    return false;
  }

  /** Reports exactly the codes whose chain does not leave the feed in time. */
  method DetectOrgCycles(parents: Parents) returns (reported: set<Code>)
    ensures reported == set c | c in parents && !Leaves(parents, c)
  {
    reported := {};
    var todo := parents.Keys;
    while todo != {}
      invariant todo <= parents.Keys
      invariant reported == set c | c in parents.Keys - todo && !Leaves(parents, c)
      decreases |todo|
    {
      ghost var some := Pick(todo);
      var code :| code in todo;
      var bad := Loops(parents, code);
      if bad {
        reported := reported + {code};
      }
      todo := todo - {code};
    }
  }

  /** A real loop is always reported. */
  lemma LoopsAreReported(parents: Parents, loop: set<Code>, code: Code)
    requires code in loop
    requires forall c :: c in loop ==> c in parents && parents[c].Some? && parents[c].value in loop
    ensures !Leaves(parents, code)
  {
    ClosedStays(parents, loop, code, MAX_TREE_DEPTH + 2);
  }

  // ---- what else is reported ----------------------------------------------------------

  /** The chain from the code comes back to a node it has passed. */
  ghost predicate Revisits(parents: Parents, code: Code) {
    exists i: nat, j: nat :: MeetsAgain(parents, code, i, j)
  }

  ghost predicate MeetsAgain(parents: Parents, code: Code, i: nat, j: nat) {
    i < j && Stays(parents, Some(code), j + 1) && Nth(parents, Some(code), i) == Nth(parents, Some(code), j)
  }

  /** The first `n` nodes of the chain are feed codes, all different. */
  ghost predicate DistinctFor(parents: Parents, code: Code, n: nat) {
    && Stays(parents, Some(code), n)
    && forall i, j :: 0 <= i < j < n ==> Nth(parents, Some(code), i) != Nth(parents, Some(code), j)
  }

  /** The first `n` nodes of a chain that stays that long. */
  ghost function Nodes(parents: Parents, code: Code, n: nat): set<Code>
    requires Stays(parents, Some(code), n)
  {
    set i | 0 <= i < n && Nth(parents, Some(code), i).Some? :: Nth(parents, Some(code), i).value
  }

  lemma NthIsInFeed(parents: Parents, code: Code, n: nat, i: nat)
    requires Stays(parents, Some(code), n) && i < n
    ensures InFeed(parents, Nth(parents, Some(code), i))
  {
    StaysLess(parents, Some(code), i + 1, n);
    ChainStep(parents, Some(code), i);
  }

  /** A chain that meets a node again never leaves the feed. */
  lemma RevisitsStays(parents: Parents, code: Code, i: nat, j: nat, k: nat)
    requires MeetsAgain(parents, code, i, j)
    ensures Stays(parents, Some(code), k)
  {
    var loop := Nodes(parents, code, j + 1);
    forall c | c in loop ensures c in parents && parents[c].Some? && parents[c].value in loop {
      var m :| 0 <= m < j + 1 && Nth(parents, Some(code), m).Some? && Nth(parents, Some(code), m).value == c;
      var next := if m < j then m + 1 else i + 1;
      NthIsInFeed(parents, code, j + 1, m);
      NthIsInFeed(parents, code, j + 1, next);
      ChainStep(parents, Some(code), m);
      ChainStep(parents, Some(code), i);
      assert Nth(parents, Some(code), next) == parents[c];
    }
    NthIsInFeed(parents, code, j + 1, 0);
    assert Nth(parents, Some(code), 0) == Some(code);
    ClosedStays(parents, loop, code, k);
  }

  lemma StaysIsDistinctOrRevisits(parents: Parents, code: Code, n: nat)
    requires Stays(parents, Some(code), n)
    ensures DistinctFor(parents, code, n) || Revisits(parents, code)
  {
    if i, j :| 0 <= i < j < n && Nth(parents, Some(code), i) == Nth(parents, Some(code), j) {
      StaysLess(parents, Some(code), j + 1, n);
      assert MeetsAgain(parents, code, i, j);
    }
  }

  /** Exactly what is reported: a chain that loops, or one of more than 65 different codes. */
  lemma ReportedLoopsOrIsLong(parents: Parents, code: Code)
    ensures !Leaves(parents, code) <==> Revisits(parents, code) || DistinctFor(parents, code, MAX_TREE_DEPTH + 2)
  {
    if !Leaves(parents, code) {
      StaysIsDistinctOrRevisits(parents, code, MAX_TREE_DEPTH + 2);
    }
    if i: nat, j: nat :| MeetsAgain(parents, code, i, j) {
      RevisitsStays(parents, code, i, j, MAX_TREE_DEPTH + 2);
    }
  }

  /** Different nodes are counted by the feed. */
  lemma {:induction false} DistinctNodes(parents: Parents, code: Code, n: nat)
    requires DistinctFor(parents, code, n)
    ensures |Nodes(parents, code, n)| == n && Nodes(parents, code, n) <= parents.Keys
    decreases n
  {
    if n == 0 {
      assert Nodes(parents, code, n) == {};
    } else {
      StaysLess(parents, Some(code), n - 1, n);
      DistinctNodes(parents, code, n - 1);
      NthIsInFeed(parents, code, n, n - 1);
      var last := Nth(parents, Some(code), n - 1).value;
      assert Nodes(parents, code, n) == Nodes(parents, code, n - 1) + {last};
      forall i | 0 <= i < n - 1 ensures Nth(parents, Some(code), i) != Some(last) {
        assert Nth(parents, Some(code), i) != Nth(parents, Some(code), n - 1);
      }
    }
  }

  /** A chain of different codes is no longer than the feed. */
  lemma LongChainNeedsALargeFeed(parents: Parents, code: Code, n: nat)
    requires DistinctFor(parents, code, n)
    ensures n <= |parents|
  {
    DistinctNodes(parents, code, n);
    SubsetSize(Nodes(parents, code, n), parents.Keys);
  }

  /** The documented contract: the codes reported are exactly those whose chain loops. */
  ghost predicate ReportsLoops(parents: Parents) {
    forall c :: c in parents ==> (!Leaves(parents, c) <==> Revisits(parents, c))
  }

  // ---- a line that is too long --------------------------------------------------------------

  function Tally(k: nat): Code {
    seq(k, i => 'x')
  }

  function Tallies(n: nat): set<Code> {
    if n == 0 then {} else Tallies(n - 1) + {Tally(n - 1)}
  }

  /** `n` codes, each below the one before it; there is no loop. */
  function Line(n: nat): Parents {
    map c | c in Tallies(n) :: if |c| == 0 then None else Some(Tally(|c| - 1))
  }

  lemma {:induction false} TalliesHold(n: nat, k: nat)
    ensures Tally(k) in Tallies(n) <==> k < n
    decreases n
  {
    if n > 0 {
      TalliesHold(n - 1, k);
      assert |Tally(k)| == k && |Tally(n - 1)| == n - 1;
    }
  }

  lemma LineHolds(n: nat, k: nat)
    ensures Tally(k) in Line(n) <==> k < n
    ensures k < n ==> Line(n)[Tally(k)] == if k == 0 then None else Some(Tally(k - 1))
  {
    TalliesHold(n, k);
    assert |Tally(k)| == k;
  }

  lemma {:induction false} LineStays(n: nat, k: nat, m: nat)
    requires k < n
    ensures Stays(Line(n), Some(Tally(k)), m) <==> m <= k + 1
    decreases k
  {
    LineHolds(n, k);
    if k > 0 && m > 0 {
      LineStays(n, k - 1, m - 1);
    } else if m > 0 {
      assert Stays(Line(n), Some(Tally(k)), m) <==> Stays(Line(n), None, m - 1);
    }
  }

  lemma {:induction false} LineSize(n: nat)
    ensures |Line(n)| == |Tallies(n)| == n
  {
    assert Line(n).Keys == Tallies(n);
    if n > 0 {
      LineSize(n - 1);
      TalliesHold(n - 1, n - 1);
    }
  }

  /** No code of a line loops, and its last code is reported exactly when the line has more
      than 65 codes. */
  lemma LongLineIsReported(n: nat)
    requires n > 0
    ensures |Line(n)| == n && Tally(n - 1) in Line(n) && !Revisits(Line(n), Tally(n - 1))
    ensures !Leaves(Line(n), Tally(n - 1)) <==> n >= MAX_TREE_DEPTH + 2
  {
    LineSize(n);
    LineHolds(n, n - 1);
    LineStays(n, n - 1, MAX_TREE_DEPTH + 2);
    var feed, code := Line(n), Tally(n - 1);
    LineStays(n, n - 1, n + 1);
    if Revisits(feed, code) {
      var i: nat, j: nat :| MeetsAgain(feed, code, i, j);
      RevisitsStays(feed, code, i, j, n + 1);
    }
  }

  /** The documented contract holds of every feed of up to `n` codes if and only if `n` is at
      most 65. */
  lemma SizeDecidesReports(n: nat)
    ensures (forall parents: Parents :: |parents| <= n ==> ReportsLoops(parents)) <==> n <= MAX_TREE_DEPTH + 1
  {
    if n <= MAX_TREE_DEPTH + 1 {
      forall parents: Parents | |parents| <= n ensures ReportsLoops(parents) {
        SmallFeedReportsLoops(parents);
      }
    } else {
      LongLineIsReported(n);
      assert !ReportsLoops(Line(n));
    }
  }

  lemma SmallFeedReportsLoops(parents: Parents)
    requires |parents| <= MAX_TREE_DEPTH + 1
    ensures ReportsLoops(parents)
  {
    forall c | c in parents ensures !Leaves(parents, c) <==> Revisits(parents, c) {
      ReportedLoopsOrIsLong(parents, c);
      if DistinctFor(parents, c, MAX_TREE_DEPTH + 2) {
        LongChainNeedsALargeFeed(parents, c, MAX_TREE_DEPTH + 2);
      }
    }
  }

  // ---- parents before children -----------------------------------------------------

  /** The number of feed nodes on the chain from `cur`, up to `fuel`. */
  function Height(parents: Parents, cur: Option<Code>, fuel: nat): nat
    decreases fuel, cur
  {
    if fuel == 0 || !InFeed(parents, cur) then 0 else 1 + Height(parents, parents[cur.value], fuel - 1)
  }

  /** A feed code's place in the hierarchy: 1 for a top of the feed, and one more than
      its parent's otherwise. */
  function Rank(parents: Parents, code: Code): nat {
    Height(parents, Some(code), MAX_TREE_DEPTH + 2)
  }

  ghost predicate NoneReported(parents: Parents) {
    forall c :: c in parents ==> Leaves(parents, c)
  }

  lemma {:induction false} FuelIsAmple(parents: Parents, cur: Option<Code>, fuel: nat)
    requires !Stays(parents, cur, fuel)
    ensures Height(parents, cur, fuel) == Height(parents, cur, fuel + 1)
    decreases fuel, cur
  {
    if InFeed(parents, cur) {
      FuelIsAmple(parents, parents[cur.value], fuel - 1);
    }
  }

  lemma RankOfParent(parents: Parents, code: Code)
    requires code in parents && Leaves(parents, code)
    ensures Rank(parents, code) == 1 + if InFeed(parents, parents[code]) then Rank(parents, parents[code].value) else 0
  {
    var parent := parents[code];
    assert !Stays(parents, parent, MAX_TREE_DEPTH + 1);
    FuelIsAmple(parents, parent, MAX_TREE_DEPTH + 1);
    if InFeed(parents, parent) {
      assert parent == Some(parent.value);
    }
  }

  /** Below every rank reached there is a code of each smaller rank. */
  lemma {:induction false} RanksAreDense(parents: Parents, code: Code, r: nat) returns (c: Code)
    requires NoneReported(parents) && code in parents && 1 <= r <= Rank(parents, code)
    ensures c in parents && Rank(parents, c) == r
    decreases Rank(parents, code)
  {
    RankOfParent(parents, code);
    if Rank(parents, code) == r {
      c := code;
    } else {
      c := RanksAreDense(parents, parents[code].value, r);
    }
  }

  /** Ordered by rank, and alphabetically within a rank. */
  ghost predicate RankOrdered(parents: Parents, order: seq<Code>) {
    forall i, j :: 0 <= i < j < |order| ==>
      || Rank(parents, order[i]) < Rank(parents, order[j])
      || (Rank(parents, order[i]) == Rank(parents, order[j]) && order[i] != order[j] && StrLe(order[i], order[j]))
  }

  ghost predicate IsPlaced(parents: Parents, order: seq<Code>, round: nat) {
    && RankOrdered(parents, order)
    && forall c :: c in order <==> c in parents && Rank(parents, c) <= round
  }

  ghost function Above(parents: Parents, round: nat): set<Code> {
    set c | c in parents && Rank(parents, c) > round
  }

  lemma ReadyIsNextRank(parents: Parents, remaining: set<Code>, round: nat, ready: set<Code>)
    requires NoneReported(parents)
    requires remaining == Above(parents, round)
    requires ready == set c | c in remaining && !(parents[c].Some? && parents[c].value in remaining)
    ensures ready == set c | c in parents && Rank(parents, c) == round + 1
    ensures remaining != {} ==> ready != {}
  {
    forall c | c in parents ensures c in ready <==> Rank(parents, c) == round + 1 {
      RankOfParent(parents, c);
    }
    if remaining != {} {
      var code := Pick(remaining);
      var c := RanksAreDense(parents, code, round + 1);
      assert c in ready;
    }
  }

  lemma RoundKeepsOrder(parents: Parents, order: seq<Code>, round: nat, batch: seq<Code>)
    requires IsPlaced(parents, order, round) && Ascending(batch)
    requires forall c :: c in batch <==> c in parents && Rank(parents, c) == round + 1
    ensures IsPlaced(parents, order + batch, round + 1)
  {
    var both := order + batch;
    forall i, j | 0 <= i < j < |both|
      ensures || Rank(parents, both[i]) < Rank(parents, both[j])
              || (Rank(parents, both[i]) == Rank(parents, both[j]) && both[i] != both[j] && StrLe(both[i], both[j]))
    {
      if j < |order| {
      } else if i < |order| {
        assert order[i] in order && batch[j - |order|] in batch;
      } else {
        assert batch[i - |order|] in batch && batch[j - |order|] in batch;
      }
    }
  }

  /** One round: some code is ready, and the ready ones are placed alphabetically. */
  method PlaceReady(parents: Parents, remaining: set<Code>, order: seq<Code>, ghost round: nat)
    returns (remaining': set<Code>, order': seq<Code>)
    requires NoneReported(parents) && remaining != {}
    requires remaining == Above(parents, round) && IsPlaced(parents, order, round)
    ensures remaining' == Above(parents, round + 1) && IsPlaced(parents, order', round + 1)
    ensures |remaining'| < |remaining|
  {
    var ready := set c | c in remaining && !(parents[c].Some? && parents[c].value in remaining);
    ReadyIsNextRank(parents, remaining, round, ready);
    var batch := SortStrings(ready);
    RoundKeepsOrder(parents, order, round, batch);
    order' := order + batch;
    remaining' := remaining - ready;
    ghost var placed := Pick(ready);
    SubsetSize(remaining', remaining);
  }

  /** Each code once, and after its in-feed parent. */
  ghost predicate ParentsFirst(parents: Parents, order: seq<Code>) {
    && (forall c :: c in order <==> c in parents)
    && (forall i, j :: 0 <= i < j < |order| ==> order[i] != order[j])
    && (forall i :: 0 <= i < |order| && InFeed(parents, parents[order[i]]) ==> parents[order[i]].value in order[..i])
  }

  /** Every round finds a ready code, so the loop ends; the result holds each code once,
      in rank order, which puts a code's parent before it. */
  method TopologicalOrder(parents: Parents) returns (order: seq<Code>)
    requires NoneReported(parents)
    ensures ParentsFirst(parents, order) && RankOrdered(parents, order)
  {
    order := [];
    ghost var round := 0;
    var remaining := parents.Keys;
    while remaining != {}
      invariant remaining == Above(parents, round) && IsPlaced(parents, order, round)
      decreases |remaining|
    {
      remaining, order := PlaceReady(parents, remaining, order, round);
      round := round + 1;
    }
    forall c | c in parents ensures c in order {
      assert c !in Above(parents, round);
    }
    ParentsPrecede(parents, order);
  }

  lemma ParentsPrecede(parents: Parents, order: seq<Code>)
    requires NoneReported(parents) && RankOrdered(parents, order)
    requires forall c :: c in order <==> c in parents
    ensures ParentsFirst(parents, order)
  {
    forall i | 0 <= i < |order| && InFeed(parents, parents[order[i]])
      ensures parents[order[i]].value in order[..i]
    {
      var parent := parents[order[i]].value;
      assert order[i] in order;
      RankOfParent(parents, order[i]);
      var j :| 0 <= j < |order| && order[j] == parent;
      assert j < i;
    }
  }
}
