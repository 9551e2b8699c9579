/** The order in which a page's text blocks are read (formats/alto/parser.py): document order,
    overridden by the successor chains the blocks declare. An order is a sequence of positions in
    document order, a position standing for the element itself. */
module ReadingOrder {
  import opened Wrappers
  import opened Text
  import opened Sorting

  /** The two attributes that matter, as they stand in the file. */
  datatype TextBlock = TextBlock(id: Option<string>, idNext: Option<string>)

  /** A missing or empty id names nothing. */
  function Usable(id: Option<string>): Option<string> {
    if id == Some("") then None else id
  }

  /** The successor a block declares, if it declares one. */
  function Declared(b: TextBlock): Option<string> {
    if b.idNext.None? || Strip(b.idNext.value) == "" then None else Some(Strip(b.idNext.value))
  }

  /** Block i declares block j its successor. A target outside the container is nobody's. */
  predicate Continues(blocks: seq<TextBlock>, i: nat, j: nat) {
    && i < |blocks| && j < |blocks| && Usable(blocks[i].id).Some?
    && Declared(blocks[i]).Some? && Declared(blocks[i]) == Usable(blocks[j].id)
  }

  ghost predicate UniqueIds(blocks: seq<TextBlock>) {
    forall i, j :: 0 <= i < j < |blocks| && Usable(blocks[i].id).Some? ==> Usable(blocks[i].id) != Usable(blocks[j].id)
  }

  /** Ids are unique, no block continues itself and no two continue onto the same one. */
  ghost predicate Consistent(blocks: seq<TextBlock>) {
    && UniqueIds(blocks)
    && (forall i :: !Continues(blocks, i, i))
    && forall i, k, j :: Continues(blocks, i, j) && Continues(blocks, k, j) ==> i == k
  }

  // ----- successor maps -----------------------------------------------------

  ghost predicate Injective(next: map<nat, nat>) {
    forall a, b :: a in next && b in next && next[a] == next[b] ==> a == b
  }

  ghost predicate Inside(next: map<nat, nat>, n: nat) {
    forall a :: a in next ==> a < n && next[a] < n
  }

  predicate Head(next: map<nat, nat>, j: nat) {
    j !in next.Values
  }

  /** The successor relation of the blocks, as a map of positions. */
  ghost predicate IsNext(blocks: seq<TextBlock>, next: map<nat, nat>) {
    && Inside(next, |blocks|)
    && forall i: nat, j: nat {:trigger Continues(blocks, i, j)} :: (i in next && next[i] == j) <==> Continues(blocks, i, j)
  }

  /** Some blocks are each declared the successor of one among them. */
  ghost predicate Cyclic(next: map<nat, nat>) {
    exists s: set<nat> :: s != {} && ClosedUnderPredecessor(next, s)
  }

  ghost predicate ClosedUnderPredecessor(next: map<nat, nat>, s: set<nat>) {
    forall j {:trigger PrecededIn(next, s, j)} :: j in s ==> PrecededIn(next, s, j)
  }

  ghost predicate PrecededIn(next: map<nat, nat>, s: set<nat>, j: nat) {
    exists i :: i in s && i in next && next[i] == j
  }

  lemma PredecessorIn(next: map<nat, nat>, s: set<nat>, j: nat) returns (i: nat)
    requires ClosedUnderPredecessor(next, s) && j in s
    ensures i in s && i in next && next[i] == j
  {
    assert PrecededIn(next, s, j);
    i :| i in s && i in next && next[i] == j;
  }

  ghost predicate Permutation(order: seq<nat>, n: nat) {
    |order| == n && Distinct(order) && forall k :: 0 <= k < |order| ==> order[k] < n
  }

  /** Successors come immediately after their predecessors, the last block's perhaps not yet. */
  ghost predicate Followed(next: map<nat, nat>, order: seq<nat>, open: bool) {
    forall k :: 0 <= k < |order| && order[k] in next && !(open && k == |order| - 1) ==>
      k + 1 < |order| && order[k + 1] == next[order[k]]
  }

  ghost predicate HeadsAscend(next: map<nat, nat>, order: seq<nat>) {
    forall k, l :: 0 <= k < l < |order| && Head(next, order[k]) && Head(next, order[l]) ==> order[k] < order[l]
  }

  /** Each successor comes immediately after its predecessor, and the chains' heads are in document order. */
  ghost predicate FollowsChains(next: map<nat, nat>, order: seq<nat>) {
    Followed(next, order, false) && HeadsAscend(next, order)
  }

  function DocumentOrder(n: nat): (order: seq<nat>)
    ensures |order| == n && forall k :: 0 <= k < n ==> order[k] == k
  {
    seq(n, k => k)
  }

  // ----- the order is determined --------------------------------------------

  lemma {:induction false} PermutationHasAll(order: seq<nat>, n: nat, x: nat)
    requires Permutation(order, n) && x < n
    ensures x in order
  {
    if x !in order { TooMany(order + [x], n); }
  }

  /** Distinct positions below n are at most n. */
  lemma {:induction false} TooMany(order: seq<nat>, n: nat)
    requires Distinct(order) && forall k :: 0 <= k < |order| ==> order[k] < n
    ensures |order| <= n
  {
    if order != [] {
      if n - 1 in order {
        var k :| 0 <= k < |order| && order[k] == n - 1;
        var rest := order[..k] + order[k + 1..];
        assert forall i :: 0 <= i < |rest| ==> rest[i] == if i < k then order[i] else order[i + 1];
        TooMany(rest, n - 1);
      } else {
        assert n > 0 by { assert order[0] < n; }
        TooMany(order, n - 1);
      }
    }
  }

  /** A sequence that holds every position below n is no shorter than n. */
  lemma {:induction false} TooFew(order: seq<nat>, n: nat)
    requires forall i: nat :: i < n ==> i in order
    ensures |order| >= n
  {
    if n > 0 {
      var last: nat := n - 1;
      assert last in order;
      var k :| 0 <= k < |order| && order[k] == last;
      var rest := order[..k] + order[k + 1..];
      forall i: nat | i < n - 1 ensures i in rest {
        assert i in order;
        var m :| 0 <= m < |order| && order[m] == i;
        assert rest[if m < k then m else m - 1] == i;
      }
      TooFew(rest, n - 1);
    }
  }

  /** In an order that follows the chains, a block's predecessor comes right before it. */
  lemma PredecessorIsBefore(next: map<nat, nat>, order: seq<nat>, n: nat, i: nat, k: nat)
    requires Permutation(order, n) && Inside(next, n) && Followed(next, order, false)
    requires k < |order| && i in next && next[i] == order[k]
    ensures k > 0 && order[k - 1] == i
  {
    PermutationHasAll(order, n, i);
    var m :| 0 <= m < |order| && order[m] == i;
    assert order[m + 1] == order[k];
  }

  lemma HeadOrNext(next: map<nat, nat>, order: seq<nat>, n: nat, k: nat)
    requires Permutation(order, n) && Inside(next, n) && Followed(next, order, false) && k < |order|
    ensures Head(next, order[k]) || (k > 0 && order[k - 1] in next && next[order[k - 1]] == order[k])
  {
    if !Head(next, order[k]) {
      var i :| i in next && next[i] == order[k];
      PredecessorIsBefore(next, order, n, i, k);
    }
  }

  /** At most one order of the blocks follows their chains. */
  lemma {:induction false} OneOrderFollows(next: map<nat, nat>, n: nat, p: seq<nat>, q: seq<nat>)
    requires Inside(next, n)
    requires Permutation(p, n) && FollowsChains(next, p) && Permutation(q, n) && FollowsChains(next, q)
    ensures p == q
  {
    if p != q {
      var i :| 0 <= i < n && p[i] != q[i] && p[..i] == q[..i] by { FirstDifference(p, q, 0); }
      assert forall k :: 0 <= k < i ==> p[..i][k] == p[k] && q[..i][k] == q[k];
      HeadOrNext(next, p, n, i);
      HeadOrNext(next, q, n, i);
      SamePrefixHeads(next, p, q, n, i);
      SamePrefixHeads(next, q, p, n, i);
    }
  }

  lemma {:induction false} FirstDifference(p: seq<nat>, q: seq<nat>, k: nat)
    requires |p| == |q| && p != q && k <= |p| && p[..k] == q[..k]
    ensures exists i :: 0 <= i < |p| && p[i] != q[i] && p[..i] == q[..i]
    decreases |p| - k
  {
    assert p[..|p|] == p && q[..|q|] == q;
    if k < |p| && p[k] == q[k] {
      assert p[..k + 1] == p[..k] + [p[k]] && q[..k + 1] == q[..k] + [q[k]];
      FirstDifference(p, q, k + 1);
    }
  }

  lemma SamePrefixHeads(next: map<nat, nat>, p: seq<nat>, q: seq<nat>, n: nat, i: nat)
    requires Permutation(p, n) && Permutation(q, n) && HeadsAscend(next, q)
    requires i < n && p[i] != q[i] && forall k :: 0 <= k < i ==> p[k] == q[k]
    requires Head(next, p[i]) && Head(next, q[i])
    ensures q[i] < p[i]
  {
    PermutationHasAll(q, n, p[i]);
    var l :| 0 <= l < |q| && q[l] == p[i];
    assert l > i;
  }

  /** Following the chains is impossible around a cycle. */
  lemma {:induction false} FollowedChainsEnd(next: map<nat, nat>, order: seq<nat>, n: nat, s: set<nat>, k: nat)
    requires Permutation(order, n) && Inside(next, n) && Followed(next, order, false)
    requires ClosedUnderPredecessor(next, s) && k < |order|
    ensures order[k] !in s
  {
    if order[k] in s {
      var i := PredecessorIn(next, s, order[k]);
      PredecessorIsBefore(next, order, n, i, k);
      FollowedChainsEnd(next, order, n, s, k - 1);
    }
  }

  // ----- reading the declarations -------------------------------------------

  /** The map from the usable ids of the first `count` blocks to their positions. */
  ghost predicate IsIndex(blocks: seq<TextBlock>, count: nat, byId: map<string, nat>) {
    && (forall i :: 0 <= i < count && i < |blocks| && Usable(blocks[i].id).Some? ==>
          Usable(blocks[i].id).value in byId && byId[Usable(blocks[i].id).value] == i)
    && (forall a :: a in byId ==> byId[a] < count && byId[a] < |blocks| && Usable(blocks[byId[a]].id) == Some(a))
  }

  method IndexBlocks(blocks: seq<TextBlock>) returns (byId: Option<map<string, nat>>)
    ensures byId.None? <==> !UniqueIds(blocks)
    ensures byId.Some? ==> IsIndex(blocks, |blocks|, byId.value)
  {
    var index: map<string, nat> := map[];
    for i := 0 to |blocks|
      invariant IsIndex(blocks, i, index)
    {
      var id := Usable(blocks[i].id);
      if id.Some? {
        if id.value in index { return None; }
        index := index[id.value := i];
      }
    }
    return Some(index);
  }

  /** The block that block i's declaration names. */
  function Target(blocks: seq<TextBlock>, byId: map<string, nat>, i: nat): Option<nat>
    requires i < |blocks|
  {
    var next := Declared(blocks[i]);
    if next.Some? && Usable(blocks[i].id).Some? && next.value in byId then Some(byId[next.value]) else None
  }

  lemma TargetContinues(blocks: seq<TextBlock>, byId: map<string, nat>, i: nat, j: nat)
    requires IsIndex(blocks, |blocks|, byId) && i < |blocks|
    ensures Target(blocks, byId, i) == Some(j) <==> Continues(blocks, i, j)
  {
  }

  /** The targets of the first `count` blocks, no block its own and no two the same. */
  ghost predicate NextOf(blocks: seq<TextBlock>, byId: map<string, nat>, count: nat, next: map<nat, nat>)
    requires count <= |blocks|
  {
    && Injective(next) && (forall i :: i in next ==> next[i] != i)
    && (forall i: nat {:trigger Target(blocks, byId, i)} :: i < count ==>
          if i in next then Target(blocks, byId, i) == Some(next[i]) else Target(blocks, byId, i) == None)
    && forall i :: i in next ==> i < count
  }

  lemma NextContinues(blocks: seq<TextBlock>, byId: map<string, nat>, count: nat, next: map<nat, nat>, i: nat, j: nat)
    requires IsIndex(blocks, |blocks|, byId) && count <= |blocks| && NextOf(blocks, byId, count, next)
    ensures i in next && next[i] == j ==> Continues(blocks, i, j)
    ensures i < count && Continues(blocks, i, j) ==> i in next && next[i] == j
  {
    if i < count { TargetContinues(blocks, byId, i, j); }
  }

  /** Two blocks with one target, or one that is its own, are not consistent. */
  lemma NotConsistent(blocks: seq<TextBlock>, i: nat, k: nat, j: nat)
    requires Continues(blocks, i, j) && Continues(blocks, k, j) && (i != k || i == j)
    ensures !Consistent(blocks)
  {
  }

  lemma AllConsistent(blocks: seq<TextBlock>, byId: map<string, nat>, next: map<nat, nat>)
    requires IsIndex(blocks, |blocks|, byId) && UniqueIds(blocks) && NextOf(blocks, byId, |blocks|, next)
    ensures Consistent(blocks) && IsNext(blocks, next)
  {
    forall i: nat, j: nat ensures (i in next && next[i] == j) <==> Continues(blocks, i, j) {
      NextContinues(blocks, byId, |blocks|, next, i, j);
    }
    forall i | i in next ensures next[i] < |blocks| { assert Continues(blocks, i, next[i]); }
  }

  lemma NextTarget(blocks: seq<TextBlock>, byId: map<string, nat>, i: nat, next: map<nat, nat>)
    requires i < |blocks| && NextOf(blocks, byId, i, next)
    ensures var target := Target(blocks, byId, i);
            if target.None? then NextOf(blocks, byId, i + 1, next)
            else target.value != i && target.value !in next.Values ==> NextOf(blocks, byId, i + 1, next[i := target.value])
  {
  }

  /** A target that is its own block, or another's target already, is not consistent. */
  lemma TargetClashes(blocks: seq<TextBlock>, byId: map<string, nat>, i: nat, next: map<nat, nat>, t: nat)
    requires IsIndex(blocks, |blocks|, byId) && i < |blocks| && NextOf(blocks, byId, i, next)
    requires Target(blocks, byId, i) == Some(t) && (t == i || t in next.Values)
    ensures !Consistent(blocks)
  {
    TargetContinues(blocks, byId, i, t);
    if t == i {
      NotConsistent(blocks, i, i, i);
    } else {
      var k :| k in next && next[k] == t;
      NextContinues(blocks, byId, i, next, k, t);
      NotConsistent(blocks, i, k, t);
    }
  }

  method CollectSuccessors(blocks: seq<TextBlock>, byId: map<string, nat>) returns (succ: Option<map<nat, nat>>)
    requires IsIndex(blocks, |blocks|, byId) && UniqueIds(blocks)
    ensures succ.None? <==> !Consistent(blocks)
    ensures succ.Some? ==> IsNext(blocks, succ.value) && Injective(succ.value)
  {
    var next: map<nat, nat> := map[];
    for i := 0 to |blocks|
      invariant NextOf(blocks, byId, i, next)
    {
      var target := Target(blocks, byId, i);
      NextTarget(blocks, byId, i, next);
      if target.Some? {
        if target.value == i || target.value in next.Values {
          TargetClashes(blocks, byId, i, next, target.value);
          return None;
        }
        next := next[i := target.value];
      }
    }
    AllConsistent(blocks, byId, next);
    return Some(next);
  }

  // ----- the walk -----------------------------------------------------------

  ghost predicate StartsOrFollows(next: map<nat, nat>, order: seq<nat>, k: nat)
    requires k < |order|
  {
    Head(next, order[k]) || (k > 0 && order[k - 1] in next && next[order[k - 1]] == order[k])
  }

  /** The heads emitted are those before position `heads`, in document order. */
  ghost predicate HeadsEmitted(next: map<nat, nat>, order: seq<nat>, heads: nat) {
    && HeadsAscend(next, order)
    && (forall k :: 0 <= k < |order| && Head(next, order[k]) ==> order[k] < heads)
    && (forall i: nat :: i < heads && Head(next, i) ==> i in order)
  }

  /** The blocks emitted so far: every chain met is walked to its end, the last one perhaps not yet. */
  ghost predicate Walked(next: map<nat, nat>, n: nat, order: seq<nat>, heads: nat, open: bool) {
    && Distinct(order) && (forall k :: 0 <= k < |order| ==> order[k] < n)
    && (forall k :: 0 <= k < |order| ==> StartsOrFollows(next, order, k))
    && Followed(next, order, open) && HeadsEmitted(next, order, heads)
  }

  /** The next block of an open chain has not been emitted. */
  lemma NextIsNew(next: map<nat, nat>, n: nat, order: seq<nat>, heads: nat)
    requires Injective(next) && Walked(next, n, order, heads, true) && order != [] && order[|order| - 1] in next
    ensures next[order[|order| - 1]] !in order
  {
    var j := next[order[|order| - 1]];
    forall k | 0 <= k < |order| ensures order[k] != j { assert StartsOrFollows(next, order, k); }
  }

  lemma StartsOn(next: map<nat, nat>, order: seq<nat>, j: nat)
    requires forall k :: 0 <= k < |order| ==> StartsOrFollows(next, order, k)
    requires Head(next, j) || (order != [] && order[|order| - 1] in next && next[order[|order| - 1]] == j)
    ensures forall k :: 0 <= k < |order| + 1 ==> StartsOrFollows(next, order + [j], k)
  {
    var order' := order + [j];
    forall k | 0 <= k < |order'| ensures StartsOrFollows(next, order', k) {
      if k < |order| { assert StartsOrFollows(next, order, k); }
    }
  }

  lemma HeadsOn(next: map<nat, nat>, order: seq<nat>, heads: nat, j: nat)
    requires HeadsEmitted(next, order, heads)
    ensures Head(next, j) && j == heads ==> HeadsEmitted(next, order + [j], heads + 1)
    ensures !Head(next, j) ==> HeadsEmitted(next, order + [j], heads)
  {
    var order' := order + [j];
    assert order'[|order|] == j;
    assert forall i :: i in order' <==> i in order || i == j;
  }

  lemma StartChain(next: map<nat, nat>, n: nat, order: seq<nat>, i: nat)
    requires Walked(next, n, order, i, false) && Head(next, i) && i < n
    ensures Walked(next, n, order + [i], i + 1, true)
  {
    StartsOn(next, order, i);
    HeadsOn(next, order, i, i);
  }

  lemma ExtendChain(next: map<nat, nat>, n: nat, order: seq<nat>, heads: nat)
    requires Injective(next) && Inside(next, n) && Walked(next, n, order, heads, true)
    requires order != [] && order[|order| - 1] in next
    ensures var j := next[order[|order| - 1]];
            j !in order && |order| < n && Walked(next, n, order + [j], heads, true)
  {
    var j := next[order[|order| - 1]];
    NextIsNew(next, n, order, heads);
    StartsOn(next, order, j);
    HeadsOn(next, order, heads, j);
    TooMany(order + [j], n);
  }

  /** One chain, from its head to its end. */
  method FollowChain(next: map<nat, nat>, n: nat, before: seq<nat>, head: nat) returns (order: seq<nat>)
    requires Injective(next) && Inside(next, n) && Walked(next, n, before, head, false) && Head(next, head) && head < n
    ensures Walked(next, n, order, head + 1, false)
  {
    StartChain(next, n, before, head);
    order := before + [head];
    var cur := if head in next then Some(next[head]) else None;
    while cur.Some? && cur.value !in order
      invariant Walked(next, n, order, head + 1, true) && order != []
      invariant cur == if order[|order| - 1] in next then Some(next[order[|order| - 1]]) else None
      decreases n - |order|
    {
      ExtendChain(next, n, order, head + 1);
      order := order + [cur.value];
      cur := if cur.value in next then Some(next[cur.value]) else None;
    }
    if cur.Some? { NextIsNew(next, n, order, head + 1); }
  }

  /** Every chain, heads in document order. */
  method WalkAll(next: map<nat, nat>, n: nat) returns (order: seq<nat>)
    requires Injective(next) && Inside(next, n)
    ensures Walked(next, n, order, n, false)
  {
    order := [];
    for i := 0 to n
      invariant Walked(next, n, order, i, false)
    {
      if i !in order && i !in next.Values {
        order := FollowChain(next, n, order, i);
      }
    }
  }

  lemma UnreachedHasUnreached(next: map<nat, nat>, n: nat, order: seq<nat>, j: nat) returns (i: nat)
    requires Inside(next, n) && Walked(next, n, order, n, false) && j < n && j !in order
    ensures i < n && i !in order && i in next && next[i] == j
  {
    assert !Head(next, j);
    i :| i in next && next[i] == j;
    forall k | 0 <= k < |order| ensures order[k] != i {
      if k + 1 < |order| { assert order[k + 1] != j; }
    }
  }

  /** The blocks a finished walk does not reach go round in circles. */
  lemma UnreachedAreCyclic(next: map<nat, nat>, n: nat, order: seq<nat>)
    requires Inside(next, n) && Walked(next, n, order, n, false) && |order| < n
    ensures Cyclic(next)
  {
    var s := set i: nat | i < n && i !in order;
    forall j | j in s ensures PrecededIn(next, s, j) {
      var i := UnreachedHasUnreached(next, n, order, j);
      assert i in s;
    }
    assert ClosedUnderPredecessor(next, s);
    if s == {} {
      forall i: nat | i < n ensures i in order { assert i !in s; }
      TooFew(order, n);
    }
  }

  /** A finished walk that reached every block leaves no cycle. */
  lemma NotCyclic(next: map<nat, nat>, n: nat, order: seq<nat>)
    requires Inside(next, n) && Permutation(order, n) && Followed(next, order, false)
    ensures !Cyclic(next)
  {
    if Cyclic(next) {
      var s: set<nat> :| s != {} && ClosedUnderPredecessor(next, s);
      var j :| j in s;
      var i := PredecessorIn(next, s, j);
      PermutationHasAll(order, n, j);
      var k :| 0 <= k < |order| && order[k] == j;
      FollowedChainsEnd(next, order, n, s, k);
    }
  }

  /** The declared chains when they make sense, document order when they do not. */
  ghost predicate ReadsAsDeclared(blocks: seq<TextBlock>, order: seq<nat>) {
    if Consistent(blocks) then exists next: map<nat, nat> :: IsNext(blocks, next) && ReadsAlong(next, order, |blocks|)
    else order == DocumentOrder(|blocks|)
  }

  ghost predicate ReadsAlong(next: map<nat, nat>, order: seq<nat>, n: nat) {
    if Cyclic(next) then order == DocumentOrder(n) else FollowsChains(next, order)
  }

  /** The successor map of a list of blocks is one. */
  lemma SameNext(blocks: seq<TextBlock>, a: map<nat, nat>, b: map<nat, nat>)
    requires IsNext(blocks, a) && IsNext(blocks, b)
    ensures a == b
  {
    forall i | i in a ensures i in b && b[i] == a[i] { assert Continues(blocks, i, a[i]); }
    forall i | i in b ensures i in a { assert Continues(blocks, i, b[i]); }
  }

  /** The blocks' declarations leave no choice: there is one order to read them in. */
  lemma OneReadingOrder(blocks: seq<TextBlock>, p: seq<nat>, q: seq<nat>)
    requires Permutation(p, |blocks|) && ReadsAsDeclared(blocks, p)
    requires Permutation(q, |blocks|) && ReadsAsDeclared(blocks, q)
    ensures p == q
  {
    if Consistent(blocks) {
      var a: map<nat, nat> :| IsNext(blocks, a) && ReadsAlong(a, p, |blocks|);
      var b: map<nat, nat> :| IsNext(blocks, b) && ReadsAlong(b, q, |blocks|);
      SameNext(blocks, a, b);
      if !Cyclic(a) { OneOrderFollows(a, |blocks|, p, q); }
    }
  }

  lemma AloneIsInOrder(blocks: seq<TextBlock>)
    requires |blocks| < 2
    ensures ReadsAsDeclared(blocks, DocumentOrder(|blocks|))
  {
    if Consistent(blocks) {
      assert !Continues(blocks, 0, 0);
      assert forall i: nat, j: nat :: Continues(blocks, i, j) ==> i == 0 && j == 0;
      assert IsNext(blocks, map[]);
      NoChains(|blocks|);
      assert ReadsAlong(map[], DocumentOrder(|blocks|), |blocks|);
    }
  }

  lemma NoChains(n: nat)
    ensures FollowsChains(map[], DocumentOrder(n)) && !Cyclic(map[])
  {
    NotCyclic(map[], n, DocumentOrder(n));
  }

  /** `_blocks_in_reading_order`. */
  method BlocksInReadingOrder(blocks: seq<TextBlock>) returns (order: seq<nat>)
    ensures Permutation(order, |blocks|) && ReadsAsDeclared(blocks, order)
  {
    order := DocumentOrder(|blocks|);
    if |blocks| < 2 {
      AloneIsInOrder(blocks);
      return;
    }
    var index := IndexBlocks(blocks);
    if index.None? { return; }
    var links := CollectSuccessors(blocks, index.value);
    if links.None? { return; }
    var succ := links.value;
    if succ == map[] {
      NoChains(|blocks|);
      assert ReadsAlong(succ, order, |blocks|);
      return;
    }
    var ordered := WalkAll(succ, |blocks|);
    TooMany(ordered, |blocks|);
    if |ordered| != |blocks| {
      UnreachedAreCyclic(succ, |blocks|, ordered);
    } else {
      NotCyclic(succ, |blocks|, ordered);
      order := ordered;
    }
    assert ReadsAlong(succ, order, |blocks|);
  }
}
