/**
  The category forest: ancestor chains built upwards with a depth guard, and the
  recursive trees the SQL builds downwards.
 */
module Categories {
  import opened Base

  /** categories_parent_id_fk by id; every parent is itself a row (a foreign key). */
  type Parents = map<int, Option<int>>

  predicate ForeignKey(parents: Parents) {
    forall k | k in parents && parents[k].Some? :: parents[k].value in parents
  }

  const MAX_DEPTH: nat := 32

  /** Looking up a missing id yields no parent, as for a Go map. */
  function ParentOf(parents: Parents, k: int): Option<int> {
    if k in parents then parents[k] else None
  }

  /** The `n`-th ancestor; the category itself is its 0-th. */
  function Up(parents: Parents, k: int, n: nat): Option<int> {
    if n == 0 then Some(k)
    else match Up(parents, k, n - 1)
      case None => None
      case Some(c) => ParentOf(parents, c)
  }

  ghost predicate Acyclic(parents: Parents) {
    forall k, n: nat | k in parents && n > 0 :: Up(parents, k, n) != Some(k)
  }

  /** The upward chain of `k`: as many ancestors as exist, at most `depth` of them proper. */
  predicate IsChain(parents: Parents, k: int, depth: nat, chain: seq<int>) {
    && 1 <= |chain| <= depth + 1
    && (forall i | 0 <= i < |chain| :: Up(parents, k, i) == Some(chain[i]))
    && (|chain| == depth + 1 || Up(parents, k, |chain|) == None)
  }

  /**
    The chain in terms of the rows alone: it starts at `k`, each entry's row names the next entry as
    its parent, and it stops at an entry without a parent or after 32 parents.
   */
  lemma ChainFollowsParents(parents: Parents, k: int, chain: seq<int>)
    requires IsChain(parents, k, MAX_DEPTH, chain)
    ensures 1 <= |chain| <= 33 && chain[0] == k
    ensures forall i | 0 <= i < |chain| - 1 :: chain[i] in parents && parents[chain[i]] == Some(chain[i + 1])
    ensures |chain| < 33 ==> chain[|chain| - 1] !in parents || parents[chain[|chain| - 1]] == None
  {
    forall i | 0 <= i < |chain| - 1
      ensures chain[i] in parents && parents[chain[i]] == Some(chain[i + 1])
    {
      assert Up(parents, k, i) == Some(chain[i]) && Up(parents, k, i + 1) == Some(chain[i + 1]);
    }
    assert Up(parents, k, |chain| - 1) == Some(chain[|chain| - 1]);
  }

  /** internal/db/categories.go, the loop over the rows: the chain of every category, cut at the depth guard. */
  method AncestorMap(parents: Parents) returns (result: map<int, seq<int>>)
    ensures result.Keys == parents.Keys
    ensures forall k | k in result :: IsChain(parents, k, MAX_DEPTH, result[k])
  {
    result := map[];
    var todo: set<int> := parents.Keys;
    while todo != {}
      invariant todo <= parents.Keys && result.Keys == parents.Keys - todo
      invariant forall k | k in result :: IsChain(parents, k, MAX_DEPTH, result[k])
      decreases |todo|
    {
      var id: int := PickKey(todo);
      var chain := [id];
      var cur := parents[id];
      var depth := 0;
      while cur.Some? && depth < MAX_DEPTH
        invariant 0 <= depth <= MAX_DEPTH && |chain| == depth + 1
        invariant cur == Up(parents, id, depth + 1)
        invariant forall i | 0 <= i < |chain| :: Up(parents, id, i) == Some(chain[i])
        decreases MAX_DEPTH - depth
      {
        chain := chain + [cur.value];
        cur := ParentOf(parents, cur.value);
        depth := depth + 1;
      }
      result := result[id := chain];
      todo := todo - {id};
    }
  }

  // ---- the recursive query ----

  /** The rows the recursive member adds in round `n`: children of the rows of round `n - 1`. */
  function Round(parents: Parents, root: int, n: nat): set<int> {
    if n == 0 then {root}
    else set k | k in parents && parents[k].Some? && parents[k].value in Round(parents, root, n - 1)
  }

  /** The tree is what all the rounds collect. */
  ghost predicate InTree(parents: Parents, root: int, k: int) {
    exists n: nat :: k in Round(parents, root, n)
  }

  lemma {:induction false} UpSplit(parents: Parents, k: int, m: nat, n: nat)
    requires Up(parents, k, m).Some?
    ensures Up(parents, k, m + n) == Up(parents, Up(parents, k, m).value, n)
  {
    if n > 0 {
      UpSplit(parents, k, m, n - 1);
      assert m + n - 1 == m + (n - 1);
    }
  }

  lemma {:induction false} UpPrefix(parents: Parents, k: int, m: nat, n: nat)
    requires m <= n && Up(parents, k, n).Some?
    ensures Up(parents, k, m).Some?
    decreases n
  {
    if m < n {
      UpPrefix(parents, k, m, n - 1);
    }
  }

  /** A category enters the tree of `c` in round `n` exactly when `c` is its `n`-th ancestor. */
  lemma {:induction false} RoundIsUp(parents: Parents, c: int, k: int, n: nat)
    ensures k in Round(parents, c, n) <==> Up(parents, k, n) == Some(c)
    decreases n
  {
    if n > 0 {
      assert Up(parents, k, 1) == ParentOf(parents, k) by {
        assert Up(parents, k, 0) == Some(k);
      }
      var parent := ParentOf(parents, k);
      if parent.Some? {
        UpSplit(parents, k, 1, n - 1);
        RoundIsUp(parents, c, parent.value, n - 1);
      } else if Up(parents, k, n).Some? {
        UpPrefix(parents, k, 1, n);
      }
    }
  }

  /** On any parent graph, cycles included: an ancestor in the chain is a tree root reaching down to `k`. */
  lemma ChainIsInTree(parents: Parents, k: int, chain: seq<int>, c: int)
    requires IsChain(parents, k, MAX_DEPTH, chain)
    ensures |chain| <= MAX_DEPTH + 1
    ensures c in chain <==> exists n: nat | n <= MAX_DEPTH :: k in Round(parents, c, n)
    ensures c in chain ==> InTree(parents, c, k)
  {
    if c in chain {
      var i :| 0 <= i < |chain| && chain[i] == c;
      RoundIsUp(parents, c, k, i);
    }
    forall n: nat | n <= MAX_DEPTH && k in Round(parents, c, n) ensures c in chain {
      RoundIsUp(parents, c, k, n);
      if n >= |chain| {
        UpPrefix(parents, k, |chain|, n);
      }
      assert chain[n] == c;
    }
  }

  /** Up/down duality holds for a category exactly when the guard cuts off no ancestor that is not in the chain. */
  ghost predicate GuardCutsNothing(parents: Parents, k: int) {
    forall n: nat | n > MAX_DEPTH && Up(parents, k, n).Some? ::
      exists m: nat | m <= MAX_DEPTH :: Up(parents, k, m) == Up(parents, k, n)
  }

  lemma DualityExactly(parents: Parents, k: int, chain: seq<int>)
    requires IsChain(parents, k, MAX_DEPTH, chain)
    ensures (forall c :: c in chain <==> InTree(parents, c, k)) <==> GuardCutsNothing(parents, k)
  {
    if GuardCutsNothing(parents, k) {
      forall c ensures c in chain <==> InTree(parents, c, k) {
        ChainIsInTree(parents, k, chain, c);
        if InTree(parents, c, k) {
          var n: nat :| k in Round(parents, c, n);
          RoundIsUp(parents, c, k, n);
          if n > MAX_DEPTH {
            var m: nat :| m <= MAX_DEPTH && Up(parents, k, m) == Up(parents, k, n);
            RoundIsUp(parents, c, k, m);
          }
        }
      }
    }
    if forall c :: c in chain <==> InTree(parents, c, k) {
      forall n: nat | n > MAX_DEPTH && Up(parents, k, n).Some?
        ensures exists m: nat | m <= MAX_DEPTH :: Up(parents, k, m) == Up(parents, k, n)
      {
        var c := Up(parents, k, n).value;
        RoundIsUp(parents, c, k, n);
        assert InTree(parents, c, k);
        assert c in chain;
        var i :| 0 <= i < |chain| && chain[i] == c;
        assert Up(parents, k, i) == Some(c);
      }
    }
  }

  /** When the walk from `k` ends within 32 proper ancestors, the two directions agree on every category. */
  lemma Duality(parents: Parents, k: int, chain: seq<int>, c: int)
    requires IsChain(parents, k, MAX_DEPTH, chain) && Up(parents, k, MAX_DEPTH + 1) == None
    ensures c in chain <==> InTree(parents, c, k)
    ensures ParentOf(parents, chain[|chain| - 1]) == None
    ensures forall i, j | 0 <= i < j < |chain| :: chain[i] != chain[j]
  {
    forall n: nat | n > MAX_DEPTH && Up(parents, k, n).Some? ensures false {
      UpPrefix(parents, k, MAX_DEPTH + 1, n);
    }
    assert GuardCutsNothing(parents, k);
    DualityExactly(parents, k, chain);
    if |chain| == MAX_DEPTH + 1 {
      assert Up(parents, k, |chain|) == None;
    }
    forall i, j | 0 <= i < j < |chain| ensures chain[i] != chain[j] {
      if chain[i] == chain[j] {
        RepeatNeverEnds(parents, k, i, j, |chain|);
      }
    }
  }

  /** A walk that meets a category twice goes on for ever. */
  lemma {:induction false} RepeatNeverEnds(parents: Parents, k: int, i: nat, j: nat, n: nat)
    requires i < j && Up(parents, k, i).Some? && Up(parents, k, j) == Up(parents, k, i)
    ensures Up(parents, k, n).Some?
    decreases n
  {
    if n <= j {
      UpPrefix(parents, k, n, j);
    } else {
      RepeatNeverEnds(parents, k, i, j, n - (j - i));
      UpSplit(parents, k, j, n - j);
      UpSplit(parents, k, i, n - j);
    }
  }

  // ---- the query ends exactly on acyclic graphs ----

  function Walk(parents: Parents, k: int, n: nat): set<int> {
    if n == 0 then {} else Walk(parents, k, n - 1) + match Up(parents, k, n - 1) case None => {} case Some(c) => {c}
  }

  lemma {:induction false} WalkHas(parents: Parents, k: int, n: nat, m: nat, c: int)
    requires m < n && Up(parents, k, m) == Some(c)
    ensures c in Walk(parents, k, n)
  {
    if m < n - 1 {
      WalkHas(parents, k, n - 1, m, c);
    }
  }

  lemma {:induction false} WalkedAt(parents: Parents, k: int, n: nat, c: int) returns (m: nat)
    requires c in Walk(parents, k, n)
    ensures m < n && Up(parents, k, m) == Some(c)
  {
    m := n - 1;
    if Up(parents, k, m) != Some(c) {
      m := WalkedAt(parents, k, n - 1, c);
    }
  }

  lemma WalkMembers(parents: Parents, k: int, n: nat, c: int)
    ensures c in Walk(parents, k, n) <==> exists m: nat | m < n :: Up(parents, k, m) == Some(c)
  {
    if c in Walk(parents, k, n) {
      var _ := WalkedAt(parents, k, n, c);
    }
    if m: nat :| m < n && Up(parents, k, m) == Some(c) {
      WalkHas(parents, k, n, m, c);
    }
  }

  lemma {:induction false} WalkStaysInside(parents: Parents, k: int, n: nat)
    requires ForeignKey(parents) && k in parents
    ensures Up(parents, k, n).Some? ==> Up(parents, k, n).value in parents
    ensures Walk(parents, k, n) <= parents.Keys
  {
    if n > 0 {
      WalkStaysInside(parents, k, n - 1);
    }
  }

  /** On an acyclic graph a walk never meets a category twice, so it ends within the number of categories. */
  lemma {:induction false} WalkIsDuplicateFree(parents: Parents, k: int, n: nat)
    requires Acyclic(parents) && ForeignKey(parents) && k in parents
    requires n > 0 ==> Up(parents, k, n - 1).Some?
    ensures |Walk(parents, k, n)| == n
  {
    if n > 0 {
      if n > 1 {
        UpPrefix(parents, k, n - 2, n - 1);
      }
      WalkIsDuplicateFree(parents, k, n - 1);
      var c := Up(parents, k, n - 1).value;
      if c in Walk(parents, k, n - 1) {
        WalkMembers(parents, k, n - 1, c);
        var m: nat :| m < n - 1 && Up(parents, k, m) == Some(c);
        WalkStaysInside(parents, k, m);
        UpSplit(parents, k, m, n - 1 - m);
        assert false;
      }
    }
  }

  lemma AcyclicWalksEnd(parents: Parents, k: int)
    requires Acyclic(parents) && ForeignKey(parents) && k in parents
    ensures Up(parents, k, |parents|) == None
  {
    if Up(parents, k, |parents|).Some? {
      WalkIsDuplicateFree(parents, k, |parents| + 1);
      WalkStaysInside(parents, k, |parents| + 1);
      SubsetSize(Walk(parents, k, |parents| + 1), parents.Keys);
      assert false;
    }
  }

  /** The recursive query ends for every root of the table iff the parent graph has no cycle. */
  lemma QueryEndsIffAcyclic(parents: Parents)
    requires ForeignKey(parents)
    ensures (forall c | c in parents :: Round(parents, c, |parents|) == {}) <==> Acyclic(parents)
  {
    if Acyclic(parents) {
      forall c | c in parents ensures Round(parents, c, |parents|) == {} {
        forall k | k in Round(parents, c, |parents|) ensures false {
          RoundIsUp(parents, c, k, |parents|);
          RoundInside(parents, c, k, |parents|);
          AcyclicWalksEnd(parents, k);
        }
      }
    }
    if !Acyclic(parents) {
      var k, n: nat :| k in parents && n > 0 && Up(parents, k, n) == Some(k);
      RepeatNeverEnds(parents, k, 0, n, |parents|);
      WalkStaysInside(parents, k, |parents|);
      var c := Up(parents, k, |parents|).value;
      RoundIsUp(parents, c, k, |parents|);
      assert c in parents && Round(parents, c, |parents|) != {};
    }
  }

  lemma RoundInside(parents: Parents, c: int, k: int, n: nat)
    requires c in parents && k in Round(parents, c, n)
    ensures k in parents
  {
  }

  /** What the recursive query collects: the rounds up to one past the number of categories. */
  function Tree(parents: Parents, root: int, n: nat): set<int> {
    if n == 0 then {root} else Tree(parents, root, n - 1) + Round(parents, root, n)
  }

  lemma {:induction false} TreeMembers(parents: Parents, root: int, n: nat, k: int)
    ensures k in Tree(parents, root, n) <==> exists m: nat | m <= n :: k in Round(parents, root, m)
  {
    if n == 0 {
      assert k in Round(parents, root, 0) <==> k == root;
    } else {
      TreeMembers(parents, root, n - 1, k);
      if k in Tree(parents, root, n) && k !in Tree(parents, root, n - 1) {
        assert k in Round(parents, root, n);
      }
    }
  }

  lemma {:induction false} RoundsStayEmpty(parents: Parents, root: int, m: nat, n: nat)
    requires m <= n && Round(parents, root, m) == {}
    ensures Round(parents, root, n) == {}
    decreases n
  {
    if m < n {
      RoundsStayEmpty(parents, root, m, n - 1);
    }
  }

  /** On an acyclic forest the query has collected the whole tree when its rounds run dry. */
  lemma TreeIsComplete(parents: Parents, root: int, k: int)
    requires ForeignKey(parents) && Acyclic(parents) && root in parents
    ensures k in Tree(parents, root, |parents|) <==> InTree(parents, root, k)
  {
    TreeMembers(parents, root, |parents|, k);
    QueryEndsIffAcyclic(parents);
    if InTree(parents, root, k) {
      var n: nat :| k in Round(parents, root, n);
      if n > |parents| {
        RoundsStayEmpty(parents, root, |parents|, n);
        assert false;
      }
      assert exists m: nat | m <= |parents| :: k in Round(parents, root, m);
    }
  }
}
