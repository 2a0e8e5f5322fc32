/**
 * The card-token validator of the tree-search prototype and the bookkeeping of
 * its Monte Carlo tree searcher: the visit counts `N`, the total rewards `Q`
 * and the expanded `children` of every node.
 */
module MctsPoker {
  import opened Outcomes
  import opened Strings
  import opened Deck

  /** The reply for a token whose last character is not a suit letter. */
  const SUIT_INVALID: string := "Suit Type Invalid"
  /** The reply for a token whose suit is valid but whose rank is not. */
  const NUMBER_INVALID: string := "Card Number Invalid"

  /**
   * `normalize_notation`: the lower-cased token when it is a rank string
   * followed by a suit letter, and otherwise a message saying which part is
   * wrong, the suit being checked first. Indexing the last character of the
   * empty string raises IndexError.
   */
  function NormalizeNotation(card: string): (r: Result<string>)
    ensures r == Err(IndexError) <==> card == []
    ensures r == Ok(SUIT_INVALID) <==> card != [] && LowerChar(card[|card| - 1]) !in DECK_SUITS
    ensures r == Ok(NUMBER_INVALID) <==>
      card != [] && LowerChar(card[|card| - 1]) in DECK_SUITS && (|card| != 2 || LowerChar(card[0]) !in DECK_RANKS)
    ensures r.Ok? && IsDeckToken(r.value) <==> |card| == 2 && IsDeckToken(Lower(card))
    ensures r.Ok? && IsDeckToken(r.value) ==> r.value == Lower(card)
  {
    var lowered := Lower(card);
    if lowered == [] then Err(IndexError)
    else if lowered[|lowered| - 1] !in DECK_SUITS then Ok(SUIT_INVALID)
    else if |lowered| != 2 || lowered[0] !in DECK_RANKS then Ok(NUMBER_INVALID)
    else
      assert IsDeckToken(lowered);
      Ok(lowered)
  }

  lemma LowerCharIdempotent(c: char)
    ensures LowerChar(LowerChar(c)) == LowerChar(c)
  {
  }

  /** Upper and lower case spell the same card: normalising ignores case. */
  lemma NormalizeIgnoresCase(card: string)
    ensures NormalizeNotation(Lower(card)) == NormalizeNotation(card)
  {
    forall i | 0 <= i < |card| ensures Lower(Lower(card))[i] == Lower(card)[i] {
      LowerCharIdempotent(card[i]);
    }
    assert Lower(Lower(card)) == Lower(card);
  }

  /** Every deck token is already normal, so normalising twice changes nothing. */
  lemma NormalizeFixesDeckTokens(t: string)
    requires IsDeckToken(t)
    ensures NormalizeNotation(t) == Ok(t)
  {
    assert Lower(t) == t by {
      assert LowerChar(t[0]) == t[0] && LowerChar(t[1]) == t[1];
    }
  }

  /** Normalising is idempotent: a normal token stays as it is. */
  lemma NormalizeIdempotent(card: string)
    requires NormalizeNotation(card).Ok? && IsDeckToken(NormalizeNotation(card).value)
    ensures NormalizeNotation(NormalizeNotation(card).value) == NormalizeNotation(card)
  {
    NormalizeFixesDeckTokens(NormalizeNotation(card).value);
  }

  /** The `defaultdict(int)` reading of a visit count: 0 for a node never counted. */
  function Visits<Node>(n: map<Node, nat>, x: Node): nat {
    if x in n then n[x] else 0
  }

  /** The `defaultdict(int)` reading of a total reward: 0 for a node never rewarded. */
  function Reward<Node>(q: map<Node, real>, x: Node): real {
    if x in q then q[x] else 0.0
  }

  /**
   * The counts and rewards after backing `reward` up `path`: the last node gets
   * `reward`, the one before it `1 - reward`, and so on towards the root.
   */
  function Backed<Node>(n: map<Node, nat>, q: map<Node, real>, path: seq<Node>, reward: real): (map<Node, nat>, map<Node, real>)
    decreases |path|
  {
    if path == [] then (n, q)
    else
      var x := path[|path| - 1];
      Backed(n[x := Visits(n, x) + 1], q[x := Reward(q, x) + reward], path[..|path| - 1], 1.0 - reward)
  }

  /** The reward the node at position `j` of `path` receives when the leaf receives `reward`. */
  function RewardAt<Node>(path: seq<Node>, j: nat, reward: real): real
    requires j < |path|
  {
    if (|path| - 1 - j) % 2 == 0 then reward else 1.0 - reward
  }

  /** The rewards `x` receives from the first `k` positions of `path`. */
  function RewardSum<Node(==)>(path: seq<Node>, x: Node, reward: real, k: nat): real
    requires k <= |path|
  {
    if k == 0 then 0.0
    else RewardSum(path, x, reward, k - 1) + (if path[k - 1] == x then RewardAt(path, k - 1, reward) else 0.0)
  }

  /** Dropping the leaf flips the parity of every other position and so the reward it gets. */
  lemma {:induction false} RewardSumInit<Node>(path: seq<Node>, x: Node, reward: real, k: nat)
    requires path != [] && k < |path|
    ensures RewardSum(path[..|path| - 1], x, 1.0 - reward, k) == RewardSum(path, x, reward, k)
  {
    if k > 0 {
      RewardSumInit(path, x, reward, k - 1);
      var init := path[..|path| - 1];
      assert init[k - 1] == path[k - 1];
      assert RewardAt(init, k - 1, 1.0 - reward) == RewardAt(path, k - 1, reward);
    }
  }

  /**
   * Backing up a path raises each node's count by the number of its
   * occurrences on the path.
   */
  lemma {:induction false} BackedVisits<Node>(n: map<Node, nat>, q: map<Node, real>, path: seq<Node>, reward: real)
    ensures forall x :: Visits(Backed(n, q, path, reward).0, x) == Visits(n, x) + multiset(path)[x]
    decreases |path|
  {
    if path != [] {
      var x, init := path[|path| - 1], path[..|path| - 1];
      var n1, q1 := n[x := Visits(n, x) + 1], q[x := Reward(q, x) + reward];
      BackedVisits(n1, q1, init, 1.0 - reward);
      var after := Backed(n1, q1, init, 1.0 - reward).0;
      assert Backed(n, q, path, reward).0 == after;
      assert path == init + [x];
      assert multiset(path) == multiset(init) + multiset{x};
      forall y ensures Visits(after, y) == Visits(n, y) + multiset(path)[y] {
        assert Visits(after, y) == Visits(n1, y) + multiset(init)[y];
      }
    }
  }

  /** Backing up a path raises each node's reward by what its positions on the path receive. */
  lemma {:induction false} BackedRewards<Node>(n: map<Node, nat>, q: map<Node, real>, path: seq<Node>, reward: real)
    ensures forall x :: Reward(Backed(n, q, path, reward).1, x) == Reward(q, x) + RewardSum(path, x, reward, |path|)
    decreases |path|
  {
    if path != [] {
      var x, init := path[|path| - 1], path[..|path| - 1];
      BackedRewards(n[x := Visits(n, x) + 1], q[x := Reward(q, x) + reward], init, 1.0 - reward);
      forall y ensures Reward(Backed(n, q, path, reward).1, y) == Reward(q, y) + RewardSum(path, y, reward, |path|) {
        RewardSumInit(path, y, reward, |init|);
      }
    }
  }

  /** Backing up a path adds exactly the path's nodes to the counts and to the rewards. */
  lemma {:induction false} BackedKeys<Node>(n: map<Node, nat>, q: map<Node, real>, path: seq<Node>, reward: real)
    ensures Backed(n, q, path, reward).0.Keys == n.Keys + set x | x in path
    ensures Backed(n, q, path, reward).1.Keys == q.Keys + set x | x in path
    decreases |path|
  {
    if path != [] {
      var x, init := path[|path| - 1], path[..|path| - 1];
      BackedKeys(n[x := Visits(n, x) + 1], q[x := Reward(q, x) + reward], init, 1.0 - reward);
      assert path == init + [x];
      assert (set y | y in path) == (set y | y in init) + {x};
    }
  }

  /** Expanding `node` with the children `kids` unless it already has an entry. */
  function Expanded<Node>(children: map<Node, set<Node>>, node: Node, kids: set<Node>): map<Node, set<Node>> {
    if node in children then children else children[node := kids]
  }

  /**
   * After expanding, the node has an entry; an existing entry is kept; every
   * other entry is untouched; and expanding again changes nothing.
   */
  lemma ExpandedEffect<Node>(children: map<Node, set<Node>>, node: Node, kids: set<Node>)
    ensures node in Expanded(children, node, kids)
    ensures Expanded(children, node, kids)[node] == if node in children then children[node] else kids
    ensures forall m :: m != node ==> (m in Expanded(children, node, kids) <==> m in children)
    ensures forall m :: m != node && m in children ==> Expanded(children, node, kids)[m] == children[m]
    ensures Expanded(Expanded(children, node, kids), node, kids) == Expanded(children, node, kids)
  {
  }

  /** The score `choose` ranks a child by: its average reward, or minus infinity (`None`) if never visited. */
  function Score<Node>(n: map<Node, nat>, q: map<Node, real>, x: Node): Option<real> {
    if Visits(n, x) == 0 then None else Some(Reward(q, x) / Visits(n, x) as real)
  }

  /** The order of scores, minus infinity below every number. */
  predicate ScoreLe(a: Option<real>, b: Option<real>) {
    a.None? || (b.Some? && a.value <= b.value)
  }

  /** The searcher's bookkeeping: what `MCTS` keeps in its dictionaries. */
  class Mcts<Node(==)> {
    /** The total reward of each node. */
    var Q: map<Node, real>
    /** The visit count of each node. */
    var N: map<Node, nat>
    /** The children of each expanded node. */
    var children: map<Node, set<Node>>
    var explorationWeight: real

    /** `MCTS(exploration_weight)`: nothing visited, nothing expanded. */
    constructor (explorationWeight0: real)
      ensures Q == map[] && N == map[] && children == map[]
      ensures explorationWeight == explorationWeight0
    {
      Q, N, children := map[], map[], map[];
      explorationWeight := explorationWeight0;
    }

    /**
     * `_expand(node)`: records the node's children, which `findChildren`
     * computes, unless the node is already expanded.
     */
    method Expand(node: Node, findChildren: Node -> set<Node>)
      modifies this
      ensures children == Expanded(old(children), node, findChildren(node))
      ensures Q == old(Q) && N == old(N) && explorationWeight == old(explorationWeight)
    {
      if node in children {
        return;
      }
      children := children[node := findChildren(node)];
    }

    /**
     * `_backpropagate(path, reward)`: walking from the leaf to the root, each
     * node is visited once more and receives the reward, which flips to
     * `1 - reward` from one node to the next.
     */
    method Backpropagate(path: seq<Node>, reward: real)
      modifies this
      ensures (N, Q) == Backed(old(N), old(Q), path, reward)
      ensures forall x :: Visits(N, x) == Visits(old(N), x) + multiset(path)[x]
      ensures forall x :: Reward(Q, x) == Reward(old(Q), x) + RewardSum(path, x, reward, |path|)
      ensures N.Keys == old(N.Keys) + (set x | x in path) && Q.Keys == old(Q.Keys) + (set x | x in path)
      ensures children == old(children) && explorationWeight == old(explorationWeight)
    {
      var i, r := |path|, reward;
      assert path[..i] == path;
      while i > 0
        invariant 0 <= i <= |path|
        invariant Backed(N, Q, path[..i], r) == Backed(old(N), old(Q), path, reward)
        invariant children == old(children) && explorationWeight == old(explorationWeight)
      {
        var node := path[i - 1];
        assert path[..i][..i - 1] == path[..i - 1];
        N := N[node := Visits(N, node) + 1];
        Q := Q[node := Reward(Q, node) + r];
        r := 1.0 - r;
        i := i - 1;
      }
      assert path[..0] == [];
      BackedVisits(old(N), old(Q), path, reward);
      BackedRewards(old(N), old(Q), path, reward);
      BackedKeys(old(N), old(Q), path, reward);
    }

    /**
     * `p` leads from parent to child through nodes that are expanded, have
     * children, and whose children are all expanded: nodes `_select` passes
     * through without stopping.
     */
    predicate ExpandedChain(p: seq<Node>)
      reads this
    {
      (forall i :: 0 <= i < |p| ==> p[i] in children && children[p[i]] != {} && children[p[i]] <= children.Keys) &&
      (forall i :: 0 <= i < |p| - 1 ==> p[i + 1] in children[p[i]])
    }

    /**
     * `_select(node)`: from `node`, descends through expanded nodes until one
     * that is unexpanded or has no children, or until an expanded node has an
     * unexpanded child, which then ends the path. Which unexpanded child is
     * taken, and which child the UCT rule descends to, is left open. The
     * source loops until it finds such a node; `fuel` bounds the number of
     * descents, and `None` means it ran out, which happens only after passing
     * `fuel + 1` expanded nodes whose children are all expanded.
     */
    method Select(node: Node, fuel: nat) returns (r: Option<seq<Node>>)
      ensures r.Some? ==> |r.value| >= 1 && r.value[0] == node
      ensures r.Some? ==> forall i :: 0 <= i < |r.value| - 1 ==>
        r.value[i] in children && r.value[i + 1] in children[r.value[i]]
      ensures r.Some? ==> forall i :: 0 <= i < |r.value| - 2 ==> children[r.value[i]] <= children.Keys
      ensures r.Some? ==> r.value[|r.value| - 1] !in children || children[r.value[|r.value| - 1]] == {}
      ensures r.Some? && |r.value| >= 2 && r.value[|r.value| - 1] in children ==>
        children[r.value[|r.value| - 2]] <= children.Keys
      ensures r.None? ==> exists p :: |p| == fuel + 1 && p[0] == node && ExpandedChain(p)
      ensures node !in children || children[node] == {} || children[node] - children.Keys != {} ==> r.Some?
    {
      var path: seq<Node> := [];
      var current := node;
      var left: nat := fuel;
      while true
        invariant path == [] ==> current == node
        invariant path != [] ==> path[0] == node
        invariant path != [] ==> path[|path| - 1] in children && current in children[path[|path| - 1]]
        invariant |path| + left == fuel
        invariant ExpandedChain(path)
        decreases left
      {
        path := path + [current];
        if current !in children || children[current] == {} {
          return Some(path);
        }
        var unexplored := children[current] - children.Keys;
        if unexplored != {} {
          var n :| n in unexplored;
          path := path + [n];
          return Some(path);
        }
        forall x | x in children[current] ensures x in children.Keys {
          assert x !in unexplored;
        }
        assert ExpandedChain(path);
        if left == 0 {
          return None;
        }
        current :| current in children[path[|path| - 1]];
        left := left - 1;
      }
    }

    /**
     * `choose(node)`: a terminal node raises RuntimeError; an unexpanded node
     * yields the random child `findRandomChild` gives; otherwise a child of the
     * best score, where `max` of no children raises ValueError. Reading a score
     * enters the child into the `defaultdict` `N` (and, for a visited child, into
     * `Q`) with the default 0.
     */
    method Choose(node: Node, isTerminal: Node -> bool, findRandomChild: Node -> Node) returns (r: Result<Node>)
      modifies this
      ensures isTerminal(node) ==> r == Err(RuntimeError) && N == old(N) && Q == old(Q)
      ensures !isTerminal(node) && node !in children ==> r == Ok(findRandomChild(node))
      ensures !isTerminal(node) && node in children && children[node] == {} ==> r == Err(ValueError)
      ensures !isTerminal(node) && node in children && children[node] != {} ==>
        r.Ok? && r.value in children[node] &&
        forall c :: c in children[node] ==> ScoreLe(Score(old(N), old(Q), c), Score(old(N), old(Q), r.value))
      ensures forall x :: Visits(N, x) == Visits(old(N), x) && Reward(Q, x) == Reward(old(Q), x)
      ensures old(N.Keys) <= N.Keys && old(Q.Keys) <= Q.Keys
      ensures children == old(children) && explorationWeight == old(explorationWeight)
    {
      if isTerminal(node) {
        return Err(RuntimeError);
      }
      if node !in children {
        return Ok(findRandomChild(node));
      }
      var todo := children[node];
      if todo == {} {
        return Err(ValueError);
      }
      var best :| best in todo;
      var bestScore := Score(N, Q, best);
      while todo != {}
        invariant node in children
        invariant todo <= children[node] && best in children[node]
        invariant bestScore == Score(old(N), old(Q), best)
        invariant forall c :: c in children[node] && c !in todo ==> ScoreLe(Score(old(N), old(Q), c), bestScore)
        invariant forall x :: Visits(N, x) == Visits(old(N), x) && Reward(Q, x) == Reward(old(Q), x)
        invariant old(N.Keys) <= N.Keys && old(Q.Keys) <= Q.Keys
        invariant children == old(children) && explorationWeight == old(explorationWeight)
        decreases |todo|
      {
        var c :| c in todo;
        var s: Option<real>;
        if Visits(N, c) == 0 {
          N := N[c := 0];
          s := None;
        } else {
          if c !in Q {
            Q := Q[c := 0.0];
          }
          s := Some(Reward(Q, c) / Visits(N, c) as real);
        }
        if !ScoreLe(s, bestScore) {
          best, bestScore := c, s;
        }
        todo := todo - {c};
      }
      return Ok(best);
    }
  }
}
