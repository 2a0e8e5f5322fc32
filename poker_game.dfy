/**
 * The string-based hand ranker of the first prototype: a hand is a list of
 * tokens such as "Kc" or "kc", classified into one of nine categories and
 * compared as a `(category, key_rank)` tuple.
 */
module OldPokerGame {
  import opened Outcomes
  import opened Strings
  import opened Deck
  import opened Lists

  const RANKS: string := "23456789TJQKA"

  /** `rank_values`: each rank character, lowered, to its position in RANKS. */
  const RANK_VALUES: map<char, nat> := map[
    '2' := 0, '3' := 1, '4' := 2, '5' := 3, '6' := 4, '7' := 5, '8' := 6,
    '9' := 7, 't' := 8, 'j' := 9, 'q' := 10, 'k' := 11, 'a' := 12]

  /** RANK_VALUES is `{rank.lower(): i for i, rank in enumerate(RANKS)}`. */
  lemma RankValuesTable(c: char)
    ensures c in RANK_VALUES <==> exists i :: 0 <= i < 13 && LowerChar(RANKS[i]) == c
    ensures c in RANK_VALUES ==> RANK_VALUES[c] < 13 && LowerChar(RANKS[RANK_VALUES[c]]) == c
  {
    if c in RANK_VALUES {
      assert LowerChar(RANKS[RANK_VALUES[c]]) == c;
    }
  }

  /** A `(category, key_rank)` tuple. */
  datatype HandRank = HandRank(category: int, key: int)

  /** Python's `a > b` on two-element tuples: lexicographic. */
  predicate Greater(a: HandRank, b: HandRank) {
    a.category > b.category || (a.category == b.category && a.key > b.key)
  }

  /** The distinct elements of `xs` in order of first occurrence: the keys of `Counter(xs)`. */
  function Dedup<T(==,!new)>(xs: seq<T>): (r: seq<T>)
    ensures forall x :: x in r <==> x in xs
    ensures NoDup(r)
  {
    if xs == [] then []
    else
      var d := Dedup(xs[..|xs| - 1]);
      var last := xs[|xs| - 1];
      assert forall x :: x in xs <==> x in xs[..|xs| - 1] || x == last;
      if last in d then d else d + [last]
  }

  /** `c in counts.values()`, for a Counter with keys `keys` and counts `counts`. */
  predicate HasCount(keys: seq<nat>, counts: multiset<nat>, c: nat) {
    exists i :: 0 <= i < |keys| && counts[keys[i]] == c
  }

  /** The first key, in Counter order, whose count is `c`. */
  function FirstWithCount(keys: seq<nat>, counts: multiset<nat>, c: nat): (r: nat)
    requires HasCount(keys, counts, c)
    ensures r in keys && counts[r] == c
    ensures exists i :: 0 <= i < |keys| && keys[i] == r && forall j :: 0 <= j < i ==> counts[keys[j]] != c
  {
    if counts[keys[0]] == c then keys[0]
    else
      var r := FirstWithCount(keys[1..], counts, c);
      var i :| 0 <= i < |keys[1..]| && keys[1..][i] == r && forall j :: 0 <= j < i ==> counts[keys[1..][j]] != c;
      assert keys[i + 1] == r;
      r
  }

  /** The keys, in Counter order, whose count is `c`. */
  function AllWithCount(keys: seq<nat>, counts: multiset<nat>, c: nat): (r: seq<nat>)
    ensures forall x :: x in r <==> x in keys && counts[x] == c
  {
    if keys == [] then []
    else
      var rest := AllWithCount(keys[1..], counts, c);
      assert forall x :: x in keys <==> x == keys[0] || x in keys[1..];
      if counts[keys[0]] == c then [keys[0]] + rest else rest
  }

  /**
   * Every token has a rank and a suit character and the rank, lowered, is a
   * key of RANK_VALUES.
   */
  predicate ValidHand(hand: seq<string>) {
    forall i :: 0 <= i < |hand| ==> |hand[i]| >= 2 && LowerChar(hand[i][0]) in RANK_VALUES
  }

  /** The rank value of each token. */
  function HandValues(hand: seq<string>): (r: seq<nat>)
    requires ValidHand(hand)
    ensures |r| == |hand| && forall i :: 0 <= i < |r| ==> r[i] < 13
  {
    seq(|hand|, i requires 0 <= i < |hand| && ValidHand(hand) => RANK_VALUES[LowerChar(hand[i][0])])
  }

  /** The suit character of each token. */
  function HandSuits(hand: seq<string>): seq<char>
    requires ValidHand(hand)
  {
    seq(|hand|, i requires 0 <= i < |hand| && ValidHand(hand) => hand[i][1])
  }

  /** `straight`: five distinct ranks spanning exactly five values. */
  predicate IsStraight(values: seq<nat>)
    requires values != []
  {
    |Dedup(values)| == 5 && MaxOf(values) - MinOf(values) == 4
  }

  /** `flush`: every token has the same suit character. */
  predicate IsFlush(suits: seq<char>) {
    |Dedup(suits)| == 1
  }

  /** The branches of `get_hand_rank`, in the order the source tries them. */
  function Classify(values: seq<nat>, suits: seq<char>): (r: HandRank)
    requires values != []
    ensures 1 <= r.category <= 9
    ensures r.key in values
  {
    var keys := Dedup(values);
    var counts := multiset(values);
    var highest := MaxOf(values);
    var straight := IsStraight(values);
    var flush := IsFlush(suits);
    if straight && flush then HandRank(9, highest)
    else if |keys| == 2 && HasCount(keys, counts, 4) then HandRank(8, FirstWithCount(keys, counts, 4))
    else if |keys| == 2 && HasCount(keys, counts, 3) then HandRank(7, FirstWithCount(keys, counts, 3))
    else if flush then HandRank(6, highest)
    else if straight then HandRank(5, highest)
    else ClassifyLow(values)
  }

  /** The last four branches: three of a kind, two pair, one pair, high card. */
  function ClassifyLow(values: seq<nat>): (r: HandRank)
    requires values != []
    ensures 1 <= r.category <= 4
    ensures r.key in values
  {
    var keys := Dedup(values);
    var counts := multiset(values);
    if HasCount(keys, counts, 3) then HandRank(4, FirstWithCount(keys, counts, 3))
    else if |keys| == 3 && HasCount(keys, counts, 2) then
      var pairs := AllWithCount(keys, counts, 2);
      assert pairs != [] by {
        var i :| 0 <= i < |keys| && counts[keys[i]] == 2;
        assert keys[i] in pairs;
      }
      HandRank(3, MaxOf(pairs))
    else if |keys| == 4 && HasCount(keys, counts, 2) then HandRank(2, FirstWithCount(keys, counts, 2))
    else HandRank(1, MaxOf(values))
  }

  /**
   * `get_hand_rank(hand)`. A token shorter than two characters raises
   * IndexError; then a rank missing from RANK_VALUES raises KeyError; then an
   * empty hand raises IndexError (`sorted_ranks[0]`).
   */
  function GetHandRank(hand: seq<string>): (r: Result<HandRank>)
    ensures r == Err(IndexError) <==> hand == [] || exists i :: 0 <= i < |hand| && |hand[i]| < 2
    ensures r == Err(KeyError) <==>
      (forall i :: 0 <= i < |hand| ==> |hand[i]| >= 2) &&
      exists i :: 0 <= i < |hand| && LowerChar(hand[i][0]) !in RANK_VALUES
    ensures r.Ok? <==> hand != [] && ValidHand(hand)
    ensures r.Ok? ==> 1 <= r.value.category <= 9 && 0 <= r.value.key < 13
  {
    if exists i :: 0 <= i < |hand| && |hand[i]| < 2 then Err(IndexError)
    else if exists i :: 0 <= i < |hand| && LowerChar(hand[i][0]) !in RANK_VALUES then Err(KeyError)
    else if hand == [] then Err(IndexError)
    else
      var values := HandValues(hand);
      var r := Classify(values, HandSuits(hand));
      assert r.key < 13 by {
        var i :| 0 <= i < |values| && values[i] == r.key;
      }
      Ok(r)
  }

  /** A ranked hand is classified from its rank values and suit characters. */
  lemma RankIsClassify(hand: seq<string>)
    requires GetHandRank(hand).Ok?
    ensures hand != [] && ValidHand(hand)
    ensures GetHandRank(hand).value == Classify(HandValues(hand), HandSuits(hand))
  {
  }

  /** Only the two straight branches of the classifier give category 5 or 9. */
  lemma ClassifyStraight(values: seq<nat>, suits: seq<char>)
    requires values != []
    requires Classify(values, suits).category == 5 || Classify(values, suits).category == 9
    ensures IsStraight(values) && Classify(values, suits).key == MaxOf(values)
  {
  }

  /** Only a straight (category 5 or 9) needs five distinct ranks spanning five values. */
  lemma StraightShape(hand: seq<string>)
    requires GetHandRank(hand).Ok?
    requires GetHandRank(hand).value.category == 5 || GetHandRank(hand).value.category == 9
    ensures |Dedup(HandValues(hand))| == 5
    ensures MaxOf(HandValues(hand)) - MinOf(HandValues(hand)) == 4
    ensures GetHandRank(hand).value.key == MaxOf(HandValues(hand))
  {
    RankIsClassify(hand);
    ClassifyStraight(HandValues(hand), HandSuits(hand));
  }

  /** A hand holding an ace and a deuce is never a straight: A-2-3-4-5 does not count. */
  lemma WheelNotStraight(hand: seq<string>)
    requires GetHandRank(hand).Ok?
    requires exists i :: 0 <= i < |hand| && LowerChar(hand[i][0]) == 'a'
    requires exists i :: 0 <= i < |hand| && hand[i][0] == '2'
    ensures GetHandRank(hand).value.category != 5 && GetHandRank(hand).value.category != 9
  {
    RankIsClassify(hand);
    var values := HandValues(hand);
    var a :| 0 <= a < |hand| && LowerChar(hand[a][0]) == 'a';
    var d :| 0 <= d < |hand| && hand[d][0] == '2';
    assert values[a] == RANK_VALUES['a'] == 12;
    assert values[d] == RANK_VALUES['2'] == 0;
    Span(values, a, d);
    if GetHandRank(hand).value.category == 5 || GetHandRank(hand).value.category == 9 {
      ClassifyStraight(values, HandSuits(hand));
    }
  }

  /** The largest and the least value are at least as far apart as any two. */
  lemma Span(values: seq<nat>, i: nat, j: nat)
    requires i < |values| && j < |values|
    ensures MaxOf(values) as int - MinOf(values) >= values[i] as int - values[j]
  {
  }

  /** Five cards of one suit spanning five consecutive ranks rank `(9, highest)`. */
  lemma StraightFlushIsNine(hand: seq<string>)
    requires hand != [] && ValidHand(hand)
    requires IsStraight(HandValues(hand)) && IsFlush(HandSuits(hand))
    ensures GetHandRank(hand) == Ok(HandRank(9, MaxOf(HandValues(hand))))
  {
  }

  /** Two distinct ranks, one of them four times: `(8, quad_rank)`. */
  lemma FourOfAKindIsEight(hand: seq<string>)
    requires hand != [] && ValidHand(hand)
    requires |Dedup(HandValues(hand))| == 2
    requires exists v :: v in HandValues(hand) && multiset(HandValues(hand))[v] == 4
    ensures GetHandRank(hand).Ok? && GetHandRank(hand).value.category == 8
    ensures multiset(HandValues(hand))[GetHandRank(hand).value.key] == 4
  {
    var values := HandValues(hand);
    var v :| v in values && multiset(values)[v] == 4;
    assert v in Dedup(values);
    var i :| 0 <= i < |Dedup(values)| && Dedup(values)[i] == v;
    assert HasCount(Dedup(values), multiset(values), 4);
  }

  /** Two distinct ranks, one of them three times and none four times: `(7, trips_rank)`. */
  lemma FullHouseIsSeven(hand: seq<string>)
    requires hand != [] && ValidHand(hand)
    requires |Dedup(HandValues(hand))| == 2
    requires forall v :: v in HandValues(hand) ==> multiset(HandValues(hand))[v] != 4
    requires exists v :: v in HandValues(hand) && multiset(HandValues(hand))[v] == 3
    ensures GetHandRank(hand).Ok? && GetHandRank(hand).value.category == 7
    ensures multiset(HandValues(hand))[GetHandRank(hand).value.key] == 3
  {
    var values := HandValues(hand);
    var keys := Dedup(values);
    var v :| v in values && multiset(values)[v] == 3;
    assert v in keys;
    var i :| 0 <= i < |keys| && keys[i] == v;
    assert HasCount(keys, multiset(values), 3);
    assert !HasCount(keys, multiset(values), 4) by {
      forall j | 0 <= j < |keys| ensures multiset(values)[keys[j]] != 4 {
        assert keys[j] in values;
      }
    }
  }

  /**
   * Seven cards (two hole cards and a five-card board) fed to the five-card
   * classifier: with six or more distinct ranks, no rank three times and no
   * flush, a pair is not seen and the hand ranks as a high card.
   */
  lemma PairIgnoredAmongManyRanks(hand: seq<string>)
    requires hand != [] && ValidHand(hand)
    requires |Dedup(HandValues(hand))| >= 6
    requires forall v :: v in HandValues(hand) ==> multiset(HandValues(hand))[v] < 3
    requires !IsFlush(HandSuits(hand))
    ensures GetHandRank(hand) == Ok(HandRank(1, MaxOf(HandValues(hand))))
  {
    var values := HandValues(hand);
    var keys := Dedup(values);
    assert !HasCount(keys, multiset(values), 3) by {
      forall j | 0 <= j < |keys| ensures multiset(values)[keys[j]] != 3 {
        assert keys[j] in values;
      }
    }
    RankIsClassify(hand);
    ClassifyHighCard(values, HandSuits(hand));
  }

  /** Six or more distinct ranks, none three times, no flush: the last branch, high card. */
  lemma ClassifyHighCard(values: seq<nat>, suits: seq<char>)
    requires values != [] && |Dedup(values)| >= 6
    requires !HasCount(Dedup(values), multiset(values), 3) && !IsFlush(suits)
    ensures Classify(values, suits) == HandRank(1, MaxOf(values))
  {
  }

  /** Ranks are read case-insensitively: "Kc" and "kc" rank alike. */
  lemma RankCaseInsensitive(hand: seq<string>, other: seq<string>)
    requires |hand| == |other|
    requires forall i :: 0 <= i < |hand| ==> |hand[i]| == |other[i]|
    requires forall i :: 0 <= i < |hand| && |hand[i]| >= 2 ==>
      LowerChar(hand[i][0]) == LowerChar(other[i][0]) && hand[i][1] == other[i][1]
    ensures GetHandRank(hand) == GetHandRank(other)
  {
    if hand != [] && ValidHand(hand) {
      assert ValidHand(other);
      assert HandValues(hand) == HandValues(other);
      assert HandSuits(hand) == HandSuits(other);
    }
  }

  /** A hand ranker: `get_hand_rank` is the one the source uses. */
  type Ranker = seq<string> -> Result<HandRank>

  /** Every hand, with the board appended, has a rank. */
  predicate AllRanked(rank: Ranker, hands: seq<seq<string>>, board: seq<string>) {
    forall i :: 0 <= i < |hands| ==> rank(hands[i] + board).Ok?
  }

  /** The rank of each hand with the board appended. */
  function Ranks(rank: Ranker, hands: seq<seq<string>>, board: seq<string>): seq<HandRank>
    requires AllRanked(rank, hands, board)
  {
    seq(|hands|, i requires 0 <= i < |hands| && AllRanked(rank, hands, board) => rank(hands[i] + board).value)
  }

  /** Hand `i` is the first whose rank raises `e`. */
  predicate FirstFailure(rank: Ranker, hands: seq<seq<string>>, board: seq<string>, i: int, e: Error) {
    0 <= i < |hands| && rank(hands[i] + board) == Err(e) &&
    forall j :: 0 <= j < i ==> rank(hands[j] + board).Ok?
  }

  /** The greatest rank, the earliest one among equals. */
  function MaxRank(rs: seq<HandRank>): (r: HandRank)
    requires rs != []
    ensures r in rs
    ensures forall i :: 0 <= i < |rs| ==> !Greater(rs[i], r)
  {
    if |rs| == 1 then rs[0]
    else
      var m := MaxRank(rs[..|rs| - 1]);
      var last := rs[|rs| - 1];
      assert forall i :: 0 <= i < |rs| - 1 ==> rs[i] == rs[..|rs| - 1][i];
      if Greater(last, m) then last else m
  }

  /** The hands whose rank is `v`, in order. */
  function WithRank(hands: seq<seq<string>>, rs: seq<HandRank>, v: HandRank): seq<seq<string>>
    requires |hands| == |rs|
  {
    if hands == [] then []
    else
      WithRank(hands[..|hands| - 1], rs[..|rs| - 1], v) + (if rs[|rs| - 1] == v then [hands[|hands| - 1]] else [])
  }

  lemma {:induction false} WithRankAbsent(hands: seq<seq<string>>, rs: seq<HandRank>, v: HandRank)
    requires |hands| == |rs|
    requires forall i :: 0 <= i < |rs| ==> rs[i] != v
    ensures WithRank(hands, rs, v) == []
  {
    if hands != [] {
      WithRankAbsent(hands[..|hands| - 1], rs[..|rs| - 1], v);
    }
  }

  /**
   * `compare_hands`: the best rank over the player and every opponent, each
   * with the board, and the hands that reach it in input order, the player
   * first. The first hand whose rank raises stops the comparison.
   */
  method CompareHands(rank: Ranker, player: seq<string>, others: seq<seq<string>>, board: seq<string>)
    returns (r: Result<(seq<seq<string>>, HandRank)>)
    ensures r.Ok? <==> AllRanked(rank, [player] + others, board)
    ensures r.Err? ==> exists i :: FirstFailure(rank, [player] + others, board, i, r.error)
    ensures r.Ok? ==> r.value.1 == MaxRank(Ranks(rank, [player] + others, board))
    ensures r.Ok? ==> r.value.0 == WithRank([player] + others, Ranks(rank, [player] + others, board), r.value.1)
  {
    ghost var hands := [player] + others;
    var first := rank(player + board);
    if first.Err? {
      assert FirstFailure(rank, hands, board, 0, first.error);
      return Err(first.error);
    }
    var best := first.value;
    var winners := [player];
    ghost var rs := [best];
    assert WithRank(hands[..1], rs, best) == [player] by {
      assert hands[..1][..0] == [];
    }
    for i := 0 to |others|
      invariant |rs| == i + 1
      invariant RankedPrefix(rank, hands, board, rs)
      invariant best == MaxRank(rs)
      invariant winners == WithRank(hands[..i + 1], rs, best)
    {
      var found := rank(others[i] + board);
      RankNext(rank, player, others, board, rs, found);
      if found.Err? {
        return Err(found.error);
      }
      CompareStep(hands[..i + 1], rs, best, winners, others[i], found.value);
      if Greater(found.value, best) {
        best := found.value;
        winners := [others[i]];
      } else if found.value == best {
        winners := winners + [others[i]];
      }
      rs := rs + [found.value];
    }
    assert hands[..|others| + 1] == hands;
    RanksAre(rank, hands, board, rs);
    return Ok((winners, best));
  }

  /** The first `|rs|` hands, with the board, rank as `rs`. */
  predicate RankedPrefix(rank: Ranker, hands: seq<seq<string>>, board: seq<string>, rs: seq<HandRank>) {
    |rs| <= |hands| && forall j :: 0 <= j < |rs| ==> rank(hands[j] + board) == Ok(rs[j])
  }

  /** Ranking the next opponent either fails first there or extends the ranked prefix. */
  lemma RankNext(rank: Ranker, player: seq<string>, others: seq<seq<string>>, board: seq<string>,
                 rs: seq<HandRank>, found: Result<HandRank>)
    requires 1 <= |rs| <= |others| && RankedPrefix(rank, [player] + others, board, rs)
    requires found == rank(others[|rs| - 1] + board)
    ensures found.Err? ==> FirstFailure(rank, [player] + others, board, |rs|, found.error)
    ensures found.Ok? ==> RankedPrefix(rank, [player] + others, board, rs + [found.value])
    ensures ([player] + others)[..|rs| + 1] == ([player] + others)[..|rs|] + [others[|rs| - 1]]
    ensures |rs| == |others| ==> ([player] + others)[..|rs| + 1] == [player] + others
  {
    var hands := [player] + others;
    assert hands[|rs|] == others[|rs| - 1];
  }

  /** A ranked prefix covering every hand: all are ranked, and `rs` are their ranks. */
  lemma RanksAre(rank: Ranker, hands: seq<seq<string>>, board: seq<string>, rs: seq<HandRank>)
    requires |rs| == |hands| && RankedPrefix(rank, hands, board, rs)
    ensures AllRanked(rank, hands, board) && Ranks(rank, hands, board) == rs
  {
  }

  /** One opponent more: the best rank and the hands reaching it, as `compare_hands` updates them. */
  lemma CompareStep(hands: seq<seq<string>>, rs: seq<HandRank>, best: HandRank, winners: seq<seq<string>>,
                    h: seq<string>, x: HandRank)
    requires |hands| == |rs| && rs != []
    requires best == MaxRank(rs) && winners == WithRank(hands, rs, best)
    ensures Greater(x, best) ==> x == MaxRank(rs + [x]) && [h] == WithRank(hands + [h], rs + [x], x)
    ensures !Greater(x, best) ==>
      best == MaxRank(rs + [x]) &&
      (if x == best then winners + [h] else winners) == WithRank(hands + [h], rs + [x], best)
  {
    MaxRankSnoc(rs, x);
    if Greater(x, best) {
      WithRankAbsent(hands, rs, x);
      WithRankSnoc(hands, rs, h, x, x);
    } else {
      WithRankSnoc(hands, rs, h, x, best);
    }
  }

  lemma MaxRankSnoc(rs: seq<HandRank>, x: HandRank)
    requires rs != []
    ensures MaxRank(rs + [x]) == if Greater(x, MaxRank(rs)) then x else MaxRank(rs)
  {
    assert (rs + [x])[..|rs|] == rs;
  }

  lemma WithRankSnoc(hands: seq<seq<string>>, rs: seq<HandRank>, h: seq<string>, x: HandRank, v: HandRank)
    requires |hands| == |rs|
    ensures WithRank(hands + [h], rs + [x], v) == WithRank(hands, rs, v) + (if x == v then [h] else [])
  {
    assert (hands + [h])[..|hands|] == hands;
    assert (rs + [x])[..|rs|] == rs;
  }

  /** The first `i` opponents all have ranks and none of them beats `best`. */
  predicate Quiet(rank: Ranker, others: seq<seq<string>>, board: seq<string>, best: HandRank, i: int) {
    0 <= i <= |others| &&
    forall j :: 0 <= j < i ==>
      rank(others[j] + board).Ok? && !Greater(rank(others[j] + board).value, best)
  }

  /**
   * `eval_hands_QUICK`: -1 as soon as an opponent's rank beats the player's,
   * otherwise 0 when one ties it and 1 when every one is below it. Opponents
   * after the first one that beats the player are never ranked.
   */
  method EvalHandsQuick(rank: Ranker, player: seq<string>, others: seq<seq<string>>, board: seq<string>) returns (r: Result<int>)
    ensures rank(player + board).Err? ==> r == Err(rank(player + board).error)
    ensures rank(player + board).Ok? ==>
      var best := rank(player + board).value;
      (r == Ok(-1) <==>
         exists i :: Quiet(rank, others, board, best, i) && i < |others| &&
                     rank(others[i] + board).Ok? && Greater(rank(others[i] + board).value, best))
    ensures rank(player + board).Ok? ==>
      var best := rank(player + board).value;
      (r.Err? <==> exists i :: Quiet(rank, others, board, best, i) && i < |others| && rank(others[i] + board).Err?)
    ensures rank(player + board).Ok? && r.Err? ==>
      exists i :: Quiet(rank, others, board, rank(player + board).value, i) && i < |others| &&
        rank(others[i] + board) == Err(r.error)
    ensures rank(player + board).Ok? ==>
      var best := rank(player + board).value;
      (r == Ok(0) <==>
         Quiet(rank, others, board, best, |others|) &&
         exists i :: 0 <= i < |others| && rank(others[i] + board) == Ok(best))
    ensures rank(player + board).Ok? ==>
      var best := rank(player + board).value;
      (r == Ok(1) <==> forall i :: 0 <= i < |others| ==>
         rank(others[i] + board).Ok? && Greater(best, rank(others[i] + board).value))
  {
    var first := rank(player + board);
    if first.Err? {
      return Err(first.error);
    }
    var best := first.value;
    var drawPossible := false;
    for i := 0 to |others|
      invariant Quiet(rank, others, board, best, i)
      invariant drawPossible <==> exists j :: 0 <= j < i && rank(others[j] + board) == Ok(best)
    {
      var found := rank(others[i] + board);
      if found.Err? {
        return Err(found.error);
      }
      if Greater(found.value, best) {
        return Ok(-1);
      } else if found.value == best {
        drawPossible := true;
      }
    }
    if drawPossible {
      return Ok(0);
    }
    return Ok(1);
  }

  /**
   * `pick_best_hand`: the first hand, ranked without a board, that reaches
   * the greatest rank; a later tie does not replace it. An empty list raises
   * IndexError.
   */
  method PickBestHand(rank: Ranker, winners: seq<seq<string>>) returns (r: Result<seq<string>>)
    ensures winners == [] ==> r == Err(IndexError)
    ensures winners != [] ==> (r.Ok? <==> AllRanked(rank, winners, []))
    ensures winners != [] && r.Err? ==> exists i :: FirstFailure(rank, winners, [], i, r.error)
    ensures r.Ok? ==>
      exists k :: 0 <= k < |winners| && r.value == winners[k] &&
                  Ranks(rank, winners, [])[k] == MaxRank(Ranks(rank, winners, [])) &&
                  forall j :: 0 <= j < k ==> Ranks(rank, winners, [])[j] != MaxRank(Ranks(rank, winners, []))
  {
    if winners == [] {
      return Err(IndexError);
    }
    var bestHand := winners[0];
    assert winners[0] + [] == winners[0];
    var first := rank(bestHand);
    if first.Err? {
      assert FirstFailure(rank, winners, [], 0, first.error);
      return Err(first.error);
    }
    var bestRank := first.value;
    ghost var k := 0;
    for i := 1 to |winners|
      invariant AllRanked(rank, winners[..i], [])
      invariant 0 <= k < i && bestHand == winners[k]
      invariant rank(winners[k] + []).value == bestRank
      invariant forall j :: 0 <= j < i ==> !Greater(rank(winners[j] + []).value, bestRank)
      invariant forall j :: 0 <= j < k ==> Greater(bestRank, rank(winners[j] + []).value)
    {
      var hand := winners[i];
      assert hand + [] == hand;
      var found := rank(hand);
      if found.Err? {
        assert FirstFailure(rank, winners, [], i, found.error);
        return Err(found.error);
      }
      if Greater(found.value, bestRank) {
        bestHand := hand;
        bestRank := found.value;
        k := i;
      }
    }
    assert winners[..|winners|] == winners;
    ghost var rs := Ranks(rank, winners, []);
    assert MaxRank(rs) == bestRank by {
      var m := MaxRank(rs);
      assert !Greater(rs[k], m);
    }
    return Ok(bestHand);
  }

  /**
   * `get_cards(n_cards, all_cards)`: `n_cards` random pops from the caller's
   * list, which loses them.
   */
  method GetCards(nCards: nat, allCards: Pile<string>, rng: Rng) returns (r: Result<seq<string>>)
    modifies allCards
    ensures r.Ok? ==> PopMany(old(allCards.items), rng, 0, nCards) == Ok((r.value, allCards.items))
    ensures r.Err? ==> PopMany(old(allCards.items), rng, 0, nCards) == Err(r.error) && allCards.items == []
  {
    r := allCards.PopRandom(nCards, rng, 0);
  }
}
