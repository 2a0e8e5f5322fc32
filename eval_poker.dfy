/**
 * The Monte Carlo equity estimator: the start state of a game (the deck
 * without the known cards, converted to card words), dealing opponents and the
 * missing board cards, the fast showdown decision and the win/draw/loss tally.
 * The hand evaluator is a library the model cannot see, so it is a parameter.
 */
module EvalPoker {
  import opened Outcomes
  import opened Strings
  import opened CardCodec
  import opened Deck
  import opened Lists

  /**
   * The hand evaluator: `evaluate(board, hand)` scores a hand on a board and
   * `rankClass` maps a score to its hand class, 1 being the best.
   */
  datatype Evaluator = Evaluator(evaluate: (seq<CardInt>, seq<CardInt>) -> int, rankClass: int -> nat)

  /** A token converted as `_to_treys_representation` converts it: upper-cased rank, then `Card.new`. */
  function TreysCard(x: string): Result<CardInt> {
    if |x| < 2 then Err(IndexError) else New([UpperChar(x[0]), x[1]])
  }

  /** `_to_treys_representation`: every token converted, in order; the first bad token raises. */
  method ToTreysRepresentation(cardList: seq<string>) returns (r: Result<seq<CardInt>>)
    ensures r.Ok? <==> forall i :: 0 <= i < |cardList| ==> TreysCard(cardList[i]).Ok?
    ensures r.Ok? ==> |r.value| == |cardList|
    ensures r.Ok? ==> forall i :: 0 <= i < |cardList| ==> TreysCard(cardList[i]) == Ok(r.value[i])
    ensures r.Err? ==> exists i :: 0 <= i < |cardList| && TreysCard(cardList[i]) == Err(r.error) &&
                        forall j :: 0 <= j < i ==> TreysCard(cardList[j]).Ok?
  {
    var treysCards: seq<CardInt> := [];
    for i := 0 to |cardList|
      invariant |treysCards| == i
      invariant forall j :: 0 <= j < i ==> TreysCard(cardList[j]) == Ok(treysCards[j])
    {
      var x := cardList[i];
      if |x| < 2 {
        assert forall j :: 0 <= j < i ==> TreysCard(cardList[j]).Ok?;
        assert TreysCard(cardList[i]) == Err(IndexError);
        return Err(IndexError);
      }
      var st := [UpperChar(x[0]), x[1]];
      var c := New(st);
      if c.Err? {
        assert forall j :: 0 <= j < i ==> TreysCard(cardList[j]).Ok?;
        assert TreysCard(cardList[i]) == c;
        return Err(c.error);
      }
      assert TreysCard(cardList[i]) == c;
      treysCards := treysCards + [c.value];
    }
    return Ok(treysCards);
  }

  lemma UpperInjective(a: char, b: char)
    requires a in DECK_RANKS && b in DECK_RANKS && a != b
    ensures UpperChar(a) != UpperChar(b)
  {
  }

  lemma UpperDeckRank(c: char)
    requires c in DECK_RANKS
    ensures UpperChar(c) in STR_RANKS
  {
  }

  /**
   * A deck token converts to a valid card, and the card prints back as the
   * token with its rank letter upper-cased.
   */
  lemma DeckTokenConverts(t: string)
    requires IsDeckToken(t)
    ensures TreysCard(t).Ok? && IsCard(TreysCard(t).value)
    ensures IntToStr(TreysCard(t).value) == Ok([UpperChar(t[0]), t[1]])
  {
    UpperDeckRank(t[0]);
    TokenRoundTrip([UpperChar(t[0]), t[1]]);
  }

  lemma UpperTokensDiffer(t1: string, t2: string)
    requires IsDeckToken(t1) && IsDeckToken(t2) && t1 != t2
    ensures [UpperChar(t1[0]), t1[1]] != [UpperChar(t2[0]), t2[1]]
  {
    var u1, u2 := [UpperChar(t1[0]), t1[1]], [UpperChar(t2[0]), t2[1]];
    if t1[0] != t2[0] {
      UpperInjective(t1[0], t2[0]);
      assert u1[0] != u2[0];
    } else {
      assert t1[1] != t2[1] by {
        assert t1 == [t1[0], t1[1]] && t2 == [t2[0], t2[1]];
      }
      assert u1[1] != u2[1];
    }
  }

  /** Different deck tokens become different cards. */
  lemma DeckTokensDistinctCards(t1: string, t2: string)
    requires IsDeckToken(t1) && IsDeckToken(t2) && t1 != t2
    ensures TreysCard(t1) != TreysCard(t2)
  {
    DeckTokenConverts(t1);
    DeckTokenConverts(t2);
    UpperTokensDiffer(t1, t2);
  }

  /** The words of tokens that all convert. */
  function Cards(ts: seq<string>): (r: seq<CardInt>)
    requires forall i :: 0 <= i < |ts| ==> TreysCard(ts[i]).Ok?
    ensures |r| == |ts|
  {
    seq(|ts|, i requires 0 <= i < |ts| => TreysCard(ts[i]).value)
  }

  /** What `generate_game_start_state` excludes from the deck: the hand, then the board if there is one. */
  function Exclusions(board: Option<seq<string>>, hand: seq<string>): seq<string> {
    if board.Some? then hand + board.value else hand
  }

  /** The tokens of the start state's remaining cards: the deck without `exclude`, sorted. */
  function RemainingTokens(exclude: seq<string>): seq<string> {
    SortStrings(Filter(FullDeck(), exclude))
  }

  /**
   * The remaining tokens are sorted, repeat nothing, and are exactly the deck
   * tokens that are not excluded.
   */
  lemma RemainingTokensAre(exclude: seq<string>)
    ensures IsSorted(RemainingTokens(exclude))
    ensures NoDup(RemainingTokens(exclude))
    ensures forall t :: t in RemainingTokens(exclude) <==> IsDeckToken(t) && t !in exclude
  {
    var toks := RemainingTokens(exclude);
    forall x ensures multiset(toks)[x] <= 1 {
      DeckCounts(exclude, x);
    }
    CountNoDup(toks);
    forall t ensures t in toks <==> IsDeckToken(t) && t !in exclude {
      DeckCounts(exclude, t);
      assert t in toks <==> t in multiset(toks);
    }
  }

  /** Every remaining token converts. */
  lemma RemainingConvert(exclude: seq<string>)
    ensures forall i :: 0 <= i < |RemainingTokens(exclude)| ==> TreysCard(RemainingTokens(exclude)[i]).Ok?
  {
    RemainingTokensAre(exclude);
    forall i | 0 <= i < |RemainingTokens(exclude)| ensures TreysCard(RemainingTokens(exclude)[i]).Ok? {
      DeckTokenConverts(RemainingTokens(exclude)[i]);
    }
  }

  /** The remaining cards: the remaining tokens converted. */
  function RemainingCards(exclude: seq<string>): seq<CardInt> {
    RemainingConvert(exclude);
    Cards(RemainingTokens(exclude))
  }

  /** Distinct deck tokens convert to distinct valid cards. */
  lemma DeckCardsDistinct(ts: seq<string>)
    requires forall i :: 0 <= i < |ts| ==> IsDeckToken(ts[i])
    requires NoDup(ts)
    ensures AllConvert(ts)
    ensures NoDup(Cards(ts))
    ensures forall i :: 0 <= i < |ts| ==> IsCard(Cards(ts)[i])
  {
    forall i | 0 <= i < |ts| ensures TreysCard(ts[i]).Ok? && IsCard(TreysCard(ts[i]).value) {
      DeckTokenConverts(ts[i]);
    }
    var cs := Cards(ts);
    forall i, j | 0 <= i < j < |ts| ensures cs[i] != cs[j] {
      DeckTokensDistinctCards(ts[i], ts[j]);
    }
  }

  /** The remaining cards are valid and pairwise distinct. */
  lemma RemainingCardsDistinct(exclude: seq<string>)
    ensures NoDup(RemainingCards(exclude))
    ensures forall i :: 0 <= i < |RemainingCards(exclude)| ==> IsCard(RemainingCards(exclude)[i])
  {
    var toks := RemainingTokens(exclude);
    RemainingTokensAre(exclude);
    DeckCardsDistinct(toks);
  }

  /** The card of a deck token is among the cards of deck tokens exactly when the token is. */
  lemma CardMembership(ts: seq<string>, t: string)
    requires forall i :: 0 <= i < |ts| ==> IsDeckToken(ts[i])
    requires IsDeckToken(t)
    ensures AllConvert(ts) && TreysCard(t).Ok?
    ensures TreysCard(t).value in Cards(ts) <==> t in ts
  {
    DeckTokenConverts(t);
    forall i | 0 <= i < |ts| ensures TreysCard(ts[i]).Ok? {
      DeckTokenConverts(ts[i]);
    }
    var cs, c := Cards(ts), TreysCard(t).value;
    forall i | 0 <= i < |ts| ensures cs[i] == c <==> ts[i] == t {
      if ts[i] != t {
        DeckTokensDistinctCards(ts[i], t);
      }
    }
  }

  /** A deck token's card is among the remaining cards exactly when the token is not excluded. */
  lemma RemainingCardIff(exclude: seq<string>, t: string)
    requires IsDeckToken(t)
    ensures TreysCard(t).Ok?
    ensures TreysCard(t).value in RemainingCards(exclude) <==> t !in exclude
  {
    RemainingTokensAre(exclude);
    CardMembership(RemainingTokens(exclude), t);
  }

  /**
   * The exclusion compares tokens as written, so an upper-case hand token
   * leaves its own card in the deck: with the hand `["Ah", "Kd"]` the ace of
   * hearts is both in the hand and among the remaining cards.
   */
  lemma UpperCaseHandNotExcluded()
    ensures TreysCard("Ah").Ok? && TreysCard("Ah").value in RemainingCards(["Ah", "Kd"])
  {
    assert IsDeckToken("ah");
    assert "ah" !in ["Ah", "Kd"];
    RemainingCardIff(["Ah", "Kd"], "ah");
    assert TreysCard("ah") == TreysCard("Ah");
  }

  /** Every token of `ts` converts. */
  predicate AllConvert(ts: seq<string>) {
    forall i :: 0 <= i < |ts| ==> TreysCard(ts[i]).Ok?
  }

  /** Converting `ts` in order stops at a token that raises `e`. */
  predicate FailsWith(ts: seq<string>, e: Error) {
    exists i :: 0 <= i < |ts| && TreysCard(ts[i]) == Err(e) && forall j :: 0 <= j < i ==> TreysCard(ts[j]).Ok?
  }

  /** The error of the start state: the hand's first bad token, else the board's. */
  predicate StartFails(board: Option<seq<string>>, hand: seq<string>, e: Error) {
    if !AllConvert(hand) then FailsWith(hand, e) else board.Some? && FailsWith(board.value, e)
  }

  /** The state `generate_game_start_state` returns. */
  datatype StartState = StartState(remaining: seq<CardInt>, hand: seq<CardInt>, board: Option<seq<CardInt>>)

  /**
   * `generate_game_start_state(board, hand)`: the deck without the hand and
   * board cards, sorted and converted, the converted hand, and the converted
   * board (absent when the board is absent or empty). The remaining cards do
   * not depend on the shuffle.
   */
  method GenerateGameStartState(board: Option<seq<string>>, hand: seq<string>, rng: Rng) returns (r: Result<StartState>)
    ensures r.Ok? <==> AllConvert(hand) && (board.Some? ==> AllConvert(board.value))
    ensures r.Ok? ==> r.value.remaining == RemainingCards(Exclusions(board, hand))
    ensures r.Ok? ==> r.value.hand == Cards(hand)
    ensures r.Ok? ==> r.value.board == if board.Some? && board.value != [] then Some(Cards(board.value)) else None
    ensures r.Err? ==> StartFails(board, hand, r.error)
  {
    var exclude := Exclusions(board, hand);
    var deck := GetDeck(exclude, rng);
    var remainingTokens := SortStrings(deck);
    SortedUnique(remainingTokens, RemainingTokens(exclude));
    var h := ToTreysRepresentation(hand);
    if h.Err? {
      return Err(h.error);
    }
    assert h.value == Cards(hand);
    var b: Option<seq<CardInt>> := None;
    if board.Some? && board.value != [] {
      var converted := ToTreysRepresentation(board.value);
      if converted.Err? {
        return Err(converted.error);
      }
      assert converted.value == Cards(board.value);
      b := Some(converted.value);
    }
    RemainingConvert(exclude);
    var remaining := ToTreysRepresentation(remainingTokens);
    assert remaining.value == RemainingCards(exclude);
    return Ok(StartState(remaining.value, h.value, b));
  }

  /**
   * The start state never repeats a card, and no card of a hand or board
   * written in deck tokens is among the remaining cards.
   */
  lemma StartStateDisjoint(board: Option<seq<string>>, hand: seq<string>, t: string)
    requires IsDeckToken(t) && (t in hand || (board.Some? && t in board.value))
    ensures NoDup(RemainingCards(Exclusions(board, hand)))
    ensures TreysCard(t).Ok? && TreysCard(t).value !in RemainingCards(Exclusions(board, hand))
  {
    RemainingCardsDistinct(Exclusions(board, hand));
    RemainingCardIff(Exclusions(board, hand), t);
  }

  /** A deal: the opponents' hands, and the extra board cards when some were asked for. */
  datatype Deal =
    | HandsOnly(hands: seq<seq<CardInt>>)
    | HandsAndBoard(hands: seq<seq<CardInt>>, board: seq<CardInt>)

  /** The cards of the hands, one hand after the other. */
  function Flatten(hands: seq<seq<CardInt>>): (r: seq<CardInt>)
    ensures (forall i :: 0 <= i < |hands| ==> |hands[i]| == 2) ==> |r| == 2 * |hands|
  {
    if hands == [] then [] else Flatten(hands[..|hands| - 1]) + hands[|hands| - 1]
  }

  /** Every card a deal hands out. */
  function Dealt(d: Deal): seq<CardInt> {
    if d.HandsOnly? then Flatten(d.hands) else Flatten(d.hands) + d.board
  }

  /** The number of board cards `get_random_hands` deals for `needed_flop_cards`. */
  function BoardNeed(needed: int): nat {
    if needed > 0 then needed else 0
  }

  /**
   * `get_random_hands(n, remaining, needed)`: shuffles `remaining` in place,
   * then pops two cards per opponent and, when `needed` is positive, `needed`
   * board cards from a copy. Popping from an exhausted copy raises ValueError.
   * The `k`-th pop uses draw `k` of `pickRng`.
   */
  method GetRandomHands(nOthers: nat, remaining: array<CardInt>, needed: int, shuffleRng: Rng, pickRng: Rng)
    returns (r: Result<Deal>)
    modifies remaining
    ensures remaining[..] == Shuffled(old(remaining[..]), shuffleRng)
    ensures multiset(remaining[..]) == multiset(old(remaining[..]))
    ensures r.Ok? <==> 2 * nOthers + BoardNeed(needed) <= remaining.Length
    ensures r.Err? ==> r.error == ValueError
    ensures r.Ok? ==> (r.value.HandsOnly? <==> needed <= 0)
    ensures r.Ok? ==> |r.value.hands| == nOthers && forall i :: 0 <= i < nOthers ==> |r.value.hands[i]| == 2
    ensures r.Ok? && r.value.HandsAndBoard? ==> |r.value.board| == needed
    ensures r.Ok? ==> multiset(Dealt(r.value)) <= multiset(remaining[..])
  {
    Shuffle(remaining, shuffleRng);
    var allCardsCopy := new Pile(remaining[..]);
    var hands := DealHands(allCardsCopy, nOthers, pickRng);
    if hands.Err? {
      return Err(ValueError);
    }
    var otherHands := hands.value;
    if needed > 0 {
      ghost var before := allCardsCopy.items;
      var boardExt := allCardsCopy.PopRandom(needed, pickRng, 2 * nOthers);
      if boardExt.Err? {
        return Err(ValueError);
      }
      DealBoard(otherHands, boardExt.value, before, allCardsCopy.items, multiset(remaining[..]));
      return Ok(HandsAndBoard(otherHands, boardExt.value));
    }
    return Ok(HandsOnly(otherHands));
  }

  /**
   * The opponents' hands of `get_random_hands`: for each of `n` opponents, two
   * cards popped from `pile`, with draws `0 .. 2n - 1` of `pickRng`. The pile
   * runs out (ValueError) exactly when it holds fewer than `2n` cards.
   */
  method DealHands(pile: Pile<CardInt>, n: nat, pickRng: Rng) returns (r: Result<seq<seq<CardInt>>>)
    modifies pile
    ensures r.Ok? <==> 2 * n <= |old(pile.items)|
    ensures r.Err? ==> r.error == ValueError
    ensures r.Ok? ==> |r.value| == n && forall i :: 0 <= i < n ==> |r.value[i]| == 2
    ensures r.Ok? ==> multiset(Flatten(r.value)) + multiset(pile.items) == multiset(old(pile.items))
    ensures r.Ok? ==> |pile.items| + 2 * n == |old(pile.items)|
  {
    var otherHands: seq<seq<CardInt>> := [];
    for h := 0 to n
      invariant |otherHands| == h && forall i :: 0 <= i < h ==> |otherHands[i]| == 2
      invariant multiset(Flatten(otherHands)) + multiset(pile.items) == multiset(old(pile.items))
      invariant |pile.items| + 2 * h == |old(pile.items)|
    {
      ghost var before := pile.items;
      var cards := pile.PopRandom(2, pickRng, 2 * h);
      if cards.Err? {
        return Err(ValueError);
      }
      DealHand(otherHands, cards.value, before, pile.items, multiset(old(pile.items)));
      otherHands := otherHands + [cards.value];
    }
    return Ok(otherHands);
  }

  /** Two cards popped into a new hand: hands and pile together still hold the same cards. */
  lemma DealHand(hands: seq<seq<CardInt>>, cards: seq<CardInt>, before: seq<CardInt>, after: seq<CardInt>,
                 total: multiset<CardInt>)
    requires multiset(Flatten(hands)) + multiset(before) == total
    requires multiset(cards) + multiset(after) == multiset(before)
    requires |cards| == 2 && forall i :: 0 <= i < |hands| ==> |hands[i]| == 2
    ensures multiset(Flatten(hands + [cards])) + multiset(after) == total
    ensures forall i :: 0 <= i < |hands + [cards]| ==> |(hands + [cards])[i]| == 2
  {
    assert (hands + [cards])[..|hands|] == hands;
  }

  /** The board popped after the hands: everything dealt is among the cards dealt from. */
  lemma DealBoard(hands: seq<seq<CardInt>>, board: seq<CardInt>, before: seq<CardInt>, after: seq<CardInt>,
                  total: multiset<CardInt>)
    requires multiset(Flatten(hands)) + multiset(before) == total
    requires multiset(board) + multiset(after) == multiset(before)
    ensures multiset(Flatten(hands) + board) <= total
  {
  }

  /** A sub-multiset of a list without repeats has no repeats. */
  lemma SubMultisetNoDup(xs: seq<CardInt>, ys: seq<CardInt>)
    requires NoDup(xs) && multiset(ys) <= multiset(xs)
    ensures NoDup(ys)
  {
    forall x ensures multiset(ys)[x] <= 1 {
      NoDupCount(xs, x);
    }
    CountNoDup(ys);
  }

  /**
   * Dealing from cards without repeats deals pairwise distinct cards, each one
   * of the cards dealt from.
   */
  lemma DealtDistinct(remaining: seq<CardInt>, dealt: seq<CardInt>)
    requires NoDup(remaining) && multiset(dealt) <= multiset(remaining)
    ensures NoDup(dealt)
    ensures forall c :: c in dealt ==> c in remaining
  {
    SubMultisetNoDup(remaining, dealt);
    forall c | c in dealt ensures c in remaining {
      assert c in multiset(dealt);
    }
  }

  /**
   * Dealt from the start state's remaining cards, no card of a trial is a card
   * of the player's hand or the known board written in deck tokens.
   */
  lemma DealtAvoidsKnownCards(board: Option<seq<string>>, hand: seq<string>, dealt: seq<CardInt>, t: string)
    requires multiset(dealt) <= multiset(RemainingCards(Exclusions(board, hand)))
    requires IsDeckToken(t) && (t in hand || (board.Some? && t in board.value))
    ensures NoDup(dealt)
    ensures TreysCard(t).Ok? && TreysCard(t).value !in dealt
  {
    StartStateDisjoint(board, hand, t);
    DealtDistinct(RemainingCards(Exclusions(board, hand)), dealt);
  }

  /** The class the evaluator gives `hand` on `board`. */
  function HandClass(ev: Evaluator, board: seq<CardInt>, hand: seq<CardInt>): nat {
    ev.rankClass(ev.evaluate(board, hand))
  }

  /**
   * The verdict of a showdown, from the player's side: -1 when some opponent's
   * class is better (smaller), else 0 when some opponent's class ties, else 1.
   */
  function Outcome(ev: Evaluator, board: seq<CardInt>, hand: seq<CardInt>, otherHands: seq<seq<CardInt>>): int {
    if exists i :: 0 <= i < |otherHands| && HandClass(ev, board, otherHands[i]) < HandClass(ev, board, hand) then -1
    else if exists i :: 0 <= i < |otherHands| && HandClass(ev, board, otherHands[i]) == HandClass(ev, board, hand) then 0
    else 1
  }

  /**
   * `get_winner` on its fast path: -1 when some opponent's class is better
   * (smaller) than the player's, 0 when the best opponent class ties it, 1
   * when every opponent is worse. `min` of no opponents raises ValueError.
   */
  method GetWinner(hand: seq<CardInt>, otherHands: seq<seq<CardInt>>, board: seq<CardInt>, ev: Evaluator)
    returns (r: Result<int>)
    ensures r.Err? <==> otherHands == []
    ensures r.Err? ==> r.error == ValueError
    ensures r.Ok? ==> -1 <= r.value <= 1
    ensures r.Ok? ==> (r.value == -1 <==>
      exists i :: 0 <= i < |otherHands| && HandClass(ev, board, otherHands[i]) < HandClass(ev, board, hand))
    ensures r.Ok? ==> (r.value == 0 <==>
      (forall i :: 0 <= i < |otherHands| ==> HandClass(ev, board, otherHands[i]) >= HandClass(ev, board, hand)) &&
      (exists i :: 0 <= i < |otherHands| && HandClass(ev, board, otherHands[i]) == HandClass(ev, board, hand)))
    ensures r.Ok? ==> (r.value == 1 <==>
      forall i :: 0 <= i < |otherHands| ==> HandClass(ev, board, otherHands[i]) > HandClass(ev, board, hand))
    ensures r.Ok? ==> r.value == Outcome(ev, board, hand, otherHands)
  {
    var playerScore := ev.evaluate(board, hand);
    var playerRank := ev.rankClass(playerScore);
    var opHandRanks: seq<nat> := [];
    for i := 0 to |otherHands|
      invariant |opHandRanks| == i
      invariant forall j :: 0 <= j < i ==> opHandRanks[j] == HandClass(ev, board, otherHands[j])
    {
      var score := ev.evaluate(board, otherHands[i]);
      var rankClass := ev.rankClass(score);
      opHandRanks := opHandRanks + [rankClass];
    }
    if opHandRanks == [] {
      return Err(ValueError);
    }
    var least := MinOf(opHandRanks);
    if least < playerRank {
      return Ok(-1);
    } else if least == playerRank {
      return Ok(0);
    } else {
      return Ok(1);
    }
  }

  /** The shuffle and the pick draws of one trial. */
  datatype TrialRng = TrialRng(shuffle: Rng, pick: Rng)

  /** Whether one trial finds the cards it deals, given the known board size, the opponents and the deck size. */
  predicate TrialFits(boardSize: nat, nOthers: nat, deckSize: nat) {
    if boardSize == 5 then 10 <= deckSize
    else boardSize < 5 && 2 * nOthers + 5 - boardSize <= deckSize
  }

  /**
   * What one trial deals: five opponents when the known board is full, else
   * `nOthers`; two cards each; a five-card board that extends the known one;
   * and the new cards, hands and board together, drawn from `pool`.
   */
  predicate TrialDeal(ogBoard: seq<CardInt>, nOthers: nat, pool: multiset<CardInt>,
                      deal: (seq<seq<CardInt>>, seq<CardInt>)) {
    |deal.0| == (if |ogBoard| == 5 then 5 else nOthers) &&
    (forall i :: 0 <= i < |deal.0| ==> |deal.0[i]| == 2) &&
    |ogBoard| <= 5 && |deal.1| == 5 && deal.1[..|ogBoard|] == ogBoard &&
    multiset(Flatten(deal.0) + deal.1[|ogBoard|..]) <= pool
  }

  /**
   * The dealing step of one trial of `simulate_win_percent`: with a full known
   * board, five opponents whatever `nOthers` says; with a partial board,
   * `nOthers` opponents and the board filled up to five cards; with no board,
   * `nOthers` opponents and five board cards. A known board of more than five
   * cards makes the unpacking of the deal fail.
   */
  method DealTrial(ogBoard: seq<CardInt>, remaining: array<CardInt>, nOthers: nat, t: TrialRng)
    returns (r: Result<(seq<seq<CardInt>>, seq<CardInt>)>)
    modifies remaining
    ensures multiset(remaining[..]) == multiset(old(remaining[..]))
    ensures r.Ok? <==> TrialFits(|ogBoard|, nOthers, remaining.Length)
    ensures r.Err? ==> r.error == ValueError
    ensures r.Ok? ==> TrialDeal(ogBoard, nOthers, multiset(remaining[..]), r.value)
  {
    if ogBoard != [] {
      var tempBoard := ogBoard;
      if |tempBoard| == 5 {
        var deal := GetRandomHands(5, remaining, 0, t.shuffle, t.pick);
        if deal.Err? {
          return Err(deal.error);
        }
        assert tempBoard[5..] == [] && Flatten(deal.value.hands) + [] == Flatten(deal.value.hands);
        return Ok((deal.value.hands, tempBoard));
      }
      var deal := GetRandomHands(nOthers, remaining, 5 - |tempBoard|, t.shuffle, t.pick);
      if deal.Err? {
        return Err(deal.error);
      }
      if deal.value.HandsOnly? {
        return Err(ValueError);
      }
      tempBoard := tempBoard + deal.value.board;
      assert tempBoard[|ogBoard|..] == deal.value.board;
      return Ok((deal.value.hands, tempBoard));
    }
    var deal := GetRandomHands(nOthers, remaining, 5, t.shuffle, t.pick);
    if deal.Err? {
      return Err(deal.error);
    }
    return Ok((deal.value.hands, deal.value.board));
  }

  /** The three counters of `simulate_win_percent`. */
  datatype Tally = Tally(wins: nat, draws: nat, losses: nat)

  /**
   * `deals` and `outcomes` record, trial by trial, what was dealt and the
   * showdown's verdict on it.
   */
  predicate TrialsRecord(hand: seq<CardInt>, ogBoard: seq<CardInt>, nOthers: nat, pool: multiset<CardInt>, ev: Evaluator,
                         deals: seq<(seq<seq<CardInt>>, seq<CardInt>)>, outcomes: seq<int>) {
    |deals| == |outcomes| &&
    forall k :: 0 <= k < |deals| ==>
      TrialDeal(ogBoard, nOthers, pool, deals[k]) && deals[k].0 != [] &&
      outcomes[k] == Outcome(ev, deals[k].1, hand, deals[k].0)
  }

  /** The counters of `simulate_win_percent` count the trials each verdict was given to. */
  predicate Counts(tally: Tally, outcomes: seq<int>) {
    tally.wins == multiset(outcomes)[1] && tally.draws == multiset(outcomes)[0] &&
    tally.losses == multiset(outcomes)[-1]
  }

  /** One more trial extends the record. */
  lemma RecordStep(hand: seq<CardInt>, ogBoard: seq<CardInt>, nOthers: nat, pool: multiset<CardInt>, ev: Evaluator,
                   deals: seq<(seq<seq<CardInt>>, seq<CardInt>)>, outcomes: seq<int>,
                   deal: (seq<seq<CardInt>>, seq<CardInt>), outcome: int)
    requires TrialsRecord(hand, ogBoard, nOthers, pool, ev, deals, outcomes)
    requires TrialDeal(ogBoard, nOthers, pool, deal) && deal.0 != []
    requires outcome == Outcome(ev, deal.1, hand, deal.0)
    ensures TrialsRecord(hand, ogBoard, nOthers, pool, ev, deals + [deal], outcomes + [outcome])
  {
    var ds, os := deals + [deal], outcomes + [outcome];
    forall k | 0 <= k < |ds|
      ensures TrialDeal(ogBoard, nOthers, pool, ds[k]) && ds[k].0 != [] &&
              os[k] == Outcome(ev, ds[k].1, hand, ds[k].0)
    {
      if k < |deals| {
        assert ds[k] == deals[k] && os[k] == outcomes[k];
      }
    }
  }

  /** Counting one more verdict as the loop of `simulate_win_percent` does keeps the counters exact. */
  lemma CountStep(wins: nat, draws: nat, losses: nat, outcomes: seq<int>, outcome: int)
    requires Counts(Tally(wins, draws, losses), outcomes) && -1 <= outcome <= 1
    ensures Counts(Tally(if outcome == 1 then wins + 1 else wins,
                         if outcome == 0 then draws + 1 else draws,
                         if outcome == -1 then losses + 1 else losses), outcomes + [outcome])
  {
    assert multiset(outcomes + [outcome]) == multiset(outcomes) + multiset{outcome};
  }

  /**
   * The trials of `simulate_win_percent`: `numSims` rounds of dealing from
   * `remaining` and counting the showdown's outcome. Every round deals a new
   * board from `ogBoard`, which itself stays as it was. The ghost results
   * record each round's deal and verdict.
   */
  method RunTrials(hand: seq<CardInt>, ogBoard: seq<CardInt>, remaining: array<CardInt>, numSims: int, nOthers: nat,
                   ev: Evaluator, trials: nat -> TrialRng)
    returns (r: Result<Tally>, ghost deals: seq<(seq<seq<CardInt>>, seq<CardInt>)>, ghost outcomes: seq<int>)
    modifies remaining
    ensures multiset(remaining[..]) == multiset(old(remaining[..]))
    ensures r.Ok? ==> r.value.wins + r.value.draws + r.value.losses == if numSims > 0 then numSims else 0
    ensures r.Ok? ==> |outcomes| == (if numSims > 0 then numSims else 0)
    ensures r.Ok? ==> TrialsRecord(hand, ogBoard, nOthers, multiset(old(remaining[..])), ev, deals, outcomes)
    ensures r.Ok? ==> Counts(r.value, outcomes)
    ensures r.Err? ==> r.error == ValueError
    ensures (TrialFits(|ogBoard|, nOthers, remaining.Length) && (|ogBoard| == 5 || nOthers > 0)) || numSims <= 0 ==> r.Ok?
    ensures numSims > 0 && !(TrialFits(|ogBoard|, nOthers, remaining.Length) && (|ogBoard| == 5 || nOthers > 0)) ==>
      r == Err(ValueError)
  {
    var wins, draws, losses := 0, 0, 0;
    deals, outcomes := [], [];
    var i := 0;
    while i < numSims
      invariant 0 <= i <= if numSims > 0 then numSims else 0
      invariant wins + draws + losses == i && |outcomes| == i
      invariant multiset(remaining[..]) == multiset(old(remaining[..]))
      invariant TrialsRecord(hand, ogBoard, nOthers, multiset(old(remaining[..])), ev, deals, outcomes)
      invariant Counts(Tally(wins, draws, losses), outcomes)
      invariant i > 0 ==> TrialFits(|ogBoard|, nOthers, remaining.Length) && (|ogBoard| == 5 || nOthers > 0)
    {
      var deal := DealTrial(ogBoard, remaining, nOthers, trials(i));
      if deal.Err? {
        return Err(deal.error), deals, outcomes;
      }
      var result := GetWinner(hand, deal.value.0, deal.value.1, ev);
      if result.Err? {
        return Err(result.error), deals, outcomes;
      }
      RecordStep(hand, ogBoard, nOthers, multiset(old(remaining[..])), ev, deals, outcomes, deal.value, result.value);
      CountStep(wins, draws, losses, outcomes, result.value);
      deals, outcomes := deals + [deal.value], outcomes + [result.value];
      if result.value == 1 {
        wins := wins + 1;
      } else if result.value == 0 {
        draws := draws + 1;
      } else if result.value == -1 {
        losses := losses + 1;
      }
      i := i + 1;
    }
    return Ok(Tally(wins, draws, losses)), deals, outcomes;
  }

  /** The number of cards of the converted known board. */
  function BoardSize(board: Option<seq<string>>): nat {
    if board.Some? then |board.value| else 0
  }

  /** The converted known board, empty when there is none. */
  function KnownBoard(board: Option<seq<string>>): (r: seq<CardInt>)
    requires board.Some? ==> AllConvert(board.value)
    ensures |r| == BoardSize(board)
  {
    if board.Some? then Cards(board.value) else []
  }

  /** Whether the hand and the board convert to cards. */
  predicate StartConverts(board: Option<seq<string>>, hand: seq<string>) {
    AllConvert(hand) && (board.Some? ==> AllConvert(board.value))
  }

  /**
   * `simulate_win_percent` up to its win rate: the start state, the trials,
   * then the division by the number of games, which raises ZeroDivisionError
   * when there were none, and the comparison `decimal_places > 0`, which
   * raises TypeError when no `decimal_places` is given. The result is the
   * tally the win rate is computed from.
   */
  method SimulateWinPercent(board: Option<seq<string>>, hand: seq<string>, numSims: int, nOthers: nat,
                            decimalPlaces: Option<int>, ev: Evaluator, deckRng: Rng, trials: nat -> TrialRng)
    returns (r: Result<Tally>, ghost deals: seq<(seq<seq<CardInt>>, seq<CardInt>)>, ghost outcomes: seq<int>)
    ensures r.Ok? ==> numSims > 0 && r.value.wins + r.value.draws + r.value.losses == numSims
    ensures r.Ok? ==> decimalPlaces.Some? && StartConverts(board, hand) && |outcomes| == numSims
    ensures r.Ok? ==> TrialsRecord(Cards(hand), KnownBoard(board), nOthers,
                                   multiset(RemainingCards(Exclusions(board, hand))), ev, deals, outcomes)
    ensures r.Ok? ==> Counts(r.value, outcomes)
    ensures !StartConverts(board, hand) ==> r.Err? && StartFails(board, hand, r.error)
    ensures StartConverts(board, hand) && numSims <= 0 ==> r == Err(ZeroDivisionError)
    ensures (StartConverts(board, hand) && numSims > 0 && decimalPlaces.None? &&
             TrialFits(BoardSize(board), nOthers, |RemainingCards(Exclusions(board, hand))|) &&
             (BoardSize(board) == 5 || nOthers > 0)) ==> r == Err(TypeError)
    ensures (StartConverts(board, hand) && numSims > 0 &&
             !(TrialFits(BoardSize(board), nOthers, |RemainingCards(Exclusions(board, hand))|) &&
               (BoardSize(board) == 5 || nOthers > 0))) ==> r == Err(ValueError)
    ensures (StartConverts(board, hand) && numSims > 0 && decimalPlaces.Some? &&
             TrialFits(BoardSize(board), nOthers, |RemainingCards(Exclusions(board, hand))|) &&
             (BoardSize(board) == 5 || nOthers > 0)) ==> r.Ok?
  {
    var start := GenerateGameStartState(board, hand, deckRng);
    if start.Err? {
      return Err(start.error), [], [];
    }
    var cards := start.value.remaining;
    var remaining := new CardInt[|cards|](i requires 0 <= i < |cards| reads {} => cards[i]);
    var ogBoard := if start.value.board.Some? then start.value.board.value else [];
    assert ogBoard == KnownBoard(board);
    assert remaining[..] == cards;
    var tally;
    tally, deals, outcomes := RunTrials(start.value.hand, ogBoard, remaining, numSims, nOthers, ev, trials);
    if tally.Err? {
      return Err(tally.error), deals, outcomes;
    }
    if tally.value.wins + tally.value.draws + tally.value.losses == 0 {
      return Err(ZeroDivisionError), deals, outcomes;
    }
    if decimalPlaces.None? {
      return Err(TypeError), deals, outcomes;
    }
    return tally, deals, outcomes;
  }
}
