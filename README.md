# Poker equity core of rs-api, modelled in Dafny

rs-api estimates the chance that a Texas hold'em hand wins. It does this by
dealing random opponents and boards many times and counting wins, draws and
losses. This project models the code that does that work, and proves what it
promises:

- **`CardCodec`** (`card.dfy`), from `card.py`. The Cactus Kev card codec
  packs a two-character token into one integer. The fields are the bit-rank,
  the one-hot suit, the rank and the rank prime. The module also has the field
  extractors, `hand_to_binary`, and the two prime-product fingerprints of a
  hand.
- **`Deck`** (`deck.dfy`). The 52-token deck that `get_deck` builds (the two
  copies in `eval_poker.py` and `_old/poker_game.py` are the same code). It
  also models `random.shuffle`, and dealing by repeated
  `list.pop(random.randint(0, len(list) - 1))`.
- **`OldPokerGame`** (`poker_game.dfy`), from `_old/poker_game.py`. The
  string-based hand ranker `get_hand_rank` sorts a hand into nine categories.
  The module also has the showdown procedures `compare_hands`,
  `eval_hands_QUICK` and `pick_best_hand`, and `get_cards`.
- **`EvalPoker`** (`eval_poker.dfy`), from `eval_poker.py`:
  - the token conversion, and the start state of a game;
  - dealing opponents and the missing board cards;
  - the fast win/draw/loss decision, and the counting loop of
    `simulate_win_percent`.
- **`MctsPoker`** (`mcts.dfy`), from `_old/mcts_poker.py`. The token validator
  `normalize_notation`, and the bookkeeping of the `MCTS` tree searcher: the
  dictionaries `Q`, `N` and `children`, and `_expand`, `_backpropagate`,
  `_select` and `choose`.
- **`Outcomes`**, **`Strings`** and **`Lists`** hold the shared pieces:
  - A Python exception becomes an `Err` of a `Result`.
  - `random` becomes an explicit source of draws (`Rng`, draw `k` reduced
    below a bound). So every statement is proved for every outcome a random
    generator can produce.
  - Python's string order, `sorted` on strings, and ASCII case mapping.
  - Python's `max` and `min` on a list of naturals.

Notes on how the model is organised:

- **Loops and in-place updates stay imperative.**
  - Shuffling is a method on an `array`.
  - A list that is dealt from is a `Pile` object whose `items` the pops
    update.
  - The searcher is a class whose methods update its maps.
- **Each method is proved against a specification function.**
  - The card conversions and the counting loops: a function on sequences, or
    the pointwise/first-failure contract.
  - The shuffle: `Shuffled`.
  - Dealing: `PopMany`, through its accumulating form `PopInto`.
  - The search bookkeeping: `Backed` and `Expanded`.
- **The showdown procedures take the hand ranker as a parameter `rank`.**
  - This covers `compare_hands`, `eval_hands_QUICK` and `pick_best_hand`.
  - The source always calls them with `get_hand_rank`, which is
    `OldPokerGame.GetHandRank` here.
  - Their contracts hold for every ranker, and so for that one.
- **The equity loop takes the hand evaluator as a parameter**: `Evaluator`, a
  score and a class function.

## Model

| member | source | states |
|---|---|---|
| CardCodec.New | card.py:67-85 | IndexError exactly for a token shorter than two characters; KeyError exactly for a rank outside `23456789TJQKA` (so lower-case `t j q k a` fail) or a suit outside the suit table; otherwise a valid card whose rank field indexes the rank character, whose suit field is the table's 1/2/4/8, whose prime is `PRIMES[rank]` and whose bit-rank is `1 << rank` |
| CardCodec.EncodeFields | card.py:93-107 | the extractors (`>> 8 & 0xF`, `>> 12 & 0xF`, `>> 16 & 0x1FFF`, `& 0x3F`) read back exactly the rank, suit, bit-rank and prime that `new` packed |
| CardCodec.GetRankInt | card.py:93-95 | `(c >> 8) & 0xF` is a 4-bit field, below 16; `EncodeFields` shows it reads back the packed rank |
| CardCodec.GetSuitInt | card.py:97-99 | `(c >> 12) & 0xF` is a 4-bit field, below 16; `EncodeFields` shows it reads back the packed suit |
| CardCodec.GetBitrankInt | card.py:101-103 | `(c >> 16) & 0x1FFF` is a 13-bit field, below 8192; `EncodeFields` shows it reads back the packed bit-rank |
| CardCodec.GetPrime | card.py:105-107 | `c & 0x3F` is a 6-bit field, below 64; `EncodeFields` shows it reads back the packed prime |
| CardCodec.RankTable | card.py:40 | the rank table's keys are exactly the characters of `STR_RANKS`, each mapped to its own index |
| CardCodec.SuitTable | card.py:41-51 | every suit value is 1, 2, 4 or 8, and `INT_SUIT_TO_CHAR_SUIT` maps an ASCII suit's value back to its letter |
| CardCodec.TokenRoundTrip | card.py:88-91 | `int_to_str(new(s)) == s` for every token with an upper-case rank and a suit in `shdc` |
| CardCodec.IntToStr | card.py:87-91 | succeeds iff the rank field is below 13 and the suit field below 9, else IndexError; two characters, the first the rank letter that maps back to the rank field; the second, for a one-hot suit field, the ASCII suit letter that maps back to it, and `x` for any other suit field |
| CardCodec.SuitLetter | card.py:51 | the suit table holds, at 1, 2, 4 and 8, the suit letter that maps back to that position, and `x` at every other position |
| CardCodec.CardRoundTrip | card.py:88-91 | every valid card prints as an ASCII token that encodes back to the same card |
| CardCodec.RankInverse | card.py:32-40 | every rank index prints as a rank character that the rank table maps back to that index |
| CardCodec.SuitInverse | card.py:41-51 | every one-hot suit prints as an ASCII suit character that the suit table maps back to that suit |
| CardCodec.NewInjective | card.py:75-85 | two tokens encode to the same card if and only if they have the same rank character and the same suit value |
| CardCodec.GlyphSuits | card.py:46-49 | the suit glyphs U+2660, U+2764, U+2666, U+2663 encode exactly as `s`, `h`, `d`, `c` |
| CardCodec.HandToBinary | card.py:110-118 | succeeds iff every token encodes; then same length and element `i` is `new(card_strs[i])`; otherwise the error of the first failing token |
| CardCodec.PrimeProductFromHand | card.py:121-130 | the product of the low bytes of the words; for valid cards, the product of their rank primes |
| CardCodec.LowBytesArePrimes | card.py:128 | for valid cards `c & 0xFF` is the rank prime, so both products agree |
| CardCodec.PrimeProductFromRankbits | card.py:133-161 | the product of `PRIMES[i]` over the bits `i < 13` set in `rankbits` |
| CardCodec.RankbitSet | card.py:81 | bit `i` of the OR of the cards' bit-ranks is set iff some card has rank `i` |
| CardCodec.DistinctRankProduct | card.py:140-145 | for cards of pairwise distinct ranks, the product over their rank set equals the product over the cards |
| CardCodec.RankbitsProductMatchesHand | card.py:133-161 | for cards of pairwise distinct ranks, `prime_product_from_rankbits` of the OR of their bit-ranks equals `prime_product_from_hand` of the cards |
| Deck.FullDeckTokens | eval_poker.py:20-21 | a token is in the full deck iff it is a deck rank character followed by a deck suit character |
| Deck.FullDeckNoDup | eval_poker.py:20-21 | the 52 tokens are pairwise distinct |
| Deck.Filter | eval_poker.py:22-24 | a token is kept iff it is in the deck and not excluded; no repeats are introduced |
| Deck.DeckCounts | eval_poker.py:18-28 | the unshuffled deck holds each deck token not in `exclude` exactly once and nothing else |
| Deck.Shuffle | eval_poker.py:27 | `random.shuffle` in place: the array becomes `Shuffled` of its old contents, a permutation of them |
| Deck.ShuffledPermutes | eval_poker.py:27 | every Fisher–Yates run, whatever its draws, permutes the list |
| Deck.GetDeck | eval_poker.py:18-28 | the shuffle of exactly the unexcluded tokens, so a permutation of them (the identical `_old/poker_game.py:212-222` is the same member) |
| Deck.Unexcluded | eval_poker.py:20-26 | the nested suit and rank loops append exactly the full deck's tokens that are not excluded, in deck order |
| Deck.PopMany | eval_poker.py:37-39 | `n` pops succeed iff the list has at least `n` elements, otherwise ValueError; `n` popped and `len - n` left |
| Deck.PopInto | eval_poker.py:37-39 | popping `n` more onto an already popped list succeeds iff `n` elements remain, else ValueError; the popped list grows by `n`, the rest shrinks by `n` |
| Deck.PopIntoPermutes | eval_poker.py:37-39 | popped and left-over elements together are the multiset of the original list plus what was popped before |
| Deck.Pile.constructor | eval_poker.py:34 | the copy holds the list's elements |
| Deck.Pile.PopRandom | eval_poker.py:37-39 | the popped cards and the shortened list are those of `PopMany`, so together they are the old list's multiset; on failure ValueError and the list has been emptied |
| Strings.SortStrings | eval_poker.py:57 | `sorted`: an ordered permutation of the input |
| Strings.SortedUnique | eval_poker.py:57 | a multiset has one sorted arrangement, so the sorted deck does not depend on the shuffle |
| OldPokerGame.RankValuesTable | _old/poker_game.py:16 | `rank_values` maps exactly the lowered rank characters to their index |
| OldPokerGame.Classify | _old/poker_game.py:36-81 | the category is in 1..9 and the key rank is a rank of the hand |
| OldPokerGame.ClassifyLow | _old/poker_game.py:60-81 | the trips, two-pair, pair and high-card branches give a category in 1..4 keyed by a rank of the hand |
| OldPokerGame.ClassifyStraight | _old/poker_game.py:26-40 | category 5 or 9 is given only to a straight, keyed by its highest rank |
| OldPokerGame.GetHandRank | _old/poker_game.py:15-81 | IndexError iff the hand is empty or a token is shorter than two characters; KeyError iff otherwise some lowered rank is unknown; else a rank in 1..9 with key in 0..12 |
| OldPokerGame.StraightShape | _old/poker_game.py:26-30 | a straight (5 or 9) has exactly five distinct ranks with highest − lowest == 4, keyed by the highest |
| OldPokerGame.WheelNotStraight | _old/poker_game.py:26-30 | a hand with an ace and a deuce is never ranked 5 or 9: A-2-3-4-5 is no straight |
| OldPokerGame.StraightFlushIsNine | _old/poker_game.py:37-38 | straight and flush give `(9, highest)` |
| OldPokerGame.FourOfAKindIsEight | _old/poker_game.py:41-44 | two distinct ranks, one four times, give category 8 keyed by the quad rank |
| OldPokerGame.FullHouseIsSeven | _old/poker_game.py:47-50 | two distinct ranks, one three times and none four times, give category 7 keyed by the trips rank |
| OldPokerGame.PairIgnoredAmongManyRanks | _old/poker_game.py:74-81 | a 7-card input with six or more distinct ranks, no trips and no flush ranks as high card even when it holds a pair |
| OldPokerGame.ClassifyHighCard | _old/poker_game.py:74-81 | six or more distinct ranks without trips or flush fall through to `(1, highest)` |
| OldPokerGame.RankCaseInsensitive | _old/poker_game.py:16-17 | hands differing only in the case of rank characters rank alike |
| OldPokerGame.MaxRank | _old/poker_game.py:88-95 | the greatest rank of a non-empty list: a member that no element exceeds |
| OldPokerGame.CompareHands | _old/poker_game.py:84-96 | succeeds iff every hand with the board ranks; `best_rank` is the maximum over player and opponents and `winners` exactly the hands with that rank, in order, player first; else the first failing hand's error |
| OldPokerGame.EvalHandsQuick | _old/poker_game.py:99-114 | -1 iff some opponent's rank is lexicographically greater (later ones are not ranked), else 0 iff one is equal, else 1; the first ranking error propagates |
| OldPokerGame.PickBestHand | _old/poker_game.py:117-127 | IndexError on an empty list; else the first hand attaining the maximum rank (later ties do not replace it), or the first ranking error |
| OldPokerGame.GetCards | _old/poker_game.py:191-195 | removes exactly the popped cards from the caller's list in place and returns them; too few cards raise ValueError |
| EvalPoker.ToTreysRepresentation | eval_poker.py:4-9 | succeeds iff every token converts; then same length and element `i` is `Card.new(upper(x[0]) + x[1])`; else the first failing token's error |
| EvalPoker.DeckTokenConverts | eval_poker.py:7-8 | every deck token converts to a valid card printing as the token with its rank upper-cased |
| EvalPoker.DeckTokensDistinctCards | eval_poker.py:7-8 | distinct deck tokens convert to distinct cards |
| EvalPoker.RemainingTokensAre | eval_poker.py:56-57 | the remaining tokens are sorted, repeat nothing, and are exactly the deck tokens not excluded |
| EvalPoker.RemainingCardsDistinct | eval_poker.py:56-64 | the remaining cards are valid and pairwise distinct |
| EvalPoker.RemainingCardIff | eval_poker.py:51-64 | a deck token's card is among the remaining cards iff the token is not excluded |
| EvalPoker.UpperCaseHandNotExcluded | eval_poker.py:51-56 | exclusion compares tokens as written: hand `["Ah", "Kd"]` leaves the ace of hearts in the remaining cards |
| EvalPoker.GenerateGameStartState | eval_poker.py:49-68 | succeeds iff hand and board convert, else raises the error of the first bad hand token, or if the hand converts, of the first bad board token; remaining cards are the sorted unexcluded deck converted, whatever the shuffle; hand converted; board converted, or absent when absent or empty |
| EvalPoker.StartStateDisjoint | eval_poker.py:49-64 | the remaining cards repeat nothing and exclude every hand or board card written as a deck token |
| EvalPoker.GetRandomHands | eval_poker.py:32-47 | shuffles `remaining` in place (same multiset); succeeds iff `2n + needed` cards suffice, else ValueError; `n` hands of two cards, the hand list alone iff `needed <= 0`, else `needed` board cards; the dealt cards are a sub-multiset of `remaining` |
| EvalPoker.DealHands | eval_poker.py:35-40 | `n` pairs are dealt iff the copy holds `2n` cards, else ValueError; the hands and the shortened copy together are the copy's old multiset |
| EvalPoker.DealBoard | eval_poker.py:42-45 | after the board pops, hands plus board stay within the multiset the copy started from |
| EvalPoker.DealtDistinct | eval_poker.py:32-47 | cards dealt from cards without repeats are pairwise distinct and drawn from them |
| EvalPoker.DealtAvoidsKnownCards | eval_poker.py:134-144 | no card dealt from the start state is a hand or board card written as a deck token |
| Lists.MinOf | eval_poker.py:85-87 | `min`: an element of the list that no element is below |
| Lists.MaxOf | _old/poker_game.py:72 | `max`: an element of the list that no element is above |
| EvalPoker.GetWinner | eval_poker.py:74-90 | ValueError iff no opponents; -1 iff some opponent's class is smaller than the player's, 0 iff none smaller and one equal, 1 iff all greater; so the verdict is `Outcome` |
| EvalPoker.DealTrial | eval_poker.py:128-144 | succeeds iff the deck holds the trial's cards, else ValueError; the deal is a `TrialDeal`: with a 5-card known board, 5 opponents whatever `n_other_players`, otherwise `n_other_players`; two cards each; a five-card board that extends the known board; new cards from `remaining`, whose multiset is kept |
| EvalPoker.RunTrials | eval_poker.py:127-181 | `num_sims` trials (none for a non-positive count), each recorded with its deal, a `TrialDeal` from the cards remaining at the start, and its verdict `Outcome` on that deal; `wins`, `draws` and `losses` are the numbers of trials with verdict 1, 0 and -1, summing to the number of trials; `remaining` keeps its multiset; succeeds when there are no trials or every trial fits the deck and has an opponent; otherwise ValueError |
| EvalPoker.RecordStep | eval_poker.py:128-161 | one more dealt trial with its verdict extends the record of trials |
| EvalPoker.CountStep | eval_poker.py:164-176 | the `if result == 1 / elif 0 / elif -1` increments keep each counter equal to the number of trials with its verdict |
| EvalPoker.SimulateWinPercent | eval_poker.py:113-188 | a bad hand or board token raises its conversion error; zero trials raise ZeroDivisionError; trials that do not fit the deck, or have no opponent, raise ValueError; when the trials fit, a missing `decimal_places` raises TypeError and a given one succeeds; on success `num_sims` trials dealt from the start state's remaining cards around the converted known board, and the tally counts their verdicts |
| MctsPoker.NormalizeNotation | _old/mcts_poker.py:13-19 | IndexError iff empty; "Suit Type Invalid" iff the lowered last character is not a suit (checked first); "Card Number Invalid" iff the suit is valid but the prefix is not a rank; a deck token iff the lowered input is one, and then it is the lowered input |
| MctsPoker.NormalizeIgnoresCase | _old/mcts_poker.py:14 | normalising the lowered token gives the same answer |
| MctsPoker.NormalizeFixesDeckTokens | _old/mcts_poker.py:13-19 | every deck token normalises to itself |
| MctsPoker.NormalizeIdempotent | _old/mcts_poker.py:13-19 | normalising a normalised token changes nothing |
| MctsPoker.BackedVisits | _old/mcts_poker.py:89-92 | each node's visit count rises by its number of occurrences on the path |
| MctsPoker.BackedRewards | _old/mcts_poker.py:89-94 | each node's reward rises by the alternating rewards r, 1−r, … of its positions counted from the leaf |
| MctsPoker.BackedKeys | _old/mcts_poker.py:89-93 | the visit and reward maps gain entries for exactly the path nodes |
| MctsPoker.ExpandedEffect | _old/mcts_poker.py:73-77 | expanding gives the node an entry, keeps an existing one, leaves other entries alone, and is idempotent |
| MctsPoker.Mcts.constructor | _old/mcts_poker.py:29-33 | `Q`, `N` and `children` start empty and the exploration weight is stored |
| MctsPoker.Mcts.Expand | _old/mcts_poker.py:73-77 | `children` becomes `Expanded(old children, node, find_children(node))`; `Q` and `N` unchanged |
| MctsPoker.Mcts.Backpropagate | _old/mcts_poker.py:89-94 | `N[x]` rises by the occurrences of `x` on the path; `Q[x]` by the rewards r, 1−r, r, … counted from the leaf; no other node changes; `children` unchanged |
| MctsPoker.Mcts.Select | _old/mcts_poker.py:58-71 | a non-empty path from `node`, each step to a child of an expanded node; every node before the last is fully expanded, except one whose unexplored child ends the path; it ends at a node that is unexpanded or childless; a path whenever `node` is unexpanded, childless or has an unexpanded child; no path only after `fuel + 1` expanded nodes with all children expanded |
| MctsPoker.Mcts.Choose | _old/mcts_poker.py:35-48 | RuntimeError on a terminal node; the random child of an unexpanded node; ValueError for no children; else a child of maximal average reward (unvisited ones score minus infinity); counts and rewards read the same afterwards |

## Left out

- The `treys` hand evaluator (`Evaluator().evaluate`, `get_rank_class`) is a library outside the repository. `EvalPoker.Evaluator` is any pair of total functions, the class a natural number (treys numbers its classes from 1). The model never raises from `evaluate` or `get_rank_class`, for instance on a board that is not three to five cards; the lookup tables are not part of this model.
- `eval_poker.py` imports `Card` from the `treys` package. The model uses `card.py`'s `Card.new`, which follows the same Cactus Kev layout.
- Randomness is a parameter (`Rng`, `TrialRng`). The statements hold for every sequence of draws; how draws are distributed, and hence the convergence of the estimated equity, is not modelled.
- Deck.Shuffle: CPython's `random.shuffle` draws `randbelow(i + 1)` for `i` from the end down. Each draw is `rng(i) % (i + 1)`, so the exact bit-level draws of the Mersenne Twister are not modelled.
- Floating point:
  - the win rate `wins / total_games`, `round`, and the running averages;
  - the UCT formula of `_uct_select`, with `math.log` and `math.sqrt`.
  
  Rewards and the `choose` score are exact reals.
- EvalPoker.SimulateWinPercent: returns the tally instead of a value. The source's `return avg` is commented out and the function returns None. Printing, `tqdm` progress bars, `win_rates` and the matplotlib plot are output only. The `print_sim`/`print_ravg` flags only print.
- EvalPoker.RunTrials, EvalPoker.SimulateWinPercent: the recorded deals are stated as drawn from the remaining cards and shaped as the source deals them; which deal the draws `trials(k)` produce from the array's order after the earlier shuffles is not stated.
- EvalPoker.GetWinner: only the `fast` path. The other path only prints and returns None.
- EvalPoker.DealTrial: a known board of more than five cards is modelled as ValueError. With exactly two opponents, the unpacking of the hand list succeeds instead, and the evaluator is then handed an integer as a hand. What that evaluator call does is not visible here.
- EvalPoker.GetRandomHands, EvalPoker.DealTrial, EvalPoker.SimulateWinPercent: the number of opponents is a `nat`. A negative count, which `range` treats as zero, is not modelled.
- Strings.Lower and Strings.UpperChar: `str.lower` is modelled for ASCII letters and the Kelvin sign (the one non-ASCII character that lowers to a deck letter), `str.upper` for ASCII letters. Other Unicode case mappings are not modelled.
- MctsPoker.Mcts.Select: which unexpanded child `set.pop()` takes and which child `_uct_select` descends to are left open. Any child may be taken. `fuel` bounds the number of descents; the source can loop for ever on a cyclic graph.
- MctsPoker.Mcts.Choose: `max` returns the first maximal child in set iteration order. The model returns some maximal child.
- `MCTS.do_rollout`, `_simulate` and `_uct_select` are not part of this model. They need the game's `Node` implementation and the float UCT score. The `Node` methods `is_terminal`, `find_children` and `find_random_child` are function parameters.
- `_old/poker_game.py` outside the modelled functions is not part of this model:
  - the module-level scripts and the pickled state;
  - `generate_game` and `get_win_rate`, which depend on globals;
  - `subtract`, which compares `(index, card)` tuples with strings, so it never filters anything;
  - the stray prose that keeps the file from parsing.
- The `PokerGame` class of `_old/mcts_poker.py` is not part of this model. It uses fields that do not exist.
- The pretty-printing helpers of `card.py` are not part of this model.
- `main.py` and `_old/main.py` (web endpoints, pot odds), `graph.py`, `test.py` and `example.py` are not part of this model.
