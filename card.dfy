/**
 * The card codec: a two-character token such as "Ah" packed into one integer
 * word, after Kevin Suffecool's ("Cactus Kev") poker evaluator.
 *
 *     bits 16-28  bit-rank: one bit, at position `rank`
 *     bits 12-15  suit, one-hot: spades 1, hearts 2, diamonds 4, clubs 8
 *     bits  8-11  rank: deuce 0 .. ace 12
 *     bits  0-5   the prime of the rank: deuce 2 .. ace 41
 *
 * Words are Python integers. A shift right by `k` followed by a mask of `m`
 * low bits is `(c / 2^k) % 2^m`: Dafny's `/` and `%` with a positive divisor
 * round down and leave a non-negative remainder, as Python's `>>` and `&` do
 * on every integer, negative ones included.
 */
module CardCodec {
  import opened Outcomes

  type CardInt = int

  const STR_RANKS: string := "23456789TJQKA"
  const STR_SUITS: string := "shdc"
  const PRIMES: seq<nat> := [2, 3, 5, 7, 11, 13, 17, 19, 23, 29, 31, 37, 41]

  /** Rank character to rank: only the upper-case letters are keys. */
  const CHAR_RANK_TO_INT_RANK: map<char, nat> := map[
    '2' := 0, '3' := 1, '4' := 2, '5' := 3, '6' := 4, '7' := 5, '8' := 6,
    '9' := 7, 'T' := 8, 'J' := 9, 'Q' := 10, 'K' := 11, 'A' := 12]

  /** Suit character to one-hot suit: the ASCII letters and four suit glyphs. */
  const CHAR_SUIT_TO_INT_SUIT: map<char, nat> := map[
    's' := 1, 'h' := 2, 'd' := 4, 'c' := 8,
    '\U{2660}' := 1, '\U{2764}' := 2, '\U{2666}' := 4, '\U{2663}' := 8]

  /** One-hot suit to its ASCII letter; 'x' at the positions that are no suit. */
  const INT_SUIT_TO_CHAR_SUIT: string := "xshxdxxxc"

  predicate IsSuit(suit: int) {
    suit == 1 || suit == 2 || suit == 4 || suit == 8
  }

  /** `1 << n`. */
  function Pow2(n: nat): (r: nat)
    ensures r >= 1
  {
    if n == 0 then 1 else 2 * Pow2(n - 1)
  }

  /** Bit `i` of `x` is set: `x & (1 << i) != 0`. */
  predicate Bit(x: int, i: nat)
    decreases i
  {
    if i == 0 then x % 2 == 1 else Bit(x / 2, i - 1)
  }

  /**
   * `1 << rank << 16 | suit << 12 | rank << 8 | prime`. Each field lies below
   * the shift of the next one, so or-ing the fields adds them.
   */
  function Encode(rank: nat, suit: nat): CardInt
    requires rank < 13
  {
    Pow2(rank) * 65536 + suit * 4096 + rank * 256 + PRIMES[rank]
  }

  /** `(c >> 8) & 0xF` */
  function GetRankInt(c: CardInt): (r: nat)
    ensures r < 16
  {
    (c / 256) % 16
  }

  /** `(c >> 12) & 0xF` */
  function GetSuitInt(c: CardInt): (r: nat)
    ensures r < 16
  {
    (c / 4096) % 16
  }

  /** `(c >> 16) & 0x1FFF` */
  function GetBitrankInt(c: CardInt): (r: nat)
    ensures r < 8192
  {
    (c / 65536) % 8192
  }

  /** `c & 0x3F` */
  function GetPrime(c: CardInt): (r: nat)
    ensures r < 64
  {
    c % 64
  }

  /** A word some token encodes to. */
  predicate IsCard(c: CardInt) {
    GetRankInt(c) < 13 && IsSuit(GetSuitInt(c)) && c == Encode(GetRankInt(c), GetSuitInt(c))
  }

  lemma DivModField(q: int, r: int, d: int)
    requires d == 16 || d == 64 || d == 256 || d == 4096 || d == 8192 || d == 65536
    requires 0 <= r < d
    ensures (q * d + r) / d == q && (q * d + r) % d == r
  {
    if d == 16 {} else if d == 64 {} else if d == 256 {} else if d == 4096 {} else if d == 8192 {} else {}
  }

  lemma {:induction false} Pow2Below(n: nat)
    requires n < 13
    ensures Pow2(n) <= 4096
  {
    if n > 0 {
      Pow2Below(n - 1);
      if n < 12 { assert Pow2(n - 1) <= 1024 by { Pow2Small(n - 1, 10); } }
    }
  }

  lemma {:induction false} Pow2Small(n: nat, k: nat)
    requires n <= k <= 12
    ensures Pow2(n) <= Pow2(k)
    decreases k - n
  {
    if n < k { Pow2Small(n + 1, k); }
  }

  /** The four fields of a word are independent: each extractor recovers its own. */
  lemma {:induction false} WordFields(b: int, suit: int, rank: int, p: int)
    requires 0 <= b < 8192 && 0 <= suit < 16 && 0 <= rank < 16 && 0 <= p < 64
    ensures GetRankInt(b * 65536 + suit * 4096 + rank * 256 + p) == rank
    ensures GetSuitInt(b * 65536 + suit * 4096 + rank * 256 + p) == suit
    ensures GetBitrankInt(b * 65536 + suit * 4096 + rank * 256 + p) == b
    ensures GetPrime(b * 65536 + suit * 4096 + rank * 256 + p) == p
    ensures (b * 65536 + suit * 4096 + rank * 256 + p) % 256 == p
  {
    var x := b * 65536 + suit * 4096 + rank * 256 + p;
    assert x == (b * 256 + suit * 16 + rank) * 256 + p;
    DivModField(b * 256 + suit * 16 + rank, p, 256);
    assert b * 256 + suit * 16 + rank == (b * 16 + suit) * 16 + rank;
    DivModField(b * 16 + suit, rank, 16);
    assert x == (b * 16 + suit) * 4096 + (rank * 256 + p);
    DivModField(b * 16 + suit, rank * 256 + p, 4096);
    DivModField(b, suit, 16);
    assert x == b * 65536 + (suit * 4096 + rank * 256 + p);
    DivModField(b, suit * 4096 + rank * 256 + p, 65536);
    DivModField(0, b, 8192);
    assert x == (b * 1024 + suit * 64 + rank * 4) * 64 + p;
    DivModField(b * 1024 + suit * 64 + rank * 4, p, 64);
  }

  /** What each extractor reads back from an encoded card. */
  lemma EncodeFields(rank: nat, suit: nat)
    requires rank < 13 && IsSuit(suit)
    ensures GetRankInt(Encode(rank, suit)) == rank
    ensures GetSuitInt(Encode(rank, suit)) == suit
    ensures GetBitrankInt(Encode(rank, suit)) == Pow2(rank)
    ensures GetPrime(Encode(rank, suit)) == PRIMES[rank]
    ensures Encode(rank, suit) % 256 == PRIMES[rank]
    ensures IsCard(Encode(rank, suit))
  {
    var b, p := Pow2(rank), PRIMES[rank];
    Pow2Below(rank);
    assert p < 64;
    WordFields(b, suit, rank, p);
    assert Encode(rank, suit) == b * 65536 + suit * 4096 + rank * 256 + p;
  }

  lemma RankTable(c: char)
    ensures c in CHAR_RANK_TO_INT_RANK <==> c in STR_RANKS
    ensures c in CHAR_RANK_TO_INT_RANK ==>
      CHAR_RANK_TO_INT_RANK[c] < 13 && STR_RANKS[CHAR_RANK_TO_INT_RANK[c]] == c
  {
  }

  lemma SuitTable(c: char)
    ensures c in CHAR_SUIT_TO_INT_SUIT ==> IsSuit(CHAR_SUIT_TO_INT_SUIT[c])
    ensures c in STR_SUITS ==> c in CHAR_SUIT_TO_INT_SUIT && INT_SUIT_TO_CHAR_SUIT[CHAR_SUIT_TO_INT_SUIT[c]] == c
  {
  }

  /**
   * `Card.new`: the word of a token. Only the first two characters are read;
   * a shorter token raises IndexError and an unknown rank or suit KeyError.
   */
  function New(s: string): (r: Result<CardInt>)
    ensures r == Err(IndexError) <==> |s| < 2
    ensures r == Err(KeyError) <==> |s| >= 2 && (s[0] !in STR_RANKS || s[1] !in CHAR_SUIT_TO_INT_SUIT)
    ensures r.Ok? ==> IsCard(r.value)
    ensures r.Ok? ==> STR_RANKS[GetRankInt(r.value)] == s[0]
    ensures r.Ok? ==> GetSuitInt(r.value) == CHAR_SUIT_TO_INT_SUIT[s[1]]
    ensures r.Ok? ==> GetPrime(r.value) == PRIMES[GetRankInt(r.value)]
    ensures r.Ok? ==> GetBitrankInt(r.value) == Pow2(GetRankInt(r.value))
  {
    if |s| < 2 then Err(IndexError)
    else
      var rankChar := s[0];
      var suitChar := s[1];
      RankTable(rankChar);
      SuitTable(suitChar);
      if rankChar !in CHAR_RANK_TO_INT_RANK then Err(KeyError)
      else if suitChar !in CHAR_SUIT_TO_INT_SUIT then Err(KeyError)
      else
        var rankInt := CHAR_RANK_TO_INT_RANK[rankChar];
        var suitInt := CHAR_SUIT_TO_INT_SUIT[suitChar];
        EncodeFields(rankInt, suitInt);
        Ok(Encode(rankInt, suitInt))
  }

  /**
   * `Card.int_to_str`: the rank letter and the ASCII suit letter of a word.
   * A rank field above 12 or a suit field above 8 indexes past the end of its
   * table; a suit field that is no one-hot suit prints as 'x'.
   */
  function IntToStr(c: CardInt): (r: Result<string>)
    ensures r.Ok? <==> GetRankInt(c) < 13 && GetSuitInt(c) < 9
    ensures r.Err? ==> r.error == IndexError
    ensures r.Ok? ==> |r.value| == 2 && r.value[0] in CHAR_RANK_TO_INT_RANK &&
                      CHAR_RANK_TO_INT_RANK[r.value[0]] == GetRankInt(c)
    ensures r.Ok? ==> (r.value[1] in STR_SUITS <==> IsSuit(GetSuitInt(c)))
    ensures r.Ok? && !IsSuit(GetSuitInt(c)) ==> r.value[1] == 'x'
    ensures r.Ok? && IsSuit(GetSuitInt(c)) ==>
      r.value[1] in CHAR_SUIT_TO_INT_SUIT && CHAR_SUIT_TO_INT_SUIT[r.value[1]] == GetSuitInt(c)
  {
    var rankInt := GetRankInt(c);
    var suitInt := GetSuitInt(c);
    if rankInt >= |STR_RANKS| then Err(IndexError)
    else if suitInt >= |INT_SUIT_TO_CHAR_SUIT| then Err(IndexError)
    else
      RankInverse(rankInt);
      SuitLetter(suitInt);
      Ok([STR_RANKS[rankInt], INT_SUIT_TO_CHAR_SUIT[suitInt]])
  }

  /** The suit table prints a suit letter exactly at the one-hot suits, and 'x' elsewhere. */
  lemma SuitLetter(suit: nat)
    requires suit < 9
    ensures INT_SUIT_TO_CHAR_SUIT[suit] in STR_SUITS <==> IsSuit(suit)
    ensures !IsSuit(suit) ==> INT_SUIT_TO_CHAR_SUIT[suit] == 'x'
    ensures IsSuit(suit) ==> INT_SUIT_TO_CHAR_SUIT[suit] in CHAR_SUIT_TO_INT_SUIT &&
                             CHAR_SUIT_TO_INT_SUIT[INT_SUIT_TO_CHAR_SUIT[suit]] == suit
  {
    if IsSuit(suit) {
      SuitInverse(suit);
    }
    if suit < 3 {
    } else if suit < 6 {
    } else {
    }
  }

  /** A token with an upper-case rank and an ASCII suit survives encoding and decoding. */
  lemma TokenRoundTrip(s: string)
    requires |s| == 2 && s[0] in STR_RANKS && s[1] in STR_SUITS
    ensures New(s).Ok? && IntToStr(New(s).value) == Ok(s)
  {
    SuitTable(s[1]);
    var c := New(s).value;
    assert INT_SUIT_TO_CHAR_SUIT[GetSuitInt(c)] == s[1];
    assert IntToStr(c) == Ok([s[0], s[1]]);
    assert [s[0], s[1]] == s;
  }

  /** Every encoded card decodes to a token that encodes back to it. */
  lemma CardRoundTrip(c: CardInt)
    requires IsCard(c)
    ensures IntToStr(c).Ok?
    ensures IntToStr(c).value[1] in STR_SUITS
    ensures New(IntToStr(c).value) == Ok(c)
  {
    var rank, suit := GetRankInt(c), GetSuitInt(c);
    RankInverse(rank);
    SuitInverse(suit);
  }

  /** The rank letter of a rank maps back to that rank. */
  lemma RankInverse(rank: nat)
    requires rank < 13
    ensures STR_RANKS[rank] in CHAR_RANK_TO_INT_RANK && CHAR_RANK_TO_INT_RANK[STR_RANKS[rank]] == rank
  {
    if rank < 4 {
    } else if rank < 8 {
    } else if rank < 11 {
    } else {
    }
  }

  /** The ASCII letter of a suit is a suit letter and maps back to that suit. */
  lemma SuitInverse(suit: nat)
    requires IsSuit(suit)
    ensures INT_SUIT_TO_CHAR_SUIT[suit] in STR_SUITS
    ensures INT_SUIT_TO_CHAR_SUIT[suit] in CHAR_SUIT_TO_INT_SUIT
    ensures CHAR_SUIT_TO_INT_SUIT[INT_SUIT_TO_CHAR_SUIT[suit]] == suit
  {
  }

  /** Two tokens encode to the same word exactly when they name the same rank and suit. */
  lemma NewInjective(s1: string, s2: string)
    requires New(s1).Ok? && New(s2).Ok?
    ensures New(s1) == New(s2) <==>
      s1[0] == s2[0] && CHAR_SUIT_TO_INT_SUIT[s1[1]] == CHAR_SUIT_TO_INT_SUIT[s2[1]]
  {
    RankTable(s1[0]);
    RankTable(s2[0]);
  }

  /** `Card.new` reads only the rank character and the suit value of its suit character. */
  lemma NewBySuitValue(s1: string, s2: string)
    requires |s1| >= 2 && |s2| >= 2 && s1[0] == s2[0]
    requires s1[1] in CHAR_SUIT_TO_INT_SUIT && s2[1] in CHAR_SUIT_TO_INT_SUIT
    requires CHAR_SUIT_TO_INT_SUIT[s1[1]] == CHAR_SUIT_TO_INT_SUIT[s2[1]]
    ensures New(s1) == New(s2)
  {
  }

  /** A suit glyph encodes exactly like the ASCII letter of its suit. */
  lemma GlyphSuits(rank: char)
    ensures New([rank, '\U{2660}']) == New([rank, 's'])
    ensures New([rank, '\U{2764}']) == New([rank, 'h'])
    ensures New([rank, '\U{2666}']) == New([rank, 'd'])
    ensures New([rank, '\U{2663}']) == New([rank, 'c'])
  {
    NewBySuitValue([rank, '\U{2660}'], [rank, 's']);
    NewBySuitValue([rank, '\U{2764}'], [rank, 'h']);
    NewBySuitValue([rank, '\U{2666}'], [rank, 'd']);
    NewBySuitValue([rank, '\U{2663}'], [rank, 'c']);
  }

  /** `Card.hand_to_binary`: every token encoded, in order; the first bad token raises. */
  method HandToBinary(cardStrs: seq<string>) returns (r: Result<seq<CardInt>>)
    ensures r.Ok? <==> forall i :: 0 <= i < |cardStrs| ==> New(cardStrs[i]).Ok?
    ensures r.Ok? ==> |r.value| == |cardStrs|
    ensures r.Ok? ==> forall i :: 0 <= i < |cardStrs| ==> New(cardStrs[i]) == Ok(r.value[i])
    ensures r.Err? ==> exists i :: 0 <= i < |cardStrs| && New(cardStrs[i]) == Err(r.error) &&
                        forall j :: 0 <= j < i ==> New(cardStrs[j]).Ok?
  {
    var bhand: seq<CardInt> := [];
    for i := 0 to |cardStrs|
      invariant |bhand| == i
      invariant forall j :: 0 <= j < i ==> New(cardStrs[j]) == Ok(bhand[j])
    {
      var c := New(cardStrs[i]);
      if c.Err? {
        assert forall j :: 0 <= j < i ==> New(cardStrs[j]).Ok?;
        return Err(c.error);
      }
      bhand := bhand + [c.value];
    }
    return Ok(bhand);
  }

  /** The product of the low bytes (`c & 0xFF`) of the words. */
  function LowByteProduct(cs: seq<CardInt>): nat {
    if cs == [] then 1 else LowByteProduct(cs[..|cs| - 1]) * (cs[|cs| - 1] % 256)
  }

  /** The product of the primes of the ranks of the cards. */
  function RankPrimeProduct(cs: seq<CardInt>): nat
    requires forall i :: 0 <= i < |cs| ==> IsCard(cs[i])
  {
    if cs == [] then 1
    else
      var last := cs[|cs| - 1];
      assert IsCard(last);
      RankPrimeProduct(cs[..|cs| - 1]) * PRIMES[GetRankInt(last)]
  }

  /** The low byte of an encoded card is its prime: the rank and suit fields lie above it. */
  lemma {:induction false} LowBytesArePrimes(cs: seq<CardInt>)
    requires forall i :: 0 <= i < |cs| ==> IsCard(cs[i])
    ensures LowByteProduct(cs) == RankPrimeProduct(cs)
  {
    if cs != [] {
      var last := cs[|cs| - 1];
      LowBytesArePrimes(cs[..|cs| - 1]);
      EncodeFields(GetRankInt(last), GetSuitInt(last));
    }
  }

  /** `Card.prime_product_from_hand`: for encoded cards, the product of their rank primes. */
  method PrimeProductFromHand(cardInts: seq<CardInt>) returns (product: nat)
    ensures product == LowByteProduct(cardInts)
    ensures (forall i :: 0 <= i < |cardInts| ==> IsCard(cardInts[i])) ==>
      product == RankPrimeProduct(cardInts)
  {
    product := 1;
    for i := 0 to |cardInts|
      invariant product == LowByteProduct(cardInts[..i])
    {
      assert cardInts[..i + 1][..i] == cardInts[..i];
      product := product * (cardInts[i] % 256);
    }
    assert cardInts[..|cardInts|] == cardInts;
    if forall i :: 0 <= i < |cardInts| ==> IsCard(cardInts[i]) {
      LowBytesArePrimes(cardInts);
    }
  }

  /** The product of the primes of the ranks `i < n` whose bit is set in `rankbits`. */
  function RankbitsPrimeProduct(rankbits: int, n: nat): nat
    requires n <= 13
  {
    if n == 0 then 1
    else RankbitsPrimeProduct(rankbits, n - 1) * (if Bit(rankbits, n - 1) then PRIMES[n - 1] else 1)
  }

  /** `Card.prime_product_from_rankbits`: the primes of the ranks whose bit is set, multiplied. */
  method PrimeProductFromRankbits(rankbits: int) returns (product: nat)
    ensures product == RankbitsPrimeProduct(rankbits, 13)
  {
    product := 1;
    for i := 0 to 13
      invariant product == RankbitsPrimeProduct(rankbits, i)
    {
      if Bit(rankbits, i) {
        product := product * PRIMES[i];
      }
    }
  }

  /** `a | b` on non-negative integers. */
  function BitOr(a: nat, b: nat): nat
    decreases a + b
  {
    if a == 0 then b
    else if b == 0 then a
    else 2 * BitOr(a / 2, b / 2) + (if a % 2 == 1 || b % 2 == 1 then 1 else 0)
  }

  lemma {:induction false} NoBitOfZero(i: nat)
    ensures !Bit(0, i)
  {
    if i > 0 { NoBitOfZero(i - 1); }
  }

  lemma {:induction false} BitOfOr(a: nat, b: nat, i: nat)
    ensures Bit(BitOr(a, b), i) <==> Bit(a, i) || Bit(b, i)
    decreases i
  {
    NoBitOfZero(i);
    if a != 0 && b != 0 {
      HalfOf(BitOr(a / 2, b / 2), if a % 2 == 1 || b % 2 == 1 then 1 else 0);
      if i > 0 {
        BitOfOr(a / 2, b / 2, i - 1);
      }
    }
  }

  /** Shifting `2 * x + d` right by one gives `x` back, and its low bit is `d`. */
  lemma HalfOf(x: nat, d: nat)
    requires d < 2
    ensures (2 * x + d) / 2 == x && (2 * x + d) % 2 == d
  {
  }

  lemma {:induction false} BitOfPow2(r: nat, i: nat)
    ensures Bit(Pow2(r), i) <==> i == r
    decreases r
  {
    if r == 0 {
      if i > 0 { NoBitOfZero(i - 1); }
    } else if i > 0 {
      assert Pow2(r) / 2 == Pow2(r - 1);
      BitOfPow2(r - 1, i - 1);
    }
  }

  /** The bit-ranks of the cards or-ed together: the rankbits of a hand. */
  function OrBitranks(cs: seq<CardInt>): nat {
    if cs == [] then 0 else BitOr(OrBitranks(cs[..|cs| - 1]), GetBitrankInt(cs[|cs| - 1]))
  }

  /** The ranks of the cards. */
  function RanksOf(cs: seq<CardInt>): set<nat> {
    set i | 0 <= i < |cs| :: GetRankInt(cs[i])
  }

  ghost predicate DistinctRanks(cs: seq<CardInt>) {
    forall i, j :: 0 <= i < j < |cs| ==> GetRankInt(cs[i]) != GetRankInt(cs[j])
  }

  /** The product of the primes of the ranks below `n` that are in `ranks`. */
  function RankSetProduct(ranks: set<nat>, n: nat): nat
    requires n <= 13
  {
    if n == 0 then 1 else RankSetProduct(ranks, n - 1) * (if n - 1 in ranks then PRIMES[n - 1] else 1)
  }

  lemma RanksOfSnoc(cs: seq<CardInt>)
    requires cs != []
    ensures RanksOf(cs) == RanksOf(cs[..|cs| - 1]) + {GetRankInt(cs[|cs| - 1])}
  {
    var init := cs[..|cs| - 1];
    forall r ensures r in RanksOf(cs) <==> r in RanksOf(init) + {GetRankInt(cs[|cs| - 1])} {
      if r in RanksOf(cs) {
        var k :| 0 <= k < |cs| && GetRankInt(cs[k]) == r;
        if k < |cs| - 1 { assert init[k] == cs[k]; }
      }
      if r in RanksOf(init) {
        var k :| 0 <= k < |init| && GetRankInt(init[k]) == r;
        assert cs[k] == init[k];
      }
    }
  }

  /** Bit `i` of the rankbits of encoded cards is set exactly when one of them has rank `i`. */
  lemma {:induction false} RankbitSet(cs: seq<CardInt>, i: nat)
    requires forall k :: 0 <= k < |cs| ==> IsCard(cs[k])
    ensures Bit(OrBitranks(cs), i) <==> i in RanksOf(cs)
  {
    if cs == [] {
      NoBitOfZero(i);
    } else {
      var init, last := cs[..|cs| - 1], cs[|cs| - 1];
      RankbitSet(init, i);
      EncodeFields(GetRankInt(last), GetSuitInt(last));
      BitOfOr(OrBitranks(init), GetBitrankInt(last), i);
      BitOfPow2(GetRankInt(last), i);
      RanksOfSnoc(cs);
    }
  }

  lemma {:induction false} RankbitsAreRankSet(rankbits: int, ranks: set<nat>, n: nat)
    requires n <= 13
    requires forall i :: 0 <= i < n ==> (Bit(rankbits, i) <==> i in ranks)
    ensures RankbitsPrimeProduct(rankbits, n) == RankSetProduct(ranks, n)
  {
    if n > 0 {
      RankbitsAreRankSet(rankbits, ranks, n - 1);
    }
  }

  lemma {:induction false} EmptyRankSetProduct(n: nat)
    requires n <= 13
    ensures RankSetProduct({}, n) == 1
  {
    if n > 0 { EmptyRankSetProduct(n - 1); }
  }

  lemma MulSwap(p: int, g: int, f: int)
    ensures (p * g) * f == (p * f) * g
  {
  }

  lemma {:induction false} RankSetProductAdd(ranks: set<nat>, r: nat, n: nat)
    requires r < 13 && r !in ranks && n <= 13
    ensures RankSetProduct(ranks + {r}, n) == RankSetProduct(ranks, n) * (if r < n then PRIMES[r] else 1)
  {
    if n > 0 {
      RankSetProductAdd(ranks, r, n - 1);
      var p := RankSetProduct(ranks, n - 1);
      var q := RankSetProduct(ranks + {r}, n - 1);
      var f := if n - 1 in ranks then PRIMES[n - 1] else 1;
      var g := if r < n - 1 then PRIMES[r] else 1;
      assert q == p * g;
      if r == n - 1 {
        assert RankSetProduct(ranks + {r}, n) == q * PRIMES[r];
        assert RankSetProduct(ranks, n) == p;
      } else {
        assert RankSetProduct(ranks + {r}, n) == q * f;
        assert RankSetProduct(ranks, n) == p * f;
        MulSwap(p, g, f);
      }
    }
  }

  lemma {:induction false} DistinctRankProduct(cs: seq<CardInt>)
    requires forall k :: 0 <= k < |cs| ==> IsCard(cs[k])
    requires DistinctRanks(cs)
    ensures RankSetProduct(RanksOf(cs), 13) == RankPrimeProduct(cs)
  {
    if cs == [] {
      assert RanksOf(cs) == {};
      EmptyRankSetProduct(13);
    } else {
      var init, last := cs[..|cs| - 1], cs[|cs| - 1];
      assert DistinctRanks(init) by {
        forall i, j | 0 <= i < j < |init| ensures GetRankInt(init[i]) != GetRankInt(init[j]) {
          assert init[i] == cs[i] && init[j] == cs[j];
        }
      }
      DistinctRankProduct(init);
      RanksOfSnoc(cs);
      assert GetRankInt(last) !in RanksOf(init) by {
        forall k | 0 <= k < |init| ensures GetRankInt(init[k]) != GetRankInt(last) {
          assert init[k] == cs[k];
        }
      }
      RankSetProductAdd(RanksOf(init), GetRankInt(last), 13);
      assert RankSetProduct(RanksOf(cs), 13)
          == RankSetProduct(RanksOf(init) + {GetRankInt(last)}, 13)
          == RankSetProduct(RanksOf(init), 13) * PRIMES[GetRankInt(last)];
      assert RankPrimeProduct(cs) == RankPrimeProduct(init) * PRIMES[GetRankInt(last)];
    }
  }

  /**
   * For cards of pairwise distinct ranks (a flush or a straight), the prime
   * product taken from the or-ed bit-ranks equals the one taken card by card.
   */
  lemma RankbitsProductMatchesHand(cs: seq<CardInt>)
    requires forall k :: 0 <= k < |cs| ==> IsCard(cs[k])
    requires DistinctRanks(cs)
    ensures RankbitsPrimeProduct(OrBitranks(cs), 13) == LowByteProduct(cs)
  {
    forall i | 0 <= i < 13 ensures Bit(OrBitranks(cs), i) <==> i in RanksOf(cs) {
      RankbitSet(cs, i);
    }
    RankbitsAreRankSet(OrBitranks(cs), RanksOf(cs), 13);
    DistinctRankProduct(cs);
    LowBytesArePrimes(cs);
  }
}
