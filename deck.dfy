/**
 * The 52-card deck of string tokens (`"2s"`, `"tc"`, `"ad"`, ...) as the two
 * identical `get_deck` functions build it, `random.shuffle` on a list, and
 * dealing by repeated `list.pop(random.randint(0, len(list) - 1))`.
 */
module Deck {
  import opened Outcomes

  /** The rank characters in the order the deck builder visits them. */
  const DECK_RANKS: string := "23456789tjqka"
  /** The suit characters in the order the deck builder visits them. */
  const DECK_SUITS: string := "schd"

  /** The `i`-th token the deck builder visits: suits outside, ranks inside. */
  function Token(i: nat): string
    requires i < 52
  {
    [DECK_RANKS[i % 13], DECK_SUITS[i / 13]]
  }

  /** Every token, in the order the deck builder visits them. */
  function FullDeck(): (r: seq<string>)
    ensures |r| == 52
  {
    seq(52, i requires 0 <= i < 52 => Token(i))
  }

  predicate IsDeckToken(t: string) {
    |t| == 2 && t[0] in DECK_RANKS && t[1] in DECK_SUITS
  }

  predicate NoDup<T(==)>(s: seq<T>) {
    forall i, j :: 0 <= i < j < |s| ==> s[i] != s[j]
  }

  /** The elements of `xs` that are not in `exclude`, in order. */
  function Filter(xs: seq<string>, exclude: seq<string>): (r: seq<string>)
    ensures forall t :: t in r <==> t in xs && t !in exclude
    ensures NoDup(xs) ==> NoDup(r)
  {
    if xs == [] then []
    else
      var init, last := xs[..|xs| - 1], xs[|xs| - 1];
      assert forall t :: t in xs <==> t in init || t == last;
      assert NoDup(xs) ==> NoDup(init) && last !in init;
      if last in exclude then Filter(init, exclude) else Filter(init, exclude) + [last]
  }

  lemma RankCharsDistinct(a: nat, b: nat)
    requires a < 13 && b < 13 && a != b
    ensures DECK_RANKS[a] != DECK_RANKS[b]
  {
  }

  /** The 52 tokens are pairwise distinct. */
  lemma FullDeckNoDup()
    ensures NoDup(FullDeck())
  {
    forall i, j | 0 <= i < j < 52 ensures FullDeck()[i] != FullDeck()[j] {
      var ri, si, rj, sj := i % 13, i / 13, j % 13, j / 13;
      assert i == 13 * si + ri && j == 13 * sj + rj;
      if si == sj {
        RankCharsDistinct(ri, rj);
        assert Token(i)[0] != Token(j)[0];
      } else {
        assert Token(i)[1] != Token(j)[1];
      }
    }
  }

  /** The deck holds exactly the two-character tokens of a deck rank and a deck suit. */
  lemma FullDeckTokens(t: string)
    ensures t in FullDeck() <==> IsDeckToken(t)
  {
    if IsDeckToken(t) {
      var a :| 0 <= a < 13 && DECK_RANKS[a] == t[0];
      var b :| 0 <= b < 4 && DECK_SUITS[b] == t[1];
      var i := 13 * b + a;
      assert i % 13 == a && i / 13 == b;
      assert FullDeck()[i] == Token(i) == t;
    }
  }

  /** In a list without repeats, every element occurs once. */
  lemma NoDupCount<T>(s: seq<T>, x: T)
    requires NoDup(s)
    ensures multiset(s)[x] == if x in s then 1 else 0
  {
    if s != [] {
      var init := s[..|s| - 1];
      assert s == init + [s[|s| - 1]];
      NoDupCount(init, x);
    }
  }

  /** A list whose multiset counts nothing twice has no repeats. */
  lemma CountNoDup<T>(s: seq<T>)
    requires forall x :: multiset(s)[x] <= 1
    ensures NoDup(s)
  {
    forall i, j | 0 <= i < j < |s| ensures s[i] != s[j] {
      var x := s[i];
      assert s == s[..i] + [s[i]] + s[i + 1..j] + [s[j]] + s[j + 1..];
      assert multiset(s)[x] >= multiset([s[i]])[x] + multiset([s[j]])[x];
    }
  }

  /**
   * The deck `get_deck(exclude)` shuffles: each of the 52 tokens that is not
   * in `exclude` exactly once. An absent exclusion list is the empty one.
   */
  lemma DeckCounts(exclude: seq<string>, t: string)
    ensures multiset(Filter(FullDeck(), exclude))[t] == if IsDeckToken(t) && t !in exclude then 1 else 0
  {
    FullDeckNoDup();
    FullDeckTokens(t);
    NoDupCount(Filter(FullDeck(), exclude), t);
  }

  /** `s` with the elements at `i` and `j` exchanged. */
  function Swap<T>(s: seq<T>, i: nat, j: nat): (r: seq<T>)
    requires i < |s| && j < |s|
    ensures |r| == |s|
  {
    s[i := s[j]][j := s[i]]
  }

  /** An exchange only rearranges. */
  lemma SwapPermutes<T>(s: seq<T>, i: nat, j: nat)
    requires i < |s| && j < |s|
    ensures multiset(Swap(s, i, j)) == multiset(s)
  {
  }

  /**
   * Positions `i`, `i - 1`, ..., 1 of CPython's `random.shuffle`: position
   * `p` is exchanged with the one at the `p`-th draw below `p + 1`.
   */
  function ShuffleFrom<T>(s: seq<T>, rng: Rng, i: int): (r: seq<T>)
    requires i < |s|
    ensures |r| == |s|
    decreases i
  {
    if i <= 0 then s else ShuffleFrom(Swap(s, i, Draw(rng, i, i + 1)), rng, i - 1)
  }

  /** `random.shuffle(s)` with the draws `rng` supplies. */
  function Shuffled<T>(s: seq<T>, rng: Rng): seq<T> {
    ShuffleFrom(s, rng, |s| - 1)
  }

  /** Shuffling only rearranges: the result is a permutation of its input. */
  lemma {:induction false} ShuffleFromPermutes<T>(s: seq<T>, rng: Rng, i: int)
    requires i < |s|
    ensures multiset(ShuffleFrom(s, rng, i)) == multiset(s)
    decreases i
  {
    if i > 0 {
      SwapPermutes(s, i, Draw(rng, i, i + 1));
      ShuffleFromPermutes(Swap(s, i, Draw(rng, i, i + 1)), rng, i - 1);
    }
  }

  lemma ShuffledPermutes<T>(s: seq<T>, rng: Rng)
    ensures |Shuffled(s, rng)| == |s|
    ensures multiset(Shuffled(s, rng)) == multiset(s)
  {
    ShuffleFromPermutes(s, rng, |s| - 1);
  }

  /** `random.shuffle(a)`, in place. */
  method Shuffle<T>(a: array<T>, rng: Rng)
    modifies a
    ensures a[..] == Shuffled(old(a[..]), rng)
    ensures multiset(a[..]) == multiset(old(a[..]))
  {
    var i := a.Length - 1;
    while i > 0
      invariant -1 <= i < a.Length
      invariant ShuffleFrom(a[..], rng, i) == Shuffled(old(a[..]), rng)
      decreases i
    {
      var j := Draw(rng, i, i + 1);
      ghost var before := a[..];
      a[i], a[j] := a[j], a[i];
      assert a[..] == Swap(before, i, j);
      i := i - 1;
    }
    ShuffledPermutes(old(a[..]), rng);
  }

  /** The builder visits rank `n` of suit `s` as token `13 * s + n`. */
  lemma TokenAt(s: nat, n: nat)
    requires s < 4 && n < 13
    ensures Token(13 * s + n) == [DECK_RANKS[n], DECK_SUITS[s]]
  {
    var k := 13 * s + n;
    assert k / 13 == s && k % 13 == n;
  }

  /** Visiting one token more of the deck keeps it unless it is excluded. */
  lemma FilterStep(exclude: seq<string>, k: nat)
    requires k < 52
    ensures Filter(FullDeck()[..k + 1], exclude) ==
      Filter(FullDeck()[..k], exclude) + if Token(k) in exclude then [] else [Token(k)]
  {
    var p := FullDeck()[..k + 1];
    assert p[..k] == FullDeck()[..k];
    assert p[k] == Token(k);
  }

  /**
   * `get_deck(exclude)`: every token of the full deck that `exclude` does not
   * list, then shuffled.
   */
  method GetDeck(exclude: seq<string>, rng: Rng) returns (deck: seq<string>)
    ensures deck == Shuffled(Filter(FullDeck(), exclude), rng)
    ensures multiset(deck) == multiset(Filter(FullDeck(), exclude))
  {
    var full := Unexcluded(exclude);
    var a := new string[|full|](i requires 0 <= i < |full| reads {} => full[i]);
    assert a[..] == full;
    Shuffle(a, rng);
    deck := a[..];
  }

  /**
   * The two nested loops of `get_deck`, suit by suit and rank by rank,
   * appending each token that `exclude` does not list.
   */
  method Unexcluded(exclude: seq<string>) returns (full: seq<string>)
    ensures full == Filter(FullDeck(), exclude)
  {
    full := [];
    for s := 0 to 4
      invariant full == Filter(FullDeck()[..13 * s], exclude)
    {
      for n := 0 to 13
        invariant full == Filter(FullDeck()[..13 * s + n], exclude)
      {
        var token := [DECK_RANKS[n], DECK_SUITS[s]];
        FilterStep(exclude, 13 * s + n);
        TokenAt(s, n);
        if token !in exclude {
          full := full + [token];
        }
      }
    }
    assert FullDeck()[..52] == FullDeck();
  }

  /**
   * `n` successive `xs.pop(random.randint(0, len(xs) - 1))`, the `t`-th with
   * draw `k + t`, each popped element appended to `popped`: all the popped
   * elements in order and what is left. `randint` raises ValueError on an
   * empty range, so popping from an empty list fails.
   */
  function PopInto<T>(popped: seq<T>, xs: seq<T>, rng: Rng, k: nat, n: nat): (r: Result<(seq<T>, seq<T>)>)
    ensures r.Ok? <==> n <= |xs|
    ensures r.Err? ==> r.error == ValueError
    ensures r.Ok? ==> |r.value.0| == |popped| + n && |r.value.1| == |xs| - n
    decreases n
  {
    if n == 0 then Ok((popped, xs))
    else if xs == [] then Err(ValueError)
    else
      var j := Draw(rng, k, |xs|);
      PopInto(popped + [xs[j]], xs[..j] + xs[j + 1..], rng, k + 1, n - 1)
  }

  /** `n` pops from `xs`: the popped elements in order and what is left. */
  function PopMany<T>(xs: seq<T>, rng: Rng, k: nat, n: nat): (r: Result<(seq<T>, seq<T>)>)
    ensures r.Ok? <==> n <= |xs|
    ensures r.Err? ==> r.error == ValueError
    ensures r.Ok? ==> |r.value.0| == n && |r.value.1| == |xs| - n
  {
    PopInto([], xs, rng, k, n)
  }

  lemma RemoveAt<T>(xs: seq<T>, j: nat)
    requires j < |xs|
    ensures multiset(xs[..j] + xs[j + 1..]) + multiset{xs[j]} == multiset(xs)
  {
    assert xs == xs[..j] + [xs[j]] + xs[j + 1..];
  }

  /** Moving `rest[j]` from the list to the popped elements keeps every element. */
  lemma PopOne<T>(popped: seq<T>, rest: seq<T>, j: nat)
    requires j < |rest|
    ensures multiset(popped + [rest[j]]) + multiset(rest[..j] + rest[j + 1..]) == multiset(popped) + multiset(rest)
  {
    RemoveAt(rest, j);
  }

  /** Popping only moves elements: together, the popped and the left over are the list. */
  lemma {:induction false} PopIntoPermutes<T>(popped: seq<T>, xs: seq<T>, rng: Rng, k: nat, n: nat,
                                               taken: seq<T>, left: seq<T>)
    requires PopInto(popped, xs, rng, k, n) == Ok((taken, left))
    ensures multiset(taken) + multiset(left) == multiset(popped) + multiset(xs)
    decreases n
  {
    if n > 0 {
      var j := Draw(rng, k, |xs|);
      PopIntoPermutes(popped + [xs[j]], xs[..j] + xs[j + 1..], rng, k + 1, n - 1, taken, left);
      PopOne(popped, xs, j);
    }
  }

  /** A Python list that is dealt from by popping. */
  class Pile<T> {
    var items: seq<T>

    constructor (items0: seq<T>)
      ensures items == items0
    {
      items := items0;
    }

    /**
     * `[items.pop(random.randint(0, len(items) - 1)) for _ in range(n)]`. On
     * failure every element has been popped and the list is empty.
     */
    method PopRandom(n: nat, rng: Rng, k: nat) returns (r: Result<seq<T>>)
      modifies this
      ensures r.Ok? ==> PopMany(old(items), rng, k, n) == Ok((r.value, items))
      ensures r.Ok? ==> multiset(r.value) + multiset(items) == multiset(old(items))
      ensures r.Err? ==> PopMany(old(items), rng, k, n) == Err(r.error) && items == []
    {
      ghost var original := items;
      var cards: seq<T> := [];
      var rest, draw, left := items, k, n;
      while left > 0
        invariant PopInto(cards, rest, rng, draw, left) == PopInto([], original, rng, k, n)
      {
        if rest == [] {
          items := rest;
          return Err(ValueError);
        }
        var j := Draw(rng, draw, |rest|);
        cards := cards + [rest[j]];
        rest := rest[..j] + rest[j + 1..];
        draw, left := draw + 1, left - 1;
      }
      PopIntoPermutes([], original, rng, k, n, cards, rest);
      items := rest;
      return Ok(cards);
    }
  }
}
