/**
 * The hand and match simulator of battle_simulator.py.
 *
 * `random.sample` is not modelled as a distribution: a drawn hand is given as
 * the positions it takes from the flattened deck (`picks`, distinct and in
 * range), and a match is given one such draw per deck per iteration.
 */
module BattleSimulator {
  import opened Models

  /** `BASIC_LANDS`: the only names that count as lands in a hand. */
  const BasicLands: set<string> := {"Plains", "Island", "Swamp", "Mountain", "Forest"}

  /** The default `hand_size` of `simulate_hand`, used by `simulate_match`. */
  const HandSize: nat := 7

  // ---------------------------------------------------------------------------
  // Flattening a deck
  // ---------------------------------------------------------------------------

  /** `[name] * q`: `q` copies of `name`, none when `q` is zero or negative. */
  function Copies(name: string, q: int): (r: seq<string>)
    ensures |r| == if q > 0 then q else 0
    ensures forall x | x in r :: x == name
    decreases q
  {
    if q <= 0 then [] else [name] + Copies(name, q - 1)
  }

  lemma {:induction false} CopiesCount(name: string, q: int, n: string)
    ensures multiset(Copies(name, q))[n] == if n == name && q > 0 then q else 0
    decreases q
  {
    if q > 0 {
      CopiesCount(name, q - 1, n);
      assert multiset(Copies(name, q)) == multiset{name} + multiset(Copies(name, q - 1));
    }
  }

  /** The flat list of `_deck_to_list`: each key's copies, keys in order. */
  function Flatten(keys: seq<string>, qty: map<string, int>): (r: seq<string>)
    requires forall k | k in keys :: k in qty
    ensures forall x | x in r :: x in keys
  {
    if keys == [] then []
    else Flatten(keys[..|keys| - 1], qty) + Copies(keys[|keys| - 1], qty[keys[|keys| - 1]])
  }

  /** The flattened list of a deck's card dict: it holds only cards of the deck. */
  function DeckList(c: CardCounts): (r: seq<string>)
    requires c.Valid()
    ensures forall x | x in r :: x in c.qty
  {
    Flatten(c.keys, c.qty)
  }

  lemma {:induction false} SumOverSnoc(keys: seq<string>, qty: map<string, int>)
    requires keys != []
    requires forall k | k in keys :: k in qty
    ensures SumOver(keys, qty) == SumOver(keys[..|keys| - 1], qty) + qty[keys[|keys| - 1]]
  {
    if |keys| > 1 {
      assert keys[1..][..|keys[1..]| - 1] == keys[..|keys| - 1][1..];
      SumOverSnoc(keys[1..], qty);
    }
  }

  /** When no quantity is negative, the flat list has one entry per card: its length is the total. */
  lemma {:induction false} FlattenLength(keys: seq<string>, qty: map<string, int>)
    requires forall k | k in keys :: k in qty && qty[k] >= 0
    ensures |Flatten(keys, qty)| == SumOver(keys, qty)
  {
    if keys != [] {
      FlattenLength(keys[..|keys| - 1], qty);
      SumOverSnoc(keys, qty);
    }
  }

  /** Each listed name occurs in the flat list exactly as often as its (non-negative) quantity. */
  lemma {:induction false} FlattenCount(keys: seq<string>, qty: map<string, int>, n: string)
    requires NoDuplicates(keys)
    requires forall k | k in keys :: k in qty
    ensures multiset(Flatten(keys, qty))[n] == if n in keys && qty[n] > 0 then qty[n] else 0
  {
    if keys != [] {
      var init, last := keys[..|keys| - 1], keys[|keys| - 1];
      NoDuplicatesInit(keys);
      FlattenCount(init, qty, n);
      CopiesCount(last, qty[last], n);
    }
  }

  /** Dropping the last key keeps the keys distinct, and the last key is not among the others. */
  lemma NoDuplicatesInit(keys: seq<string>)
    requires NoDuplicates(keys) && keys != []
    ensures NoDuplicates(keys[..|keys| - 1])
    ensures keys[|keys| - 1] !in keys[..|keys| - 1]
    ensures forall n :: n in keys <==> n in keys[..|keys| - 1] || n == keys[|keys| - 1]
  {
    var init, last := keys[..|keys| - 1], keys[|keys| - 1];
    assert keys == init + [last];
    forall i, j | 0 <= i < j < |init| ensures init[i] != init[j] {
      assert init[i] == keys[i] && init[j] == keys[j];
    }
    forall i | 0 <= i < |init| ensures init[i] != last {
      assert init[i] == keys[i];
    }
  }

  /** The deck's flat list: its length is `total_cards()` and each card appears `qty` times. */
  lemma DeckListCounts(c: CardCounts)
    requires c.Valid() && c.AllPositive()
    ensures |DeckList(c)| == c.Total()
    ensures forall n :: multiset(DeckList(c))[n] == c.Get(n)
  {
    FlattenLength(c.keys, c.qty);
    forall n ensures multiset(DeckList(c))[n] == c.Get(n) {
      FlattenCount(c.keys, c.qty, n);
    }
  }

  /** `_deck_to_list(deck)`: extends a list with `[name] * qty` for each entry in order. */
  method DeckToList(deck: Deck) returns (cardList: seq<string>)
    requires deck.Valid()
    ensures cardList == DeckList(deck.cards)
    ensures forall n :: multiset(cardList)[n] == if n in deck.cards.qty && deck.cards.qty[n] > 0 then deck.cards.qty[n] else 0
    ensures deck.cards.AllPositive() ==> |cardList| == deck.TotalCards()
  {
    var keys, qty := deck.cards.keys, deck.cards.qty;
    cardList := [];
    for i := 0 to |keys|
      invariant cardList == Flatten(keys[..i], qty)
    {
      assert keys[..i + 1][..i] == keys[..i];
      cardList := cardList + Copies(keys[i], qty[keys[i]]);
    }
    assert keys[..|keys|] == keys;
    forall n ensures multiset(cardList)[n] == if n in qty && qty[n] > 0 then qty[n] else 0 {
      FlattenCount(keys, qty, n);
    }
    if deck.cards.AllPositive() {
      FlattenLength(keys, qty);
    }
  }

  // ---------------------------------------------------------------------------
  // One hand
  // ---------------------------------------------------------------------------

  /** `picks` are `size` distinct positions of a list of length `n`: what `random.sample` may choose. */
  predicate IsSample(picks: seq<nat>, size: nat, n: nat) {
    |picks| == size
    && (forall i | 0 <= i < |picks| :: picks[i] < n)
    && (forall i, j | 0 <= i < j < |picks| :: picks[i] != picks[j])
  }

  /** The hand made of the cards at the sampled positions. */
  function Draw(cardList: seq<string>, picks: seq<nat>): (hand: seq<string>)
    requires forall i | 0 <= i < |picks| :: picks[i] < |cardList|
    ensures |hand| == |picks|
  {
    seq(|picks|, i requires 0 <= i < |picks| => cardList[picks[i]])
  }

  /** `sum(1 for card in hand if card in BASIC_LANDS)`. */
  function LandCount(hand: seq<string>): (r: nat)
    ensures r <= |hand|
  {
    if hand == [] then 0
    else LandCount(hand[..|hand| - 1]) + (if hand[|hand| - 1] in BasicLands then 1 else 0)
  }

  /** Only the five basic land names count: the land count is the number of copies of each in the hand. */
  lemma {:induction false} LandCountIsBasicCopies(hand: seq<string>)
    ensures LandCount(hand) == multiset(hand)["Plains"] + multiset(hand)["Island"]
              + multiset(hand)["Swamp"] + multiset(hand)["Mountain"] + multiset(hand)["Forest"]
  {
    if hand != [] {
      var init, last := hand[..|hand| - 1], hand[|hand| - 1];
      LandCountIsBasicCopies(init);
      assert multiset(hand) == multiset(init) + multiset{last} by {
        assert hand == init + [last];
      }
      BasicLandCopies(last);
    }
  }

  /** One card counts as a land exactly when it is one copy of a basic land name. */
  lemma BasicLandCopies(card: string)
    ensures (if card in BasicLands then 1 else 0) == multiset{card}["Plains"] + multiset{card}["Island"]
              + multiset{card}["Swamp"] + multiset{card}["Mountain"] + multiset{card}["Forest"]
  {
  }

  /** A hand is keepable when it holds between two and five lands. */
  predicate Keepable(hand: seq<string>): (r: bool)
    ensures r <==> 2 <= multiset(hand)["Plains"] + multiset(hand)["Island"] + multiset(hand)["Swamp"]
                         + multiset(hand)["Mountain"] + multiset(hand)["Forest"] <= 5
    ensures r ==> 2 <= |hand|
  {
    LandCountIsBasicCopies(hand);
    2 <= LandCount(hand) <= 5
  }

  /** What `simulate_hand` answers for a flattened deck and a draw. */
  function HandOutcome(cardList: seq<string>, handSize: nat, picks: seq<nat>): (r: bool)
    requires |cardList| >= handSize ==> IsSample(picks, handSize, |cardList|)
    ensures |cardList| < handSize ==> !r
    ensures r ==> 2 <= handSize <= |cardList|
  {
    if |cardList| < handSize then false else Keepable(Draw(cardList, picks))
  }

  /** A drawn hand never holds more copies of a card than the deck does. */
  lemma {:induction false} DrawWithinDeck(cardList: seq<string>, picks: seq<nat>)
    requires IsSample(picks, |picks|, |cardList|)
    ensures multiset(Draw(cardList, picks)) <= multiset(cardList)
  {
    if picks != [] {
      assert picks[0] < |cardList|;
      var m := |cardList| - 1;
      var init := cardList[..m];
      assert cardList == init + [cardList[m]];
      if m in picks {
        var j :| 0 <= j < |picks| && picks[j] == m;
        var rest := DropPick(cardList, picks, j);
        DrawWithinDeck(init, rest);
        DrawPrefix(cardList, init, rest);
      } else {
        assert IsSample(picks, |picks|, m) by {
          forall i | 0 <= i < |picks| ensures picks[i] < m {
            assert picks[i] != m;
          }
        }
        DrawWithinDeck(init, picks);
        DrawPrefix(cardList, init, picks);
      }
    }
  }

  /**
   * Taking out the sample's pick of the last position leaves a sample of the
   * rest of the list, which draws the same hand less that last card.
   */
  lemma DropPick(cardList: seq<string>, picks: seq<nat>, j: nat) returns (rest: seq<nat>)
    requires IsSample(picks, |picks|, |cardList|)
    requires j < |picks| && picks[j] == |cardList| - 1
    ensures IsSample(rest, |rest|, |cardList| - 1)
    ensures multiset(Draw(cardList, picks)) == multiset(Draw(cardList, rest)) + multiset{cardList[|cardList| - 1]}
  {
    var m := |cardList| - 1;
    rest := picks[..j] + picks[j + 1..];
    forall i | 0 <= i < |rest| ensures rest[i] < m {
      if i < j {
        assert rest[i] == picks[i];
      } else {
        assert rest[i] == picks[i + 1];
      }
    }
    forall a, b | 0 <= a < b < |rest| ensures rest[a] != rest[b] {
      var a', b' := if a < j then a else a + 1, if b < j then b else b + 1;
      assert rest[a] == picks[a'] && rest[b] == picks[b'];
    }
    assert picks == picks[..j] + [m] + picks[j + 1..];
    DrawSplit(cardList, picks[..j], [m], picks[j + 1..]);
    DrawSplit(cardList, picks[..j], [], picks[j + 1..]);
    assert picks[..j] + [] + picks[j + 1..] == rest;
    assert Draw(cardList, [m]) == [cardList[m]];
  }

  /** Drawing from three runs of positions draws the three runs' cards. */
  lemma DrawSplit(cardList: seq<string>, a: seq<nat>, b: seq<nat>, c: seq<nat>)
    requires forall i | 0 <= i < |a + b + c| :: (a + b + c)[i] < |cardList|
    ensures forall i | 0 <= i < |a| :: a[i] < |cardList|
    ensures forall i | 0 <= i < |b| :: b[i] < |cardList|
    ensures forall i | 0 <= i < |c| :: c[i] < |cardList|
    ensures multiset(Draw(cardList, a + b + c))
              == multiset(Draw(cardList, a)) + multiset(Draw(cardList, b)) + multiset(Draw(cardList, c))
  {
    forall i | 0 <= i < |a| ensures a[i] < |cardList| {
      assert (a + b + c)[i] == a[i];
    }
    forall i | 0 <= i < |b| ensures b[i] < |cardList| {
      assert (a + b + c)[|a| + i] == b[i];
    }
    forall i | 0 <= i < |c| ensures c[i] < |cardList| {
      assert (a + b + c)[|a| + |b| + i] == c[i];
    }
    assert Draw(cardList, a + b + c) == Draw(cardList, a) + Draw(cardList, b) + Draw(cardList, c);
  }

  /** Positions that all fall in a prefix draw the same cards from the prefix. */
  lemma DrawPrefix(cardList: seq<string>, init: seq<string>, picks: seq<nat>)
    requires init <= cardList
    requires forall i | 0 <= i < |picks| :: picks[i] < |init|
    ensures Draw(cardList, picks) == Draw(init, picks)
  {
  }

  /**
   * `simulate_hand(deck, hand_size)` with the sampled positions as input: a
   * deck with fewer cards than the hand size is never keepable; otherwise the
   * drawn hand is keepable exactly when it has two to five basic lands.
   */
  method SimulateHand(deck: Deck, handSize: nat, picks: seq<nat>) returns (keep: bool)
    requires deck.Valid()
    requires |DeckList(deck.cards)| >= handSize ==> IsSample(picks, handSize, |DeckList(deck.cards)|)
    ensures keep == HandOutcome(DeckList(deck.cards), handSize, picks)
    ensures |DeckList(deck.cards)| < handSize ==> !keep
    ensures keep <==> |DeckList(deck.cards)| >= handSize && 2 <= LandCount(Draw(DeckList(deck.cards), picks)) <= 5
  {
    var cardList := DeckToList(deck);
    if |cardList| < handSize {
      return false;
    }
    var hand := Draw(cardList, picks);
    var landCount := LandCount(hand);
    keep := 2 <= landCount <= 5;
  }

  // ---------------------------------------------------------------------------
  // A match
  // ---------------------------------------------------------------------------

  /** How many times `for _ in range(iterations)` runs. */
  function Rounds(iterations: int): nat {
    if iterations < 0 then 0 else iterations
  }

  /** A draw per iteration that is a valid sample whenever the deck is large enough. */
  predicate ValidDraws(cardList: seq<string>, draws: seq<seq<nat>>) {
    forall i | 0 <= i < |draws| :: |cardList| >= HandSize ==> IsSample(draws[i], HandSize, |cardList|)
  }

  /** The per-iteration keepable results of one deck. */
  function Outcomes(cardList: seq<string>, draws: seq<seq<nat>>): (r: seq<bool>)
    requires ValidDraws(cardList, draws)
    ensures |r| == |draws|
  {
    seq(|draws|, i requires 0 <= i < |draws| => HandOutcome(cardList, HandSize, draws[i]))
  }

  /** The tally of `simulate_match`: (wins1, wins2, ties) over paired hand results. */
  datatype Tally = Tally(wins1: nat, wins2: nat, ties: nat)

  /** One iteration: a win for the deck that kept its hand when the other did not, otherwise a tie. */
  function Record(t: Tally, a: bool, b: bool): (r: Tally)
    ensures r.wins1 + r.wins2 + r.ties == t.wins1 + t.wins2 + t.ties + 1
    ensures r.wins1 > t.wins1 <==> a && !b
    ensures r.wins2 > t.wins2 <==> b && !a
    ensures r.wins1 >= t.wins1 && r.wins2 >= t.wins2 && r.ties >= t.ties
  {
    if a && !b then t.(wins1 := t.wins1 + 1)
    else if b && !a then t.(wins2 := t.wins2 + 1)
    else t.(ties := t.ties + 1)
  }

  /** The tally over paired results; two decks with the same result every game tie them all. */
  function Score(r1: seq<bool>, r2: seq<bool>): (t: Tally)
    requires |r1| == |r2|
    ensures (forall i | 0 <= i < |r1| :: r1[i] == r2[i]) ==> t == Tally(0, 0, |r1|)
  {
    if r1 == [] then Tally(0, 0, 0)
    else Record(Score(r1[..|r1| - 1], r2[..|r2| - 1]), r1[|r1| - 1], r2[|r2| - 1])
  }

  lemma ScoreSnoc(r1: seq<bool>, r2: seq<bool>, i: nat)
    requires |r1| == |r2| && i < |r1|
    ensures Score(r1[..i + 1], r2[..i + 1]) == Record(Score(r1[..i], r2[..i]), r1[i], r2[i])
  {
    assert r1[..i + 1][..i] == r1[..i] && r2[..i + 1][..i] == r2[..i];
  }

  /** Every iteration is counted exactly once. */
  lemma {:induction false} ScoreSum(r1: seq<bool>, r2: seq<bool>)
    requires |r1| == |r2|
    ensures Score(r1, r2).wins1 + Score(r1, r2).wins2 + Score(r1, r2).ties == |r1|
  {
    if r1 != [] {
      ScoreSum(r1[..|r1| - 1], r2[..|r2| - 1]);
    }
  }

  /** Swapping the two decks swaps their win counts and keeps the ties. */
  lemma {:induction false} ScoreSymmetric(r1: seq<bool>, r2: seq<bool>)
    requires |r1| == |r2|
    ensures Score(r2, r1) == Tally(Score(r1, r2).wins2, Score(r1, r2).wins1, Score(r1, r2).ties)
  {
    if r1 != [] {
      ScoreSymmetric(r1[..|r1| - 1], r2[..|r2| - 1]);
    }
  }

  /** When neither deck ever keeps a hand, every iteration is a tie. */
  lemma {:induction false} ScoreAllMisses(r1: seq<bool>, r2: seq<bool>)
    requires |r1| == |r2|
    requires forall i | 0 <= i < |r1| :: !r1[i] && !r2[i]
    ensures Score(r1, r2) == Tally(0, 0, |r1|)
  {
    if r1 != [] {
      ScoreAllMisses(r1[..|r1| - 1], r2[..|r2| - 1]);
    }
  }

  /** A deck smaller than a hand never keeps one, so two such decks tie every game. */
  lemma SmallDecksAlwaysTie(list1: seq<string>, list2: seq<string>, draws1: seq<seq<nat>>, draws2: seq<seq<nat>>)
    requires |list1| < HandSize && |list2| < HandSize && |draws1| == |draws2|
    ensures ValidDraws(list1, draws1) && ValidDraws(list2, draws2)
    ensures Score(Outcomes(list1, draws1), Outcomes(list2, draws2)) == Tally(0, 0, |draws1|)
  {
    ScoreAllMisses(Outcomes(list1, draws1), Outcomes(list2, draws2));
  }

  /**
   * `simulate_match(deck1, deck2, iterations)` with each iteration's two draws
   * as input: the tally scores the two decks' hand results pairwise and its
   * three counts add up to the number of iterations.
   */
  method SimulateMatch(deck1: Deck, deck2: Deck, iterations: int, draws1: seq<seq<nat>>, draws2: seq<seq<nat>>)
    returns (wins1: nat, wins2: nat, ties: nat)
    requires deck1.Valid() && deck2.Valid()
    requires |draws1| == Rounds(iterations) && |draws2| == Rounds(iterations)
    requires ValidDraws(DeckList(deck1.cards), draws1) && ValidDraws(DeckList(deck2.cards), draws2)
    ensures Tally(wins1, wins2, ties) == Score(Outcomes(DeckList(deck1.cards), draws1), Outcomes(DeckList(deck2.cards), draws2))
    ensures wins1 + wins2 + ties == Rounds(iterations)
    ensures |DeckList(deck1.cards)| < HandSize && |DeckList(deck2.cards)| < HandSize ==>
              wins1 == 0 && wins2 == 0 && ties == Rounds(iterations)
  {
    ghost var out1 := Outcomes(DeckList(deck1.cards), draws1);
    ghost var out2 := Outcomes(DeckList(deck2.cards), draws2);
    wins1, wins2, ties := 0, 0, 0;
    for i := 0 to Rounds(iterations)
      invariant Tally(wins1, wins2, ties) == Score(out1[..i], out2[..i])
    {
      var result1 := SimulateHand(deck1, HandSize, draws1[i]);
      var result2 := SimulateHand(deck2, HandSize, draws2[i]);
      ScoreSnoc(out1, out2, i);
      if result1 && !result2 {
        wins1 := wins1 + 1;
      } else if result2 && !result1 {
        wins2 := wins2 + 1;
      } else {
        ties := ties + 1;
      }
    }
    assert out1[..|out1|] == out1 && out2[..|out2|] == out2;
    ScoreSum(out1, out2);
    if |DeckList(deck1.cards)| < HandSize && |DeckList(deck2.cards)| < HandSize {
      SmallDecksAlwaysTie(DeckList(deck1.cards), DeckList(deck2.cards), draws1, draws2);
    }
  }

  // ---------------------------------------------------------------------------
  // Match history
  // ---------------------------------------------------------------------------

  /** One match-history entry `{"deck": ..., "opponent": ..., "result": ...}`. */
  datatype MatchRecord = MatchRecord(deck: string, opponent: string, result: string)

  /**
   * `record_manual_result` on the loaded history: the old records stay as
   * they were, in order, and exactly one new record follows them.
   */
  function RecordManualResult(history: seq<MatchRecord>, deckName: string, opponentName: string, result: string)
    : (h: seq<MatchRecord>)
    ensures |h| == |history| + 1
    ensures h[..|history|] == history
    ensures h[|history|] == MatchRecord(deckName, opponentName, result)
  {
    history + [MatchRecord(deckName, opponentName, result)]
  }
}
