/** Worked examples: the card tokens the constructor rejects, how typical
    hands are classified (four of a kind and repeated cards included), the
    sample players of the console program, and a tied evaluation. */
module Scenarios {
  import opened Wrappers
  import opened Text
  import opened Sorting
  import opened Cards
  import opened Hands
  import opened Players
  import opened Evaluator

  // ---------------------------------------------------------------------
  // Cards
  //
  // Each example takes its token as a parameter pinned by `requires` rather
  // than as a literal argument: the verifier would otherwise evaluate the
  // whole parser on the literal, which is far more expensive to check.

  /** A suit letter on its own is not a card. */
  lemma RejectsSuitAlone(t: string)
    requires t == "H"
    ensures ParseCard(t).None?
  {
    TrimUnpadded(t);
  }

  /** There is no rank "1". */
  lemma RejectsRankOne(t: string)
    requires t == "1H"
    ensures ParseCard(t).None?
  {
    TrimUnpadded(t);
    assert Upper(t[..1]) == "1";
  }

  /** A token longer than three characters is rejected before its rank is
      looked at. */
  lemma RejectsFourCharacters(t: string)
    requires t == "10HH"
    ensures ParseCard(t).None?
  {
    TrimUnpadded(t);
  }

  /** A token holding anything but letters and digits is rejected. */
  lemma RejectsSymbol(t: string)
    requires t == "3H!"
    ensures ParseCard(t).None?
  {
    TrimUnpadded(t);
    assert !IsAlphanumeric(t[2]);
  }

  /** Lower case is accepted, and the card keeps the casing it was given. */
  lemma AcceptsLowerCase(t: string)
    requires t == "qs"
    ensures ParseCard(t) == Some(Card(Queen, Spades, t))
  {
    TrimUnpadded(t);
    UpperTokenParses(t, Queen, Spades);
  }

  // ---------------------------------------------------------------------
  // Hands

  /** `tokens` are comma-free texts that parse, one by one, to `cards`:
      they may carry white space and any casing, as in " 10d". */
  predicate Spells(tokens: seq<string>, cards: seq<Card>) {
    FreeOf(tokens, ',') && ParseAll(tokens, ParseCard) == Some(cards)
  }

  /** Five cards listed by any tokens spelling them, comma separated, parse
      to a valid hand holding them; the parsed hand is classified as the
      rules classify the cards, whatever order they were listed in. */
  lemma Dealt(tokens: seq<string>, cards: seq<Card>, cat: Category, tie: Rank)
    requires |cards| == 5
    requires ClassifiedAs(cards, cat, tie)
    ensures Spells(tokens, cards) ==> var h := ParseHand(Join(tokens, ','));
      h.Valid? && h.bestHand == cat && h.highCard == tie && multiset(h.cards) == multiset(cards)
  {
    if Spells(tokens, cards) {
      SplitJoin(tokens, ',');
      ParseHandSpec(Join(tokens, ','));
      Reclassified(cards, ParseHand(Join(tokens, ',')), cat, tie);
    }
  }

  /** The card a canonical token parses to. */
  function C(k: Rank, s: Suit): Card {
    Card(k, s, CardText(k, s))
  }

  /** Every card is written with its canonical token. */
  predicate Canonical(cards: seq<Card>) {
    forall i | 0 <= i < |cards| :: cards[i] == C(cards[i].rank, cards[i].suit)
  }

  /** The tokens the cards are written with. */
  function Texts(cards: seq<Card>): seq<string> {
    seq(|cards|, i requires 0 <= i < |cards| => cards[i].text)
  }

  /** Cards written with their canonical tokens are spelled by those tokens,
      so every hand of the scenarios below has at least that listing. */
  lemma CanonicalSpells(cards: seq<Card>)
    requires Canonical(cards)
    ensures Spells(Texts(cards), cards)
  {
    var tokens := Texts(cards);
    forall i | 0 <= i < |cards|
      ensures ',' !in tokens[i] && ParseCard(tokens[i]) == Some(cards[i])
    {
      Token(cards[i].rank, cards[i].suit);
    }
    ParsesAll(tokens, ParseCard, cards);
  }

  /** A canonical token holds no comma and parses to its card. */
  lemma Token(k: Rank, s: Suit)
    ensures ',' !in CardText(k, s)
    ensures ParseCard(CardText(k, s)) == Some(C(k, s))
  {
    NoCommaInCardText(k, s);
    CardTextParses(k, s);
  }

  lemma NoCommaInCardText(k: Rank, s: Suit)
    ensures ',' !in CardText(k, s)
  {
    var t := CardText(k, s);
    CardTextIsToken(k, s);
    forall i | 0 <= i < |t| ensures t[i] != ',' {
      assert IsAlphanumeric(t[i]);
    }
  }

  /** ParseAll succeeds with the per-token results when every token parses. */
  lemma ParsesAll<T>(tokens: seq<string>, parse: string -> Option<T>, values: seq<T>)
    requires |tokens| == |values|
    requires forall i | 0 <= i < |tokens| :: parse(tokens[i]) == Some(values[i])
    ensures ParseAll(tokens, parse) == Some(values)
  {
    var parsed := ParseAll(tokens, parse);
    assert parsed.Some?;
    forall i | 0 <= i < |tokens| ensures parsed.value[i] == values[i] {
      assert parse(tokens[i]) == Some(parsed.value[i]);
    }
    assert parsed.value == values;
  }

  /** A reordering of classified cards keeps its classification. */
  lemma Reclassified(cards: seq<Card>, h: Hand, cat: Category, tie: Rank)
    requires h.Valid? && multiset(h.cards) == multiset(cards)
    requires ClassifiedAs(cards, cat, tie)
    requires ClassifiedAs(h.cards, h.bestHand, h.highCard)
    ensures h.bestHand == cat && h.highCard == tie
  {
    ClassifiedPermutation(cards, h.cards, cat, tie);
    ClassificationUnique(h.cards, cat, tie, h.bestHand, h.highCard);
  }

  /** Three of a kind listed first, with two odd cards, not all of one suit:
      ThreeMatch, broken by the triple's rank. The triple may repeat a card:
      nothing rejects a card given twice. "3C, 3D, 3S, 8C, 10D" is one. */
  lemma ThreeOfAKind(tokens: seq<string>, cards: seq<Card>, k: nat)
    requires |cards| == 5
    requires cards[0].rank == cards[1].rank == cards[2].rank
    requires cards[3].rank != cards[0].rank && cards[4].rank != cards[0].rank
    requires cards[3].rank != cards[4].rank
    requires 0 < k < 5 && cards[k].suit != cards[0].suit
    ensures Spells(tokens, cards) ==> var h := ParseHand(Join(tokens, ','));
      h.Valid? && h.bestHand == ThreeMatch && h.highCard == cards[0].rank
  {
    if Spells(tokens, cards) {
      ThreeOfAKindClassified(cards, k);
      Dealt(tokens, cards, ThreeMatch, cards[0].rank);
    }
  }

  lemma ThreeOfAKindClassified(cards: seq<Card>, k: nat)
    requires |cards| == 5
    requires cards[0].rank == cards[1].rank == cards[2].rank
    requires cards[3].rank != cards[0].rank && cards[4].rank != cards[0].rank
    requires cards[3].rank != cards[4].rank
    requires 0 < k < 5 && cards[k].suit != cards[0].suit
    ensures ClassifiedAs(cards, ThreeMatch, cards[0].rank)
  {
    CountFive(cards);
    assert cards[0] in cards && cards[k] in cards;
  }

  /** A full house listed triple first is classified as three of a kind,
      broken by the triple's rank even when the pair ranks higher. */
  lemma FullHouse(tokens: seq<string>, cards: seq<Card>, k: nat)
    requires |cards| == 5
    requires cards[0].rank == cards[1].rank == cards[2].rank
    requires cards[3].rank == cards[4].rank != cards[0].rank
    requires 0 < k < 5 && cards[k].suit != cards[0].suit
    ensures Spells(tokens, cards) ==> var h := ParseHand(Join(tokens, ','));
      h.Valid? && h.bestHand == ThreeMatch && h.highCard == cards[0].rank
  {
    if Spells(tokens, cards) {
      FullHouseClassified(cards, k);
      Dealt(tokens, cards, ThreeMatch, cards[0].rank);
    }
  }

  lemma FullHouseClassified(cards: seq<Card>, k: nat)
    requires |cards| == 5
    requires cards[0].rank == cards[1].rank == cards[2].rank
    requires cards[3].rank == cards[4].rank != cards[0].rank
    requires 0 < k < 5 && cards[k].suit != cards[0].suit
    ensures ClassifiedAs(cards, ThreeMatch, cards[0].rank)
  {
    CountFive(cards);
    assert cards[0] in cards && cards[k] in cards;
  }

  /** A full house listed pair first, such as "3C,3D,4S,4C,4D": still
      ThreeMatch, broken by the triple's rank. */
  lemma FullHousePairFirst(tokens: seq<string>, cards: seq<Card>, k: nat)
    requires |cards| == 5
    requires cards[0].rank == cards[1].rank
    requires cards[2].rank == cards[3].rank == cards[4].rank != cards[0].rank
    requires 0 < k < 5 && cards[k].suit != cards[0].suit
    ensures Spells(tokens, cards) ==> var h := ParseHand(Join(tokens, ','));
      h.Valid? && h.bestHand == ThreeMatch && h.highCard == cards[2].rank
  {
    if Spells(tokens, cards) {
      FullHousePairFirstClassified(cards, k);
      Dealt(tokens, cards, ThreeMatch, cards[2].rank);
    }
  }

  lemma FullHousePairFirstClassified(cards: seq<Card>, k: nat)
    requires |cards| == 5
    requires cards[0].rank == cards[1].rank
    requires cards[2].rank == cards[3].rank == cards[4].rank != cards[0].rank
    requires 0 < k < 5 && cards[k].suit != cards[0].suit
    ensures ClassifiedAs(cards, ThreeMatch, cards[2].rank)
  {
    CountFive(cards);
    assert cards[0] in cards && cards[2] in cards && cards[k] in cards;
  }

  /** Two pairs, higher pair first, are classified as one pair, broken by
      the higher pair. */
  lemma TwoPair(tokens: seq<string>, cards: seq<Card>, k: nat)
    requires |cards| == 5
    requires cards[0].rank == cards[1].rank && cards[2].rank == cards[3].rank
    requires RankOrd(cards[0].rank) > RankOrd(cards[2].rank)
    requires cards[4].rank != cards[0].rank && cards[4].rank != cards[2].rank
    requires 0 < k < 5 && cards[k].suit != cards[0].suit
    ensures Spells(tokens, cards) ==> var h := ParseHand(Join(tokens, ','));
      h.Valid? && h.bestHand == OnePair && h.highCard == cards[0].rank
  {
    if Spells(tokens, cards) {
      TwoPairClassified(cards, k);
      Dealt(tokens, cards, OnePair, cards[0].rank);
    }
  }

  lemma TwoPairClassified(cards: seq<Card>, k: nat)
    requires |cards| == 5
    requires cards[0].rank == cards[1].rank && cards[2].rank == cards[3].rank
    requires RankOrd(cards[0].rank) > RankOrd(cards[2].rank)
    requires cards[4].rank != cards[0].rank && cards[4].rank != cards[2].rank
    requires 0 < k < 5 && cards[k].suit != cards[0].suit
    ensures ClassifiedAs(cards, OnePair, cards[0].rank)
  {
    CountFive(cards);
    assert cards[0] in cards && cards[k] in cards;
  }

  /** Four of a kind is not recognised: with a second suit in the hand it
      falls through to high card, broken by the highest rank held. */
  lemma FourOfAKind(tokens: seq<string>, cards: seq<Card>, k: nat)
    requires |cards| == 5
    requires cards[0].rank == cards[1].rank == cards[2].rank == cards[3].rank
    requires cards[4].rank != cards[0].rank
    requires 0 < k < 5 && cards[k].suit != cards[0].suit
    ensures Spells(tokens, cards) ==> var h := ParseHand(Join(tokens, ','));
      && h.Valid? && h.bestHand == HighCard
      && h.highCard == if RankOrd(cards[0].rank) > RankOrd(cards[4].rank) then cards[0].rank else cards[4].rank
  {
    if Spells(tokens, cards) {
      FourOfAKindClassified(cards, k);
      Dealt(tokens, cards, HighCard, if RankOrd(cards[0].rank) > RankOrd(cards[4].rank) then cards[0].rank else cards[4].rank);
    }
  }

  lemma FourOfAKindClassified(cards: seq<Card>, k: nat)
    requires |cards| == 5
    requires cards[0].rank == cards[1].rank == cards[2].rank == cards[3].rank
    requires cards[4].rank != cards[0].rank
    requires 0 < k < 5 && cards[k].suit != cards[0].suit
    ensures ClassifiedAs(cards, HighCard, if RankOrd(cards[0].rank) > RankOrd(cards[4].rank) then cards[0].rank else cards[4].rank)
  {
    FourOfAKindCounts(cards);
    MaxMultiplicityFacts(cards, 4);
    assert cards[0] in cards && cards[k] in cards;
    assert !AllSameSuit(cards);
    var top := if RankOrd(cards[0].rank) > RankOrd(cards[4].rank) then cards[0].rank else cards[4].rank;
    assert HighestRank(cards, top) by {
      assert forall i | 0 <= i < 5 :: cards[i].rank == cards[0].rank || i == 4;
    }
  }

  lemma FourOfAKindCounts(cards: seq<Card>)
    requires |cards| == 5
    requires cards[0].rank == cards[1].rank == cards[2].rank == cards[3].rank
    requires cards[4].rank != cards[0].rank
    ensures MaxMultiplicity(cards, 4)
  {
    CountFive(cards);
    assert cards[0] in cards;
  }

  /** Five distinct ranks listed highest first, not all of one suit, such as
      "AC,10C,5C,3S,2C": high card, broken by the first card's rank. */
  lemma NoMatch(tokens: seq<string>, cards: seq<Card>, k: nat)
    requires |cards| == 5
    requires forall i, j | 0 <= i < j < 5 :: RankOrd(cards[i].rank) > RankOrd(cards[j].rank)
    requires 0 < k < 5 && cards[k].suit != cards[0].suit
    ensures Spells(tokens, cards) ==> var h := ParseHand(Join(tokens, ','));
      h.Valid? && h.bestHand == HighCard && h.highCard == cards[0].rank
  {
    if Spells(tokens, cards) {
      NoMatchClassified(cards, k);
      Dealt(tokens, cards, HighCard, cards[0].rank);
    }
  }

  lemma NoMatchClassified(cards: seq<Card>, k: nat)
    requires |cards| == 5
    requires forall i, j | 0 <= i < j < 5 :: RankOrd(cards[i].rank) > RankOrd(cards[j].rank)
    requires 0 < k < 5 && cards[k].suit != cards[0].suit
    ensures ClassifiedAs(cards, HighCard, cards[0].rank)
  {
    NoMatchCounts(cards);
    MaxMultiplicityFacts(cards, 1);
    assert cards[0] in cards && cards[k] in cards;
    assert !AllSameSuit(cards);
    assert HighestRank(cards, cards[0].rank) by {
      forall c | c in cards ensures RankOrd(c.rank) <= RankOrd(cards[0].rank) {
        var i :| 0 <= i < 5 && cards[i] == c;
      }
    }
  }

  lemma NoMatchCounts(cards: seq<Card>)
    requires |cards| == 5
    requires forall i, j | 0 <= i < j < 5 :: RankOrd(cards[i].rank) > RankOrd(cards[j].rank)
    ensures MaxMultiplicity(cards, 1)
  {
    CountFive(cards);
    forall c | c in cards ensures Count(cards, c.rank) == 1 {
      var i :| 0 <= i < 5 && cards[i] == c;
      forall j | 0 <= j < 5 && j != i ensures cards[j].rank != c.rank {
        if j < i {
          assert RankOrd(cards[j].rank) > RankOrd(cards[i].rank);
        } else {
          assert RankOrd(cards[i].rank) > RankOrd(cards[j].rank);
        }
      }
    }
    assert cards[0] in cards;
  }

  /** Five cards of one suit are a flush, broken by the highest rank wherever
      it is listed, as in "AC, 10C, 5c, 2C, 8C"; the same card five times
      over is accepted and is a flush too. */
  lemma FlushHand(tokens: seq<string>, cards: seq<Card>, top: nat)
    requires |cards| == 5 && top < 5
    requires forall i | 0 <= i < 5 :: cards[i].suit == cards[0].suit
    requires forall i | 0 <= i < 5 :: RankOrd(cards[i].rank) <= RankOrd(cards[top].rank)
    ensures Spells(tokens, cards) ==> var h := ParseHand(Join(tokens, ','));
      h.Valid? && h.bestHand == Flush && h.highCard == cards[top].rank
  {
    if Spells(tokens, cards) {
      FlushClassified(cards, top);
      Dealt(tokens, cards, Flush, cards[top].rank);
    }
  }

  lemma FlushClassified(cards: seq<Card>, top: nat)
    requires |cards| == 5 && top < 5
    requires forall i | 0 <= i < 5 :: cards[i].suit == cards[0].suit
    requires forall i | 0 <= i < 5 :: RankOrd(cards[i].rank) <= RankOrd(cards[top].rank)
    ensures ClassifiedAs(cards, Flush, cards[top].rank)
  {
    assert cards[top] in cards;
  }

  /** The multiplicity of a rank in five cards, written out. */
  lemma CountFive(cards: seq<Card>)
    requires |cards| == 5
    ensures forall r :: Count(cards, r) == Marks(cards, r)
  {
    forall r ensures Count(cards, r) == Marks(cards, r) {
      assert cards[1..][1..] == cards[2..];
      assert cards[2..][1..] == cards[3..];
      assert cards[3..][1..] == cards[4..];
      assert cards[4..][1..] == [];
      assert Count(cards[4..], r) == Mark(cards[4], r);
      assert Count(cards[3..], r) == Mark(cards[3], r) + Count(cards[4..], r);
      assert Count(cards[2..], r) == Mark(cards[2], r) + Count(cards[3..], r);
      assert Count(cards[1..], r) == Mark(cards[1], r) + Count(cards[2..], r);
    }
  }

  function Mark(c: Card, r: Rank): nat {
    if c.rank == r then 1 else 0
  }

  function Marks(cards: seq<Card>, r: Rank): nat
    requires |cards| == 5
  {
    Mark(cards[0], r) + Mark(cards[1], r) + Mark(cards[2], r) + Mark(cards[3], r) + Mark(cards[4], r)
  }
  // ---------------------------------------------------------------------
  // The console program's players

  /** A name alone: no hand at all. */
  lemma NameOnly(spec: string)
    requires spec == "JimBob"
    ensures ParsePlayer(spec) == Player("JimBob", None)
  {
  }

  /** Five bare suit letters: five pieces, none of them a card. */
  lemma SuitLetters(spec: string)
    requires spec == "Joe,H,H,H,H,H"
    ensures ParsePlayer(spec) == Player("Joe", Some(Invalid))
  {
    Dealing(spec, "Joe", "H,H,H,H,H");
    LettersOnly("H,H,H,H,H");
  }

  lemma Dealing(spec: string, name: string, cards: string)
    requires ',' !in name && spec == name + "," + cards
    ensures ParsePlayer(spec) == Player(name, Some(ParseHand(cards)))
  {
    ParsePlayerRoundTrip(name, cards);
  }

  lemma LettersOnly(text: string)
    requires text == "H,H,H,H,H"
    ensures ParseHand(text) == Invalid
  {
    var h := "H";
    JoinFive(h, h, h, h, h);
    SplitJoin([h, h, h, h, h], ',');
    RejectsSuitAlone(h);
    ParseHandSpec(text);
  }

  /** The comma join of five pieces, written out. */
  lemma JoinFive(a: string, b: string, c: string, d: string, e: string)
    ensures Join([a, b, c, d, e], ',') == a + [','] + (b + [','] + (c + [','] + (d + [','] + e)))
  {
    assert [a, b, c, d, e][1..] == [b, c, d, e];
    assert [b, c, d, e][1..] == [c, d, e];
    assert [c, d, e][1..] == [d, e];
    assert [d, e][1..] == [e];
    assert Join([d, e], ',') == d + [','] + e;
    assert Join([c, d, e], ',') == c + [','] + (d + [','] + e);
    assert Join([b, c, d, e], ',') == b + [','] + (c + [','] + (d + [','] + e));
  }

  /** A hand written as comma-free pieces, other than five of them, is
      invalid; the console program's four-card player is one. */
  lemma WrongPieceCount(parts: seq<string>)
    requires |parts| >= 1 && |parts| != 5 && FreeOf(parts, ',')
    ensures ParseHand(Join(parts, ',')) == Invalid
  {
    SplitJoin(parts, ',');
    ParseHandSpec(Join(parts, ','));
  }

  // ---------------------------------------------------------------------
  // Evaluations

  /** Two players whose hands tie, ahead of a third: both win, the third
      does not. */
  lemma TiedWinners(a: Player, b: Player, c: Player)
    requires ComparePlayers(a, b) == 0 && ComparePlayers(a, c) == -1
    ensures var w := EvaluateHands([a, c, b]).winners;
      a in w && b in w && c !in w
  {
    var roster := [a, c, b];
    BestOfThree(a, b, c);
    var e := EvaluateHands(roster);
    assert multiset(e.winners)[a] == multiset(roster)[a] > 0;
    assert multiset(e.winners)[b] == multiset(roster)[b] > 0;
    assert multiset(e.winners)[c] == 0;
  }

  lemma BestOfThree(a: Player, b: Player, c: Player)
    requires ComparePlayers(a, b) == 0 && ComparePlayers(a, c) == -1
    ensures IsBest(a, [a, c, b]) && IsBest(b, [a, c, b]) && !IsBest(c, [a, c, b])
    ensures c != a && c != b
  {
    assert ComparePlayers(a, a) == 0;
    ComparePlayersAntisymmetric(a, b);
    ComparePlayersAntisymmetric(a, c);
    ComparePlayersTransitive(b, a, c);
    assert ComparePlayers(b, b) == 0;
  }

  /** A player without a hand ranks below one whose hand failed to parse:
      the latter wins, the former does not. */
  lemma NoHandBelowInvalid(p: Player, q: Player)
    requires p.hand.None? && q.hand == Some(Invalid)
    ensures var w := EvaluateHands([p, q]).winners;
      q in w && p !in w
  {
    var roster := [p, q];
    BestOfTwo(p, q);
    var e := EvaluateHands(roster);
    assert multiset(e.winners)[q] == multiset(roster)[q] > 0;
    assert multiset(e.winners)[p] == 0;
  }

  lemma BestOfTwo(p: Player, q: Player)
    requires p.hand.None? && q.hand == Some(Invalid)
    ensures IsBest(q, [p, q]) && !IsBest(p, [p, q]) && p != q
  {
    assert ComparePlayers(q, p) == -1 && ComparePlayers(q, q) == 0 && ComparePlayers(p, q) == 1;
  }
}
