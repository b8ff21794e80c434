/** A five-card hand: parsing "3C, 3D, 3S, 8C, 10D", sorting the cards best
    first, the (deliberately incomplete) classification into a category with
    a tiebreak rank, the hand ordering and the hand's display. */
module Hands {
  import opened Wrappers
  import opened Text
  import opened Sorting
  import opened Cards

  /** The PokerHand enumeration, weakest first. */
  datatype Category = NoHand | HighCard | OnePair | TwoPair | ThreeMatch | Straight
                    | Flush | FullHouse | FourMatch | StraightFlush

  /** Position of a category in the enumeration; hands compare by it. */
  function CategoryOrd(c: Category): nat {
    match c
    case NoHand => 0
    case HighCard => 1
    case OnePair => 2
    case TwoPair => 3
    case ThreeMatch => 4
    case Straight => 5
    case Flush => 6
    case FullHouse => 7
    case FourMatch => 8
    case StraightFlush => 9
  }

  /** The enumeration name, as the library prints a category. */
  function CategoryName(c: Category): string {
    match c
    case NoHand => "NoHand"
    case HighCard => "HighCard"
    case OnePair => "OnePair"
    case TwoPair => "TwoPair"
    case ThreeMatch => "ThreeMatch"
    case Straight => "Straight"
    case Flush => "Flush"
    case FullHouse => "FullHouse"
    case FourMatch => "FourMatch"
    case StraightFlush => "StraightFlush"
  }

  /** A hand is either fully parsed (five sorted cards, a category and the
      rank that breaks ties within it) or wholly invalid. */
  datatype Hand = Valid(cards: seq<Card>, bestHand: Category, highCard: Rank) | Invalid
  {
    /** The bestHand field: NoHand for a hand that failed to parse. */
    function Best(): Category {
      if Valid? then bestHand else NoHand
    }

    /** The highCard field: an invalid hand never sets it, so it keeps the
        enumeration default Two. */
    function High(): Rank {
      if Valid? then highCard else Two
    }
  }

  // ---------------------------------------------------------------------
  // Rank multiplicities and the classification rules, stated on their own

  /** How many of the cards have rank `r`. */
  function Count(cards: seq<Card>, r: Rank): nat {
    if cards == [] then 0
    else (if cards[0].rank == r then 1 else 0) + Count(cards[1..], r)
  }

  lemma {:induction false} CountAppend(a: seq<Card>, b: seq<Card>, r: Rank)
    ensures Count(a + b, r) == Count(a, r) + Count(b, r)
  {
    if a == [] {
      assert a + b == b;
    } else {
      assert (a + b)[1..] == a[1..] + b;
      CountAppend(a[1..], b, r);
    }
  }

  /** Removing the card at position `k` lowers its rank's count by one. */
  lemma CountRemove(b: seq<Card>, k: nat, r: Rank)
    requires k < |b|
    ensures Count(b, r) == Count(b[..k] + b[k + 1..], r) + (if b[k].rank == r then 1 else 0)
  {
    var tail := [b[k]] + b[k + 1..];
    assert b == b[..k] + tail;
    assert tail[1..] == b[k + 1..];
    CountAppend(b[..k], tail, r);
    CountAppend(b[..k], b[k + 1..], r);
  }

  lemma MultisetRemove(b: seq<Card>, k: nat)
    requires k < |b|
    ensures multiset(b[..k] + b[k + 1..]) == multiset(b) - multiset{b[k]}
  {
    assert b == b[..k] + [b[k]] + b[k + 1..];
  }

  /** Reordering the cards does not change any multiplicity. */
  lemma {:induction false} CountPermutation(a: seq<Card>, b: seq<Card>, r: Rank)
    requires multiset(a) == multiset(b)
    ensures Count(a, r) == Count(b, r)
    decreases |a|
  {
    if a == [] {
      assert |b| == |multiset(b)| == 0;
    } else {
      var x := a[0];
      assert x in multiset(b);
      var k :| 0 <= k < |b| && b[k] == x;
      var rest := b[..k] + b[k + 1..];
      MultisetRemove(b, k);
      assert multiset(rest) == multiset(b) - multiset{x};
      assert a == [x] + a[1..];
      assert multiset(a[1..]) == multiset(a) - multiset{x};
      CountPermutation(a[1..], rest, r);
      CountRemove(b, k, r);
      assert Count(a, r) == (if x.rank == r then 1 else 0) + Count(a[1..], r);
    }
  }

  /** A card's own rank occurs at least once. */
  lemma {:induction false} CountMember(cards: seq<Card>, c: Card)
    requires c in cards
    ensures Count(cards, c.rank) >= 1
  {
    if cards[0] != c {
      assert c in cards[1..];
      CountMember(cards[1..], c);
    }
  }

  /** All cards share one suit. */
  ghost predicate AllSameSuit(cards: seq<Card>) {
    forall c, d | c in cards && d in cards :: c.suit == d.suit
  }

  /** `m` is the largest number of cards sharing a rank. */
  ghost predicate MaxMultiplicity(cards: seq<Card>, m: nat) {
    && (exists c | c in cards :: Count(cards, c.rank) == m)
    && (forall c | c in cards :: Count(cards, c.rank) <= m)
  }

  /** `t` is the highest rank in the hand. */
  ghost predicate HighestRank(cards: seq<Card>, t: Rank) {
    && (exists c | c in cards :: c.rank == t)
    && (forall c | c in cards :: RankOrd(c.rank) <= RankOrd(t))
  }

  /** `t` is the highest rank held exactly `m` times. */
  ghost predicate HighestRankOfMultiplicity(cards: seq<Card>, t: Rank, m: nat) {
    && (exists c | c in cards :: c.rank == t)
    && Count(cards, t) == m
    && (forall c | c in cards && Count(cards, c.rank) == m :: RankOrd(c.rank) <= RankOrd(t))
  }

  /** The classification the library implements, rule by rule: a flush if
      every suit agrees; otherwise three of a kind if the largest rank
      multiplicity is exactly 3, one pair if it is exactly 2, and high card
      in every other case (four or five of a kind included). Flush and high
      card are broken by the highest rank, the others by the highest rank of
      the largest multiplicity, so two pairs rank by the higher pair and a
      full house by its triple. */
  ghost predicate ClassifiedAs(cards: seq<Card>, cat: Category, tie: Rank) {
    if AllSameSuit(cards) then cat == Flush && HighestRank(cards, tie)
    else if MaxMultiplicity(cards, 3) then
      cat == ThreeMatch && HighestRankOfMultiplicity(cards, tie, 3)
    else if MaxMultiplicity(cards, 2) then
      cat == OnePair && HighestRankOfMultiplicity(cards, tie, 2)
    else cat == HighCard && HighestRank(cards, tie)
  }

  lemma MaxMultiplicityUnique(cards: seq<Card>, m: nat, n: nat)
    requires MaxMultiplicity(cards, m) && MaxMultiplicity(cards, n)
    ensures m == n
  {
    var c :| c in cards && Count(cards, c.rank) == m;
    var d :| d in cards && Count(cards, d.rank) == n;
  }

  /** The rules pick exactly one category and one tiebreak for a hand. */
  lemma ClassificationUnique(cards: seq<Card>, cat: Category, tie: Rank, cat': Category, tie': Rank)
    requires ClassifiedAs(cards, cat, tie) && ClassifiedAs(cards, cat', tie')
    ensures cat == cat' && tie == tie'
  {
    var c :| c in cards && c.rank == tie;
    var c' :| c' in cards && c'.rank == tie';
    RankOrdInjective(tie, tie');
  }

  /** `a` and `b` hold the same cards, with the same rank multiplicities. */
  ghost predicate SameHolding(a: seq<Card>, b: seq<Card>) {
    && (forall c :: c in a <==> c in b)
    && (forall r :: Count(a, r) == Count(b, r))
  }

  lemma SameHoldingClassified(a: seq<Card>, b: seq<Card>, cat: Category, tie: Rank)
    requires SameHolding(a, b)
    requires ClassifiedAs(a, cat, tie)
    ensures ClassifiedAs(b, cat, tie)
  {
    assert AllSameSuit(a) <==> AllSameSuit(b);
    SameHoldingMax(a, b, 3);
    SameHoldingMax(b, a, 3);
    SameHoldingMax(a, b, 2);
    SameHoldingMax(b, a, 2);
    SameHoldingHighest(a, b, tie);
    SameHoldingHighestOf(a, b, tie, 3);
    SameHoldingHighestOf(a, b, tie, 2);
  }

  lemma SameHoldingMax(a: seq<Card>, b: seq<Card>, m: nat)
    requires SameHolding(a, b)
    ensures MaxMultiplicity(a, m) ==> MaxMultiplicity(b, m)
  {
    if MaxMultiplicity(a, m) {
      var c :| c in a && Count(a, c.rank) == m;
      assert c in b && Count(b, c.rank) == m;
    }
  }

  lemma SameHoldingHighest(a: seq<Card>, b: seq<Card>, t: Rank)
    requires SameHolding(a, b)
    ensures HighestRank(a, t) ==> HighestRank(b, t)
  {
    if HighestRank(a, t) {
      var c :| c in a && c.rank == t;
      assert c in b;
    }
  }

  lemma SameHoldingHighestOf(a: seq<Card>, b: seq<Card>, t: Rank, m: nat)
    requires SameHolding(a, b)
    ensures HighestRankOfMultiplicity(a, t, m) ==> HighestRankOfMultiplicity(b, t, m)
  {
    if HighestRankOfMultiplicity(a, t, m) {
      var c :| c in a && c.rank == t;
      assert c in b;
    }
  }

  /** The classification depends only on which cards the hand holds, not on
      their order. */
  lemma ClassifiedPermutation(a: seq<Card>, b: seq<Card>, cat: Category, tie: Rank)
    requires multiset(a) == multiset(b)
    ensures ClassifiedAs(a, cat, tie) <==> ClassifiedAs(b, cat, tie)
  {
    forall r ensures Count(a, r) == Count(b, r) {
      CountPermutation(a, b, r);
    }
    forall c ensures c in a <==> c in b {
      assert c in a <==> c in multiset(a);
      assert c in b <==> c in multiset(b);
    }
    if ClassifiedAs(a, cat, tie) {
      SameHoldingClassified(a, b, cat, tie);
    }
    if ClassifiedAs(b, cat, tie) {
      SameHoldingClassified(b, a, cat, tie);
    }
  }

  // ---------------------------------------------------------------------
  // The library's own algorithm

  /** Every card has the suit of `ref` (CompareSuite on each). */
  function AllSuitOf(cards: seq<Card>, ref: Card): (r: bool)
    ensures r <==> forall c | c in cards :: c.suit == ref.suit
  {
    if cards == [] then true
    else
      assert forall c | c in cards :: c == cards[0] || c in cards[1..];
      SameSuit(ref, cards[0]) && AllSuitOf(cards[1..], ref)
  }

  /** hasFlush: every card has the first card's suit. */
  function HasFlush(cards: seq<Card>): (r: bool)
    requires |cards| > 0
    ensures r <==> AllSameSuit(cards)
  {
    AllSuitOf(cards, cards[0])
  }

  /** The state findMatches keeps: the best count seen so far and the
      highCard field it writes. */
  datatype Tally = Tally(highCount: nat, highCard: Rank)

  /** The inner loop of findMatches for one current card: walks the hand,
      counting cards of the current card's rank, and records the current rank
      whenever the running count beats the best count. The outcome: the best
      count becomes the larger of the old best and this rank's multiplicity,
      and the rank is recorded exactly when the multiplicity beat the old
      best. */
  function MatchInner(cur: Card, rest: seq<Card>, count: nat, t: Tally): (r: Tally)
    requires count <= t.highCount
    ensures var total := count + Count(rest, cur.rank);
      && r.highCount == (if total > t.highCount then total else t.highCount)
      && r.highCard == (if total > t.highCount then cur.rank else t.highCard)
    decreases |rest|
  {
    if rest == [] then t
    else
      var count' := if CompareCards(cur, rest[0]) == 0 then count + 1 else count;
      var t' := if count' > t.highCount then Tally(count', cur.rank) else t;
      MatchInner(cur, rest[1..], count', t')
  }

  /** Position `j` (from `i` on) is the first whose rank multiplicity reaches
      the final best count, and its rank is the one recorded. */
  ghost predicate FirstReaching(all: seq<Card>, i: nat, j: nat, r: Tally)
    requires i <= j < |all|
  {
    && Count(all, all[j].rank) == r.highCount
    && all[j].rank == r.highCard
    && forall k | i <= k < j :: Count(all, all[k].rank) < r.highCount
  }

  /** The outer loop of findMatches from position `i` on. The best count ends
      as the largest of the old best and the multiplicities met; if it grew,
      the recorded rank is that of the first card reaching it, otherwise the
      recorded rank is untouched. */
  function MatchOuter(all: seq<Card>, i: nat, t: Tally): (r: Tally)
    requires i <= |all|
    ensures r.highCount >= t.highCount
    ensures forall j | i <= j < |all| :: Count(all, all[j].rank) <= r.highCount
    ensures r.highCount == t.highCount ==> r.highCard == t.highCard
    ensures r.highCount > t.highCount ==> exists j | i <= j < |all| :: FirstReaching(all, i, j, r)
    decreases |all| - i
  {
    if i == |all| then t
    else
      var t' := MatchInner(all[i], all, 0, t);
      var r := MatchOuter(all, i + 1, t');
      assert r.highCount > t.highCount ==> exists j | i <= j < |all| :: FirstReaching(all, i, j, r) by {
        if r.highCount > t.highCount {
          if r.highCount == t'.highCount {
            assert FirstReaching(all, i, i, r);
          } else {
            var j :| i + 1 <= j < |all| && FirstReaching(all, i + 1, j, r);
            assert FirstReaching(all, i, j, r);
          }
        }
      }
      r
  }

  /** findMatches, started with the highCard field holding `highCard`:
      returns the best count and the field's new value. */
  function FindMatches(cards: seq<Card>, highCard: Rank): Tally {
    MatchOuter(cards, 0, Tally(1, highCard))
  }

  /** On cards sorted best first, findMatches returns the largest rank
      multiplicity and, when that is at least two, leaves highCard at the
      highest rank held that many times. */
  lemma FindMatchesSpec(cards: seq<Card>, highCard: Rank)
    requires |cards| > 0 && NonIncreasing(cards, CardKey)
    ensures var r := FindMatches(cards, highCard);
      && MaxMultiplicity(cards, r.highCount)
      && (r.highCount >= 2 ==> HighestRankOfMultiplicity(cards, r.highCard, r.highCount))
  {
    var r := FindMatches(cards, highCard);
    forall c | c in cards ensures Count(cards, c.rank) <= r.highCount {
      var j :| 0 <= j < |cards| && cards[j] == c;
    }
    if r.highCount == 1 {
      CountMember(cards, cards[0]);
      assert Count(cards, cards[0].rank) == 1;
    } else {
      var j :| 0 <= j < |cards| && FirstReaching(cards, 0, j, r);
      assert cards[j] in cards;
      forall c | c in cards && Count(cards, c.rank) == r.highCount
        ensures RankOrd(c.rank) <= RankOrd(r.highCard)
      {
        var k :| 0 <= k < |cards| && cards[k] == c;
        assert Count(cards, cards[k].rank) == r.highCount;
        assert j <= k;
        if k > j {
          assert CardKey(cards[j]) >= CardKey(cards[k]);
        }
      }
    }
  }

  /** Sorted cards begin with a highest rank. */
  lemma FirstIsHighest(cards: seq<Card>)
    requires |cards| > 0 && NonIncreasing(cards, CardKey)
    ensures HighestRank(cards, cards[0].rank)
  {
    forall c | c in cards ensures RankOrd(c.rank) <= RankOrd(cards[0].rank) {
      FirstIsLargest(cards, CardKey, c);
    }
  }

  /** BestHand, on cards already sorted best first: Flush, else findMatches
      equal to 3, else equal to 2, else HighCard, with the tiebreak it leaves
      in the highCard field. */
  function BestHand(cards: seq<Card>): (r: (Category, Rank))
    requires |cards| > 0 && NonIncreasing(cards, CardKey)
    ensures ClassifiedAs(cards, r.0, r.1)
  {
    FirstIsHighest(cards);
    if HasFlush(cards) then (Flush, cards[0].rank)
    else
      // hasFlush left the field at its default. The library runs findMatches
      // again for the pair test; that run resets its count and rewrites
      // highCard to the same rank, so one run gives the same tally.
      var m := FindMatches(cards, Two);
      FindMatchesSpec(cards, Two);
      MaxMultiplicityFacts(cards, m.highCount);
      if m.highCount == 3 then (ThreeMatch, m.highCard)
      else if m.highCount == 2 then (OnePair, m.highCard)
      else (HighCard, cards[0].rank)
  }

  lemma MaxMultiplicityFacts(cards: seq<Card>, m: nat)
    requires MaxMultiplicity(cards, m)
    ensures MaxMultiplicity(cards, 3) <==> m == 3
    ensures MaxMultiplicity(cards, 2) <==> m == 2
  {
    if MaxMultiplicity(cards, 3) {
      MaxMultiplicityUnique(cards, m, 3);
    }
    if MaxMultiplicity(cards, 2) {
      MaxMultiplicityUnique(cards, m, 2);
    }
  }

  // ---------------------------------------------------------------------
  // Parsing

  /** The foreach of the Hand constructor, for any element parser: every
      token must parse, and one failure abandons all the results. */
  function ParseAll<T>(tokens: seq<string>, parse: string -> Option<T>): (r: Option<seq<T>>)
    ensures r.Some? <==> forall i | 0 <= i < |tokens| :: parse(tokens[i]).Some?
    ensures r.Some? ==> |r.value| == |tokens|
    ensures r.Some? ==> forall i | 0 <= i < |tokens| :: parse(tokens[i]) == Some(r.value[i])
    decreases |tokens|
  {
    if tokens == [] then Some([])
    else
      var head := parse(tokens[0]);
      if head.None? then None
      else
        var tail := ParseAll(tokens[1..], parse);
        assert forall i | 1 <= i < |tokens| :: tokens[i] == tokens[1..][i - 1];
        if tail.None? then None
        else Some([head.value] + tail.value)
  }

  /** The Hand constructor: split on commas, parse five cards, sort them
      best first and classify them; any failure gives the invalid hand. */
  function ParseHand(text: string): Hand {
    var pieces := Split(text, ',');
    if |pieces| != 5 then Invalid
    else
      match ParseAll(pieces, ParseCard)
      case None => Invalid
      case Some(parsed) => Deal(parsed)
  }

  /** The valid branch of Hand(string): sort the five parsed cards best first
      and classify them. */
  function Deal(parsed: seq<Card>): (h: Hand)
    requires |parsed| == 5
    ensures h.Valid? && multiset(h.cards) == multiset(parsed)
  {
    var sorted := Sort(parsed, CardKey);
    assert |sorted| == |multiset(sorted)| == |parsed|;
    var r := BestHand(sorted);
    Valid(sorted, r.0, r.1)
  }

  /** A hand is valid exactly when the text splits at its commas into five
      pieces that each parse as a card. A valid hand holds those five cards,
      sorted best first, classified by the rules of ClassifiedAs. Anything
      else gives the invalid hand: no cards, NoHand, tiebreak Two, never a
      partial hand. TwoPair, Straight, FullHouse, FourMatch and StraightFlush
      are never produced. */
  lemma ParseHandSpec(text: string)
    ensures var h := ParseHand(text);
      && (h.Valid? <==>
          && |Split(text, ',')| == 5
          && forall i | 0 <= i < 5 :: ParseCard(Split(text, ',')[i]).Some?)
      && (h.Valid? ==>
          && ParseAll(Split(text, ','), ParseCard).Some?
          && multiset(h.cards) == multiset(ParseAll(Split(text, ','), ParseCard).value)
          && |h.cards| == 5
          && NonIncreasing(h.cards, CardKey)
          && ClassifiedAs(h.cards, h.bestHand, h.highCard))
      && (h.Invalid? ==> h.Best() == NoHand && h.High() == Two)
      && h.Best() in {NoHand, HighCard, OnePair, ThreeMatch, Flush}
  {
    ParseHandValid(text);
    var pieces := Split(text, ',');
    if |pieces| == 5 {
      var parsed := ParseAll(pieces, ParseCard);
      if parsed.Some? {
        DealSpec(parsed.value);
      }
    }
  }

  /** The validity half of ParseHandSpec. */
  lemma ParseHandValid(text: string)
    ensures ParseHand(text).Valid? <==>
      && |Split(text, ',')| == 5
      && ParseAll(Split(text, ','), ParseCard).Some?
  {
  }

  /** A dealt hand holds its five cards best first, classified by the rules
      of ClassifiedAs, in one of the five categories the scan can reach. */
  lemma DealSpec(parsed: seq<Card>)
    requires |parsed| == 5
    ensures var h := Deal(parsed);
      && |h.cards| == 5
      && NonIncreasing(h.cards, CardKey)
      && ClassifiedAs(h.cards, h.bestHand, h.highCard)
      && h.bestHand in {HighCard, OnePair, ThreeMatch, Flush}
  {
    var sorted := Sort(parsed, CardKey);
    assert |sorted| == |multiset(sorted)| == |parsed|;
  }

  // ---------------------------------------------------------------------
  // Ordering

  /** Hand.CompareTo: -1 when `a` is the better hand (it sorts first): a
      higher category, or the same category and a higher tiebreak; 0 when
      both agree; 1 otherwise. */
  function CompareHands(a: Hand, b: Hand): (r: int)
    ensures r == 0 <==> a.Best() == b.Best() && a.High() == b.High()
    ensures r == -1 <==>
      || CategoryOrd(a.Best()) > CategoryOrd(b.Best())
      || (a.Best() == b.Best() && RankOrd(a.High()) > RankOrd(b.High()))
    ensures r == 1 <==>
      || CategoryOrd(a.Best()) < CategoryOrd(b.Best())
      || (a.Best() == b.Best() && RankOrd(a.High()) < RankOrd(b.High()))
  {
    RankOrdInjective(a.High(), b.High());
    if CategoryOrd(b.Best()) < CategoryOrd(a.Best()) then -1
    else if b.Best() == a.Best() then
      if RankOrd(b.High()) < RankOrd(a.High()) then -1
      else if b.High() == a.High() then 0
      else 1
    else 1
  }

  /** The key hands sort by: category first, tiebreak second. */
  function HandKey(h: Hand): int {
    CategoryOrd(h.Best()) * 13 + RankOrd(h.High())
  }

  /** The hand comparison is exactly the comparison of keys, so it is a
      total preorder. */
  lemma CompareHandsByKey(a: Hand, b: Hand)
    ensures CompareHands(a, b) == -1 <==> HandKey(a) > HandKey(b)
    ensures CompareHands(a, b) == 0 <==> HandKey(a) == HandKey(b)
    ensures CompareHands(a, b) == 1 <==> HandKey(a) < HandKey(b)
  {
    RankOrdInjective(a.High(), b.High());
    CategoryOrdInjective(a.Best(), b.Best());
  }

  lemma CategoryOrdInjective(a: Category, b: Category)
    ensures CategoryOrd(a) == CategoryOrd(b) <==> a == b
  {
  }

  /** Swapping the arguments flips the sign. */
  lemma CompareHandsAntisymmetric(a: Hand, b: Hand)
    ensures CompareHands(a, b) == -CompareHands(b, a)
  {
    CompareHandsByKey(a, b);
    CompareHandsByKey(b, a);
  }

  /** "At least as good as" is transitive, and so is "strictly better". */
  lemma CompareHandsTransitive(a: Hand, b: Hand, c: Hand)
    ensures CompareHands(a, b) <= 0 && CompareHands(b, c) <= 0 ==> CompareHands(a, c) <= 0
    ensures CompareHands(a, b) == -1 && CompareHands(b, c) == -1 ==> CompareHands(a, c) == -1
  {
    CompareHandsByKey(a, b);
    CompareHandsByKey(b, c);
    CompareHandsByKey(a, c);
  }

  // ---------------------------------------------------------------------
  // Display

  /** Hand.ToString: each card's token followed by a space, in sorted order;
      "No Hand" for an invalid hand. */
  function DisplayHand(h: Hand): string {
    if h.Valid? then DisplayCards(h.cards) else "No Hand"
  }

  function DisplayCards(cards: seq<Card>): string {
    if cards == [] then "" else DisplayCard(cards[0]) + " " + DisplayCards(cards[1..])
  }

  /** The display of cards is their tokens joined by spaces, with a space
      after the last one. */
  lemma {:induction false} DisplayCardsJoin(cards: seq<Card>)
    ensures DisplayCards(cards) == Join(Tokens(cards) + [""], ' ')
  {
    if cards != [] {
      DisplayCardsJoin(cards[1..]);
      assert (Tokens(cards) + [""])[1..] == Tokens(cards[1..]) + [""];
    }
  }

  /** Cards whose tokens are letters and digits display as text that splits
      at its spaces into exactly their tokens, then the empty text after the
      trailing space. */
  lemma DisplayCardsSplit(cards: seq<Card>)
    requires forall c | c in cards :: AllAlphanumeric(c.text)
    ensures Split(DisplayCards(cards), ' ') == Tokens(cards) + [""]
  {
    var parts := Tokens(cards) + [""];
    forall i | 0 <= i < |parts| ensures ' ' !in parts[i] {
      if i < |cards| {
        assert cards[i] in cards;
        var t := cards[i].text;
        forall j | 0 <= j < |t| ensures t[j] != ' ' {
          assert IsAlphanumeric(t[j]);
        }
      }
    }
    DisplayCardsJoin(cards);
    SplitJoin(parts, ' ');
  }

  /** Dealing keeps each card's token, so tokens of letters and digits stay
      so. */
  lemma DealtTokensAlphanumeric(parsed: seq<Card>)
    requires |parsed| == 5
    requires forall i | 0 <= i < 5 :: AllAlphanumeric(parsed[i].text)
    ensures forall c | c in Deal(parsed).cards :: AllAlphanumeric(c.text)
  {
    var h := Deal(parsed);
    forall c | c in h.cards ensures AllAlphanumeric(c.text) {
      assert c in multiset(parsed);
      var i :| 0 <= i < |parsed| && parsed[i] == c;
    }
  }

  /** Every card of a valid hand keeps a token of letters and digits only. */
  lemma ParsedTokensAlphanumeric(text: string)
    ensures var h := ParseHand(text);
      h.Valid? ==> forall c | c in h.cards :: AllAlphanumeric(c.text)
  {
    ParseHandValid(text);
    var pieces := Split(text, ',');
    if |pieces| == 5 {
      var parsed := ParseAll(pieces, ParseCard);
      if parsed.Some? {
        forall i | 0 <= i < 5 ensures AllAlphanumeric(parsed.value[i].text) {
          assert ParseCard(pieces[i]) == Some(parsed.value[i]);
        }
        DealtTokensAlphanumeric(parsed.value);
      }
    }
  }

  /** Hand.ToString of a parsed hand: split at its spaces it gives back the
      tokens of the five cards in sorted order, then the empty text after
      the trailing space; a hand that failed to parse shows "No Hand". */
  lemma DisplayParsedHand(text: string)
    ensures var h := ParseHand(text);
      && (h.Invalid? ==> DisplayHand(h) == "No Hand")
      && (h.Valid? ==> Split(DisplayHand(h), ' ') == Tokens(h.cards) + [""])
  {
    var h := ParseHand(text);
    if h.Valid? {
      ParsedTokensAlphanumeric(text);
      DisplayCardsSplit(h.cards);
    }
  }

  /** The tokens of the cards, in order. */
  function Tokens(cards: seq<Card>): (r: seq<string>)
    ensures |r| == |cards|
    ensures forall i | 0 <= i < |cards| :: r[i] == DisplayCard(cards[i])
  {
    if cards == [] then [] else [DisplayCard(cards[0])] + Tokens(cards[1..])
  }
}
