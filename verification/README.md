# Poker hand evaluator, modelled in Dafny

This project models the `GameEvaluator` poker library. The library reads
players written as text such as `"Bobby, 3C, 3D, 3S, 8C, 10D"`, parses each
player's five cards and classifies the hand. It then orders the players
best first and reports every player tied with the best.

The modules follow the library's classes:

- `Text` (text.dfy) writes out the .NET string operations the library uses:
  `String.Trim` with the exact `Char.IsWhiteSpace` set, the pattern
  `^[a-zA-Z0-9]*$`, ASCII `ToUpper`, `String.Split` on one character,
  `String.Join` (its partner) and `String.IndexOf`.
- `Sorting` (sorting.dfy) models `ArrayList.Sort` with a comparator that
  returns -1/0/1 from an integer key. It specifies the result as a
  permutation in non-increasing key order.
- `Cards` (cards.dfy) holds the `Suite` and `CardValue` enumerations, the
  `Card` constructor with its `assignSuite` and `assignValue` helpers,
  `CompareTo`, `CompareSuite` and `ToString`.
- `Hands` (hands.dfy) holds the `PokerHand` enumeration, the `Hand`
  constructor, `BestHand`, `hasFlush`, `findMatches`, `CompareTo` and
  `ToString`.
  - A hand is either `Valid(cards, bestHand, highCard)` or `Invalid`.
  - `Invalid` stands for the object whose `cards` is null and whose
    `bestHand` is `NoHand`. Its `highCard` keeps the enumeration default
    `Two`.
  - The classification rules are also stated on their own, as
    `ClassifiedAs`. The library's scanning algorithm is proved to implement
    them.
- `Players` (players.dfy) holds `Player`: both constructors, `CompareTo` and
  `ToString`.
- `Evaluator` (evaluator.dfy) holds `PokerHandEvaluator`, modelled as a
  sequence of players.
  - Adding and clearing players return a new sequence.
  - `EvaluateHands` returns the sorted roster together with the players it
    would print.
- `Scenarios` (scenarios.dfy) holds worked examples:
  - rejected card tokens;
  - how three of a kind, a full house (in either listing order), two
    pair, four of a kind, a flush and a plain high card are classified;
  - the sample players of the console driver;
  - tied evaluations.

The comparators follow the library's convention: -1 means "ranks first",
that is, better, because the ascending sort puts the best hand at the front.
Each comparator is shown to be exactly the comparison of an integer key
(`CardKey`, `HandKey`, `PlayerKey`). That makes it a total preorder.

### Behaviour worth noting

- The three-of-a-kind category is named `ThreeMatch`, and that is the name
  the display prints.
- A parsed card keeps its token in the casing it was written in, so `"3h"`
  displays as `"3h"`; only the rank and suit lookups ignore case.
- `ArrayList.Sort` is not stable. Nothing here depends on the order of
  players or cards that compare equal.

## Model

| member | source | states |
|---|---|---|
| Text.Trim | Poker/Poker/GameEvaluator.cs:296 | The trimmed token is the input with only white space cut from each end, and it neither starts nor ends with white space |
| Text.TrimIdempotent | Poker/Poker/GameEvaluator.cs:296 | Trimming an already trimmed token changes nothing |
| Text.UpperSpec | Poker/Poker/GameEvaluator.cs:322 | Upper-casing leaves no lower-case ASCII letter, changes only lower-case letters (each to its capital), and upper-casing again changes nothing |
| Text.UpperKeepsAlphanumeric | Poker/Poker/GameEvaluator.cs:297-298 | A character upper-cases to a letter or digit exactly when it was one, so upper-casing cannot change the outcome of the alphanumeric check |
| Text.Split | Poker/Poker/GameEvaluator.cs:166 | Splitting on a comma gives one more piece than there are commas |
| Text.SplitSpec | Poker/Poker/GameEvaluator.cs:166 | The pieces hold no separator, and joining them with it gives the input back |
| Text.SplitJoin | Poker/Poker/GameEvaluator.cs:166 | Splitting undoes joining when no piece contains the separator |
| Text.IndexOf | Poker/Poker/GameEvaluator.cs:105-107 | The result is -1 exactly when the character is absent; otherwise it is the first position holding it |
| Text.CutAt | Poker/Poker/GameEvaluator.cs:105-111 | With a comma present, the name is the comma-free prefix up to the first comma and the rest follows that comma; without one, the whole text is the name |
| Cards.ValueOf | Poker/Poker/GameEvaluator.cs:342-389 | A rank is found exactly when the upper-cased prefix is the text of some rank, and then it is that rank |
| Cards.SuitOf | Poker/Poker/GameEvaluator.cs:320-340 | A suit is found exactly when the upper-cased letter is H, C, S or D, and then it is that suit |
| Cards.ParseCardSpec | Poker/Poker/GameEvaluator.cs:293-318 | A token parses exactly when, trimmed and upper-cased, it is a rank text followed by a suit letter; the card has that rank and suit and keeps the trimmed token |
| Cards.ParseCardAccepts | Poker/Poker/GameEvaluator.cs:293-318 | A parsed card keeps the trimmed token, and that token upper-cases to the card's rank and suit |
| Cards.ParseCardRejects | Poker/Poker/GameEvaluator.cs:293-318 | Parsing fails exactly when the trimmed, upper-cased token names no rank and suit |
| Cards.EveryCardTokenParses | Poker/Poker/GameEvaluator.cs:298-305 | Anything that upper-cases to a card token has 1 to 3 letters or digits, and its prefix and last letter map to that rank and suit |
| Cards.CardTextParses | Poker/Poker/GameEvaluator.cs:293-389 | The upper-case token of every rank and suit parses back to that rank and suit |
| Cards.DisplayRoundTrip | Poker/Poker/GameEvaluator.cs:417-420 | A card displays as its trimmed token, and parsing that display gives back the same card |
| Cards.CompareCards | Poker/Poker/GameEvaluator.cs:391-406 | The card comparison is -1, 0 or 1 exactly when the first card's rank is higher than, equal to or lower than the second's |
| Cards.CompareCardsRankOnly | Poker/Poker/GameEvaluator.cs:391-406 | The comparison ignores suit and text, and swapping the cards flips its sign |
| Sorting.Sort | Poker/Poker/GameEvaluator.cs:178-179 | The sorted cards are a permutation of the input in non-increasing key order |
| Sorting.FirstIsLargest | Poker/Poker/GameEvaluator.cs:70-73 | After sorting, the first element has the largest key |
| Hands.ClassificationUnique | Poker/Poker/GameEvaluator.cs:229-249 | The classification rules give every hand exactly one category and one tiebreak |
| Hands.ClassifiedPermutation | Poker/Poker/GameEvaluator.cs:229-285 | The classification depends only on which cards are held, not on their order |
| Hands.CountPermutation | Poker/Poker/GameEvaluator.cs:271-283 | Reordering the cards changes no rank's multiplicity |
| Hands.AllSuitOf | Poker/Poker/GameEvaluator.cs:256-263 | The suit scan succeeds exactly when every card has the reference card's suit |
| Hands.HasFlush | Poker/Poker/GameEvaluator.cs:254-266 | The flush test holds exactly when all cards share one suit |
| Hands.MatchInner | Poker/Poker/GameEvaluator.cs:273-282 | The inner scan raises the best count to this rank's multiplicity when that is larger, and records the rank exactly then |
| Hands.MatchOuter | Poker/Poker/GameEvaluator.cs:271-284 | The outer scan ends with the largest multiplicity met; the rank it records is that of the first card reaching it, or unchanged if the count never grew |
| Hands.FindMatchesSpec | Poker/Poker/GameEvaluator.cs:267-285 | On cards sorted best first, the match count is the largest rank multiplicity; when it is at least 2, the recorded rank is the highest rank held that many times |
| Hands.FirstIsHighest | Poker/Poker/GameEvaluator.cs:245-246 | The first of the sorted cards has the highest rank of the hand |
| Hands.BestHand | Poker/Poker/GameEvaluator.cs:229-249 | The category and tiebreak BestHand leaves satisfy the classification rules: Flush, else ThreeMatch at multiplicity 3, else OnePair at 2, else HighCard |
| Hands.ParseAll | Poker/Poker/GameEvaluator.cs:173-177 | Parsing all pieces succeeds exactly when every piece parses; one result per piece, in order |
| Hands.Deal | Poker/Poker/GameEvaluator.cs:178-181 | Dealing five parsed cards gives a valid hand holding exactly those cards |
| Hands.DealSpec | Poker/Poker/GameEvaluator.cs:178-181 | A dealt hand holds five cards sorted best first, classified by the rules, in one of Flush, ThreeMatch, OnePair or HighCard |
| Hands.ParseHandSpec | Poker/Poker/GameEvaluator.cs:163-187 | A hand is valid exactly when the text splits into five pieces that all parse. A valid hand holds a sorted permutation of those cards, classified by the rules. Anything else is invalid, with NoHand and tiebreak Two. TwoPair, Straight, FullHouse, FourMatch and StraightFlush never occur |
| Hands.CompareHands | Poker/Poker/GameEvaluator.cs:202-228 | The hand comparison is 0 exactly when category and tiebreak agree, and -1 exactly when the first hand has the higher category, or the same category and a higher tiebreak |
| Hands.CompareHandsByKey | Poker/Poker/GameEvaluator.cs:202-228 | The hand comparison is exactly the comparison of a key (category, then tiebreak), so it is a total preorder |
| Hands.CompareHandsAntisymmetric | Poker/Poker/GameEvaluator.cs:202-228 | Swapping the two hands flips the sign of the comparison |
| Hands.CompareHandsTransitive | Poker/Poker/GameEvaluator.cs:202-228 | "At least as good" and "strictly better" are both transitive |
| Hands.DisplayCardsSplit | Poker/Poker/GameEvaluator.cs:193-196 | Split at spaces, the display of cards with letter-and-digit tokens gives exactly those tokens, then the empty text after the last space |
| Hands.DisplayParsedHand | Poker/Poker/GameEvaluator.cs:188-201 | A parsed hand displays its five tokens in sorted order, each followed by a space, recoverable by splitting at spaces; an invalid hand displays "No Hand" |
| Players.ParsePlayer | Poker/Poker/GameEvaluator.cs:102-112 | With a comma, the name is the text before the first comma and the hand is dealt from the rest; without one, the whole text is the name and there is no hand |
| Players.NewPlayer | Poker/Poker/GameEvaluator.cs:114-119 | The two-argument constructor keeps the name and always holds a hand, valid exactly when the cards parse |
| Players.ParsePlayerRoundTrip | Poker/Poker/GameEvaluator.cs:102-119 | Writing a comma-free name, a comma and the cards gives the same player as the two-argument constructor |
| Players.ComparePlayers | Poker/Poker/GameEvaluator.cs:122-138 | Two players without a hand tie; a player without a hand loses to any player with one, even an invalid hand; otherwise the hands decide |
| Players.ComparePlayersByKey | Poker/Poker/GameEvaluator.cs:122-138 | The player comparison is exactly the comparison of a key that puts "no hand" below every hand |
| Players.ComparePlayersAntisymmetric | Poker/Poker/GameEvaluator.cs:122-138 | Swapping the two players flips the sign of the comparison |
| Players.ComparePlayersTransitive | Poker/Poker/GameEvaluator.cs:122-138 | "At least as good" and "strictly better" are both transitive for players |
| Players.DisplayDistinguishes | Poker/Poker/GameEvaluator.cs:144-156 | For players with the same name, equal displays mean the same presence of a hand and the same category, plus the same tiebreak for a ranked hand |
| Players.SuffixInjective | Poker/Poker/GameEvaluator.cs:146-154 | The text after "name:" tells apart no hand, an invalid hand and each ranked category and tiebreak |
| Evaluator.AddPlayer | Poker/Poker/GameEvaluator.cs:37-40 | Adding a player appends exactly that player and leaves the others as they were |
| Evaluator.AddPlayerSpec | Poker/Poker/GameEvaluator.cs:41-44 | Adding a player from text appends exactly the player that text describes and keeps the others; that player has a hand exactly when the text has a comma |
| Evaluator.AddPlayerNamed | Poker/Poker/GameEvaluator.cs:45-48 | Adding a named player appends exactly one player with that name and the hand dealt from the cards |
| Evaluator.NewEvaluator | Poker/Poker/GameEvaluator.cs:29-36 | The roster holds one player per text, in the given order |
| Evaluator.ClearPlayers | Poker/Poker/GameEvaluator.cs:90-93 | Clearing leaves no players |
| Evaluator.DescribeLines | Poker/Poker/GameEvaluator.cs:50-65 | If no name holds a newline, the listing of a non-empty roster splits at newlines into exactly the players' display lines, in order |
| Evaluator.TiedWith | Poker/Poker/GameEvaluator.cs:74-81 | The reported players are exactly the copies of the players that compare equal to the top player |
| Evaluator.EvaluateHands | Poker/Poker/GameEvaluator.cs:68-88 | The roster is sorted best first as a permutation. The winners are exactly the players at least as good as everyone, every copy included. There are winners exactly when there are players. Every other player is strictly worse than each winner |
| Evaluator.WinnersAreBest | Poker/Poker/GameEvaluator.cs:70-82 | Players comparing equal to the first of a sorted roster are exactly the maxima of the roster |
| Scenarios.RejectsSuitAlone | Poker/Poker/GameEvaluator.cs:344-387 | "H" is not a card: the empty rank prefix names no rank |
| Scenarios.RejectsRankOne | Poker/Poker/GameEvaluator.cs:344-387 | "1H" is not a card: there is no rank "1" |
| Scenarios.RejectsFourCharacters | Poker/Poker/GameEvaluator.cs:298 | "10HH" is not a card: it is longer than three characters |
| Scenarios.RejectsSymbol | Poker/Poker/GameEvaluator.cs:297-298 | "3H!" is not a card: it holds a character that is not a letter or digit |
| Scenarios.AcceptsLowerCase | Poker/Poker/GameEvaluator.cs:322-346 | "qs" is the queen of spades and keeps its lower-case token |
| Scenarios.Dealt | Poker/Poker/GameEvaluator.cs:163-187 | Five cards listed, comma separated, by any comma-free tokens that parse to them (spaces and lower case allowed) give a valid hand holding them, with the category and tiebreak the rules assign |
| Scenarios.ThreeOfAKind | Poker/Poker/GameEvaluator.cs:235-237 | Three of a kind listed first with two odd cards, not all one suit, is ThreeMatch broken by the triple's rank, even when a card is repeated |
| Scenarios.FullHouse | Poker/Poker/GameEvaluator.cs:277-281 | A full house listed triple first is ThreeMatch, broken by the triple's rank even when the pair is higher |
| Scenarios.FullHousePairFirst | Poker/Poker/GameEvaluator.cs:277-281 | A full house listed pair first is still ThreeMatch, broken by the triple's rank |
| Scenarios.TwoPair | Poker/Poker/GameEvaluator.cs:277-281 | Two pairs listed higher pair first are OnePair, broken by the higher pair |
| Scenarios.FourOfAKind | Poker/Poker/GameEvaluator.cs:235-247 | Four of a kind falls through to HighCard, broken by the highest rank held |
| Scenarios.NoMatch | Poker/Poker/GameEvaluator.cs:243-247 | Five distinct ranks listed highest first, not all one suit, are HighCard broken by the first card's rank |
| Scenarios.FlushHand | Poker/Poker/GameEvaluator.cs:231-233 | Five cards of one suit, listed by any tokens that parse to them, are a Flush broken by the highest rank wherever it is listed |
| Scenarios.NameOnly | Poker/GameTester/Program.cs:17 | The sample player "JimBob" has no hand |
| Scenarios.SuitLetters | Poker/GameTester/Program.cs:16 | The sample player "Joe,H,H,H,H,H" holds an invalid hand |
| Scenarios.WrongPieceCount | Poker/Poker/GameEvaluator.cs:171-172 | Hand text of comma-free pieces, other than exactly five, is invalid |
| Scenarios.TiedWinners | Poker/Poker/GameEvaluator.cs:74-81 | Two tied players ahead of a third are both reported and the third is not |
| Scenarios.NoHandBelowInvalid | Poker/Poker/GameEvaluator.cs:125-136 | A player whose hand failed to parse beats a player without a hand |

## Left out

- The printing that `EvaluateHands` and the `Card` constructor do through
  `Console.WriteLine` and `Debug.WriteLine` is not modelled. `EvaluateHands`
  returns the players it would print instead.
- Exceptions used as control flow are modelled as an `Option` for a card
  and the `Invalid` hand for a hand.
- Null strings and null list entries are not modelled. Every text here is
  a value, and the `currentCard == null` test in `hasFlush` can never hold
  for parsed cards.
- `String.ToUpper` is modelled as ASCII upper-casing. The alphanumeric
  check runs before it, so only ASCII letters ever reach it.
- Sorting.Sort: only the permutation and the non-increasing order are
  stated, not which equal-key order the unstable `ArrayList.Sort`
  produces. The `players` field of an evaluation is one such order. The
  winners, as a multiset, do not depend on it.
- `BestHand` calls `findMatches` a second time for the pair test. The
  first call may already have written `highCard`, but the second call
  resets its count and rewrites `highCard` to the same rank, so the model
  computes it once.
- The private `HighCard()` accessor and `Card.getValue`/`getSuite` are the
  datatype fields `High()`, `rank` and `suit`.
- `Player.deal` is folded into the two `Player` constructors.
- The console driver `Poker/GameTester/Program.cs` is modelled only through
  its sample players.
  - Its call to `EvalHands` names a method that does not exist.
  - Its four-card player `"Joeb,3H, 4H, 5H, 6H"` is covered by
    `Scenarios.WrongPieceCount` for any number of pieces other than five,
    rather than by that literal text.
  - The hands of lines 22-28 are covered by scenarios stated over any
    comma-free tokens that parse to cards of the right shape; spaced and
    lower-case tokens such as `" 5c"` are allowed. The literal texts
    themselves are not evaluated.
    - Line 22 (`" 3C, 3D, 3S, 8C, 10D"`) is an instance of
      `Scenarios.ThreeOfAKind`, with the off-suit card at position 1.
    - Line 26 (`"AC, 10C, 5c, 2C, 8C"`) is an instance of
      `Scenarios.FlushHand`, with the top card at position 0.
    - Line 27 (`"3C,3D,4S,4C,4D"`) is an instance of
      `Scenarios.FullHousePairFirst`.
    - Line 28 (`"AC,10C,5C,3S,2C"`) is an instance of `Scenarios.NoMatch`,
      with the off-suit card at position 3.
- Scenarios.TiedWinners: states who is and is not reported, not how many
  copies. `Evaluator.EvaluateHands` states the exact multiset for every
  roster.
