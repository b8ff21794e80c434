/** A single playing card: its rank and suit enumerations, the parser that
    turns a token such as " 10d" into a card (or fails), the rank-only
    comparison and the suit comparison. */
module Cards {
  import opened Wrappers
  import opened Text

  datatype Suit = Clubs | Hearts | Spades | Diamonds

  datatype Rank = Two | Three | Four | Five | Six | Seven | Eight | Nine | Ten
                | Jack | Queen | King | Ace

  /** Position of a rank in the enumeration, Two = 0 through Ace = 12; the
      library compares ranks by this number. */
  function RankOrd(r: Rank): nat {
    match r
    case Two => 0
    case Three => 1
    case Four => 2
    case Five => 3
    case Six => 4
    case Seven => 5
    case Eight => 6
    case Nine => 7
    case Ten => 8
    case Jack => 9
    case Queen => 10
    case King => 11
    case Ace => 12
  }

  /** Distinct ranks have distinct positions. */
  lemma RankOrdInjective(a: Rank, b: Rank)
    ensures RankOrd(a) == RankOrd(b) <==> a == b
  {
  }

  /** The enumeration name, as the library prints a rank. */
  function RankName(r: Rank): string {
    match r
    case Two => "Two"
    case Three => "Three"
    case Four => "Four"
    case Five => "Five"
    case Six => "Six"
    case Seven => "Seven"
    case Eight => "Eight"
    case Nine => "Nine"
    case Ten => "Ten"
    case Jack => "Jack"
    case Queen => "Queen"
    case King => "King"
    case Ace => "Ace"
  }

  /** The upper-case text a rank is written with. */
  function RankText(r: Rank): string {
    match r
    case Ace => "A"
    case Two => "2"
    case Three => "3"
    case Four => "4"
    case Five => "5"
    case Six => "6"
    case Seven => "7"
    case Eight => "8"
    case Nine => "9"
    case Ten => "10"
    case Jack => "J"
    case Queen => "Q"
    case King => "K"
  }

  /** The upper-case letter a suit is written with. */
  function SuitLetter(s: Suit): char {
    match s
    case Hearts => 'H'
    case Clubs => 'C'
    case Spades => 'S'
    case Diamonds => 'D'
  }

  /** The upper-case token of a card: rank text followed by the suit letter. */
  function CardText(r: Rank, s: Suit): string {
    RankText(r) + [SuitLetter(s)]
  }

  /** assignValue: the rank a prefix names, ignoring case. */
  function ValueOf(text: string): (r: Option<Rank>)
    ensures r.Some? ==> Upper(text) == RankText(r.value)
    ensures r.None? ==> forall k :: Upper(text) != RankText(k)
  {
    var u := Upper(text);
    if u == "A" then Some(Ace)
    else if u == "2" then Some(Two)
    else if u == "3" then Some(Three)
    else if u == "4" then Some(Four)
    else if u == "5" then Some(Five)
    else if u == "6" then Some(Six)
    else if u == "7" then Some(Seven)
    else if u == "8" then Some(Eight)
    else if u == "9" then Some(Nine)
    else if u == "10" then Some(Ten)
    else if u == "J" then Some(Jack)
    else if u == "Q" then Some(Queen)
    else if u == "K" then Some(King)
    else None
  }

  /** assignSuite: the suit a one-character text names, ignoring case. */
  function SuitOf(text: string): (r: Option<Suit>)
    ensures r.Some? ==> Upper(text) == [SuitLetter(r.value)]
    ensures r.None? ==> forall k :: Upper(text) != [SuitLetter(k)]
  {
    var u := Upper(text);
    if u == "H" then Some(Hearts)
    else if u == "C" then Some(Clubs)
    else if u == "S" then Some(Spades)
    else if u == "D" then Some(Diamonds)
    else None
  }

  /** A parsed card: rank, suit and the trimmed token it was read from. */
  datatype Card = Card(rank: Rank, suit: Suit, text: string)

  /** The Card constructor. The token is trimmed; it must then be one to three
      letters or digits, its last character must name a suit and the rest a
      rank. The card keeps the trimmed token, in its original casing, for
      display. Any other token is refused. */
  function ParseCard(token: string): Option<Card> {
    var t := Trim(token);
    if 0 < |t| <= 3 && AllAlphanumeric(t) then
      var value := ValueOf(t[..|t| - 1]);
      var suit := SuitOf(t[|t| - 1..]);
      if value.None? || suit.None? then None
      else Some(Card(value.value, suit.value, t))
    else None
  }

  /** A token parses exactly when, trimmed and upper-cased, it is the token
      of some rank and suit; the card then has that rank and suit and keeps
      the trimmed token in its original casing. */
  lemma ParseCardSpec(token: string)
    ensures var r := ParseCard(token);
      && (r.Some? ==> r.value.text == Trim(token))
      && (r.Some? ==> Upper(r.value.text) == CardText(r.value.rank, r.value.suit))
      && (r.None? <==> forall k, s :: Upper(Trim(token)) != CardText(k, s))
  {
    ParseCardAccepts(token);
    ParseCardRejects(token);
  }

  lemma ParseCardAccepts(token: string)
    ensures var r := ParseCard(token);
      r.Some? ==> r.value.text == Trim(token) && Upper(r.value.text) == CardText(r.value.rank, r.value.suit)
  {
    var r := ParseCard(token);
    if r.Some? {
      var t := Trim(token);
      var value := ValueOf(t[..|t| - 1]);
      var suit := SuitOf(t[|t| - 1..]);
      assert r.value == Card(value.value, suit.value, t);
      UpperSlices(t, |t| - 1);
      assert Upper(t) == Upper(t)[..|t| - 1] + Upper(t)[|t| - 1..];
    }
  }

  lemma ParseCardRejects(token: string)
    ensures ParseCard(token).None? <==> forall k, s :: Upper(Trim(token)) != CardText(k, s)
  {
    ParseCardAccepts(token);
    EveryCardTokenParses(Trim(token));
  }

  /** Whatever upper-cases to a card token passes every check of the Card
      constructor and names exactly that rank and suit. */
  lemma EveryCardTokenParses(t: string)
    ensures forall k, s | Upper(t) == CardText(k, s) ::
      && 0 < |t| <= 3
      && AllAlphanumeric(t)
      && ValueOf(t[..|t| - 1]) == Some(k)
      && SuitOf(t[|t| - 1..]) == Some(s)
  {
    forall k, s | Upper(t) == CardText(k, s)
      ensures 0 < |t| <= 3 && AllAlphanumeric(t)
      ensures ValueOf(t[..|t| - 1]) == Some(k) && SuitOf(t[|t| - 1..]) == Some(s)
    {
      TokenShape(t, k, s);
    }
  }

  lemma TokenShape(t: string, k: Rank, s: Suit)
    requires Upper(t) == CardText(k, s)
    ensures 0 < |t| <= 3 && AllAlphanumeric(t)
    ensures ValueOf(t[..|t| - 1]) == Some(k) && SuitOf(t[|t| - 1..]) == Some(s)
  {
    CardTextIsToken(k, s);
    forall i | 0 <= i < |t| ensures IsAlphanumeric(t[i]) {
      UpperKeepsAlphanumeric(t[i]);
      assert UpperChar(t[i]) == CardText(k, s)[i];
    }
    UpperSlices(t, |t| - 1);
    assert Upper(t[..|t| - 1]) == RankText(k);
    assert Upper(t[|t| - 1..]) == [SuitLetter(s)];
    var v := ValueOf(t[..|t| - 1]);
    assert v.Some?;
    RankTextInjective(v.value, k);
    var u := SuitOf(t[|t| - 1..]);
    assert u.Some?;
    SuitLetterInjective(u.value, s);
  }

  lemma RankTextInjective(a: Rank, b: Rank)
    requires RankText(a) == RankText(b)
    ensures a == b
  {
    assert RankText(a)[0] == RankText(b)[0];
  }

  lemma SuitLetterInjective(a: Suit, b: Suit)
    requires SuitLetter(a) == SuitLetter(b)
    ensures a == b
  {
  }

  /** Every card token is two or three letters and digits, and is already in
      upper case. */
  lemma CardTextIsToken(k: Rank, s: Suit)
    ensures 2 <= |CardText(k, s)| <= 3
    ensures AllAlphanumeric(CardText(k, s))
    ensures Upper(CardText(k, s)) == CardText(k, s)
  {
  }

  /** ToString: a card displays as the token it was parsed from. */
  function DisplayCard(c: Card): string {
    c.text
  }

  /** A parsed card displays as its trimmed token, and parsing that display
      gives back the same card. */
  lemma DisplayRoundTrip(token: string, c: Card)
    requires ParseCard(token) == Some(c)
    ensures DisplayCard(c) == Trim(token)
    ensures ParseCard(DisplayCard(c)) == Some(c)
  {
    TrimIdempotent(token);
    ParseCardSpec(token);
    ParseCardSpec(DisplayCard(c));
    var r := ParseCard(DisplayCard(c));
    assert Upper(Trim(DisplayCard(c))) == CardText(c.rank, c.suit);
    CardTextInjective(r.value.rank, r.value.suit, c.rank, c.suit);
  }

  /** The canonical token of every rank and suit parses back to them. */
  lemma CardTextParses(k: Rank, s: Suit)
    ensures ParseCard(CardText(k, s)) == Some(Card(k, s, CardText(k, s)))
  {
    var t := CardText(k, s);
    CardTextIsToken(k, s);
    assert IsAlphanumeric(t[0]) && IsAlphanumeric(t[|t| - 1]);
    TrimUnpadded(t);
    UpperTokenParses(t, k, s);
  }

  /** A trimmed token that upper-cases to a card token parses to that card. */
  lemma UpperTokenParses(t: string, k: Rank, s: Suit)
    requires Trim(t) == t
    requires Upper(t) == CardText(k, s)
    ensures ParseCard(t) == Some(Card(k, s, t))
  {
    TokenShape(t, k, s);
  }

  lemma CardTextInjective(a: Rank, x: Suit, b: Rank, y: Suit)
    requires CardText(a, x) == CardText(b, y)
    ensures a == b && x == y
  {
    var t := CardText(a, x);
    assert t[|t| - 1] == SuitLetter(x) == SuitLetter(y);
    SuitLetterInjective(x, y);
    assert t[..|t| - 1] == RankText(a);
    assert CardText(b, y)[..|t| - 1] == RankText(b);
    RankTextInjective(a, b);
  }

  /** Card.CompareTo: -1 when `a` has the higher rank (it sorts first), 0 on
      equal rank, 1 otherwise. The suit plays no part. */
  function CompareCards(a: Card, b: Card): (r: int)
    ensures r == -1 <==> RankOrd(a.rank) > RankOrd(b.rank)
    ensures r == 0 <==> a.rank == b.rank
    ensures r == 1 <==> RankOrd(a.rank) < RankOrd(b.rank)
  {
    RankOrdInjective(a.rank, b.rank);
    if RankOrd(b.rank) < RankOrd(a.rank) then -1
    else if b.rank == a.rank then 0
    else 1
  }

  /** Comparing cards is antisymmetric and looks at ranks only. */
  lemma CompareCardsRankOnly(a: Card, b: Card, a': Card, b': Card)
    requires a.rank == a'.rank && b.rank == b'.rank
    ensures CompareCards(a, b) == CompareCards(a', b')
    ensures CompareCards(a, b) == -CompareCards(b, a)
  {
  }

  /** CompareSuite. */
  predicate SameSuit(a: Card, b: Card) {
    a.suit == b.suit
  }

  /** The key cards are sorted by: the higher the rank, the earlier. */
  function CardKey(c: Card): int {
    RankOrd(c.rank)
  }
}
