/** A player: a name and, optionally, a hand. A player built from a name
    alone holds no hand at all, which ranks below every hand, even one that
    failed to parse. */
module Players {
  import opened Wrappers
  import opened Text
  import opened Cards
  import opened Hands

  datatype Player = Player(name: string, hand: Option<Hand>)

  /** Player(string): the text before the first comma is the name and the
      rest is dealt as the hand; with no comma the whole text is the name and
      there is no hand. */
  function ParsePlayer(spec: string): (p: Player)
    ensures ',' !in spec ==> p.name == spec && p.hand.None?
    ensures ',' in spec ==>
      && ',' !in p.name
      && |p.name| < |spec|
      && spec[..|p.name|] == p.name
      && spec[|p.name|] == ','
      && p.hand == Some(ParseHand(spec[|p.name| + 1..]))
  {
    var cut := CutAt(spec, ',');
    if cut.1.Some? then
      assert cut.1.value == spec[|cut.0| + 1..];
      Player(cut.0, Some(ParseHand(cut.1.value)))
    else Player(cut.0, None)
  }

  /** Player(string name, string cards): always deals a hand, valid or not. */
  function NewPlayer(name: string, cards: string): (p: Player)
    ensures p.name == name && p.hand.Some?
    ensures p.hand.value.Valid? <==> ParseHand(cards).Valid?
  {
    Player(name, Some(ParseHand(cards)))
  }

  /** Writing a comma-free name, a comma and the cards gives the same player
      as the two-argument constructor. */
  lemma ParsePlayerRoundTrip(name: string, cards: string)
    requires ',' !in name
    ensures ParsePlayer(name + "," + cards) == NewPlayer(name, cards)
  {
    var spec := name + "," + cards;
    IndexOfAfter(name, ',', cards);
    assert spec[..|name|] == name;
    assert spec[|name| + 1..] == cards;
  }

  /** Player.CompareTo: -1 when `a` ranks first. Two players without a hand
      tie; a player without a hand loses to any player with one, even an
      invalid hand; otherwise the hands decide. */
  function ComparePlayers(a: Player, b: Player): (r: int)
    ensures r == 0 <==>
      || (a.hand.None? && b.hand.None?)
      || (&& a.hand.Some? && b.hand.Some?
          && a.hand.value.Best() == b.hand.value.Best()
          && a.hand.value.High() == b.hand.value.High())
    ensures a.hand.None? && b.hand.Some? ==> r == 1
    ensures a.hand.Some? && b.hand.None? ==> r == -1
    ensures a.hand.Some? && b.hand.Some? && CategoryOrd(a.hand.value.Best()) > CategoryOrd(b.hand.value.Best()) ==> r == -1
  {
    if b.hand.None? then
      if a.hand.None? then 0 else -1
    else if a.hand.None? then 1
    else CompareHands(a.hand.value, b.hand.value)
  }

  /** The key players sort by: no hand below every hand. */
  function PlayerKey(p: Player): int {
    if p.hand.None? then -1 else HandKey(p.hand.value)
  }

  /** The player comparison is the comparison of keys, so it is a total
      preorder. */
  lemma ComparePlayersByKey()
    ensures forall a, b :: ComparePlayers(a, b) == -1 <==> PlayerKey(a) > PlayerKey(b)
    ensures forall a, b :: ComparePlayers(a, b) == 0 <==> PlayerKey(a) == PlayerKey(b)
    ensures forall a, b :: ComparePlayers(a, b) == 1 <==> PlayerKey(a) < PlayerKey(b)
  {
    forall a: Player, b: Player
      ensures ComparePlayers(a, b) == -1 <==> PlayerKey(a) > PlayerKey(b)
      ensures ComparePlayers(a, b) == 0 <==> PlayerKey(a) == PlayerKey(b)
      ensures ComparePlayers(a, b) == 1 <==> PlayerKey(a) < PlayerKey(b)
    {
      if a.hand.Some? && b.hand.Some? {
        CompareHandsByKey(a.hand.value, b.hand.value);
      }
    }
  }

  /** Swapping the arguments flips the sign. */
  lemma ComparePlayersAntisymmetric(a: Player, b: Player)
    ensures ComparePlayers(a, b) == -ComparePlayers(b, a)
  {
    ComparePlayersByKey();
  }

  /** "At least as good as" is transitive, and so is "strictly better". */
  lemma ComparePlayersTransitive(a: Player, b: Player, c: Player)
    ensures ComparePlayers(a, b) <= 0 && ComparePlayers(b, c) <= 0 ==> ComparePlayers(a, c) <= 0
    ensures ComparePlayers(a, b) == -1 && ComparePlayers(b, c) == -1 ==> ComparePlayers(a, c) == -1
  {
    ComparePlayersByKey();
  }

  /** Player.ToString: the name, a colon, and the hand's description. */
  function DisplayPlayer(p: Player): string {
    p.name + ":" + DisplaySuffix(p)
  }

  /** What follows "name:": "Category Rank High" for a ranked hand, the
      category alone ("NoHand") for a hand that failed to parse, and
      "No Hand" when there is no hand. */
  function DisplaySuffix(p: Player): string {
    match p.hand
    case None => "No Hand"
    case Some(h) =>
      if h.Best() != NoHand then CategoryName(h.Best()) + " " + RankName(h.High()) + " High"
      else CategoryName(h.Best())
  }

  /** The display of two players with the same name tells apart having no
      hand, holding an invalid hand and holding a ranked hand; it names the
      category of any hand and the tiebreak of a ranked one. */
  lemma DisplayDistinguishes(p: Player, q: Player)
    requires p.name == q.name
    requires DisplayPlayer(p) == DisplayPlayer(q)
    ensures p.hand.None? <==> q.hand.None?
    ensures p.hand.Some? && q.hand.Some? ==> p.hand.value.Best() == q.hand.value.Best()
    ensures p.hand.Some? && q.hand.Some? && p.hand.value.Best() != NoHand ==>
      p.hand.value.High() == q.hand.value.High()
  {
    var pre := p.name + ":";
    assert DisplaySuffix(p) == DisplayPlayer(p)[|pre|..];
    assert DisplaySuffix(p) == DisplaySuffix(q);
    SuffixInjective(p, q);
  }

  lemma SuffixInjective(p: Player, q: Player)
    requires DisplaySuffix(p) == DisplaySuffix(q)
    ensures p.hand.None? <==> q.hand.None?
    ensures p.hand.Some? && q.hand.Some? ==> p.hand.value.Best() == q.hand.value.Best()
    ensures p.hand.Some? && q.hand.Some? && p.hand.value.Best() != NoHand ==>
      p.hand.value.High() == q.hand.value.High()
  {
    SuffixShape(p);
    SuffixShape(q);
    if p.hand.Some? && q.hand.Some? && p.hand.value.Best() != NoHand && q.hand.value.Best() != NoHand {
      var hp := p.hand.value;
      var hq := q.hand.value;
      assert DisplaySuffix(p) == CategoryName(hp.Best()) + " " + (RankName(hp.High()) + " High");
      assert DisplaySuffix(q) == CategoryName(hq.Best()) + " " + (RankName(hq.High()) + " High");
      SplitAtSpace(CategoryName(hp.Best()), RankName(hp.High()) + " High",
                   CategoryName(hq.Best()), RankName(hq.High()) + " High");
      CategoryNameInjective(hp.Best(), hq.Best());
      var x := RankName(hp.High());
      var y := RankName(hq.High());
      assert x == (x + " High")[..|x + " High"| - 5];
      assert y == (y + " High")[..|y + " High"| - 5];
      RankNameInjective(hp.High(), hq.High());
    }
  }

  /** How long each kind of suffix is: a ranked hand's is the longest. */
  lemma SuffixShape(p: Player)
    ensures p.hand.None? ==> |DisplaySuffix(p)| == 7
    ensures p.hand.Some? && p.hand.value.Best() == NoHand ==> |DisplaySuffix(p)| == 6
    ensures p.hand.Some? && p.hand.value.Best() != NoHand ==> |DisplaySuffix(p)| >= 14
    ensures p.hand.Some? && p.hand.value.Best() != NoHand ==>
      ' ' !in CategoryName(p.hand.value.Best()) && ' ' !in RankName(p.hand.value.High())
  {
    if p.hand.Some? {
      var h := p.hand.value;
      assert |CategoryName(h.Best())| >= 5 && |RankName(h.High())| >= 3;
    }
  }

  lemma SplitAtSpace(x: string, y: string, x': string, y': string)
    requires ' ' !in x && ' ' !in x'
    requires x + " " + y == x' + " " + y'
    ensures x == x' && y == y'
  {
    var s := x + " " + y;
    IndexOfAfter(x, ' ', y);
    IndexOfAfter(x', ' ', y');
    assert x == s[..|x|] == x';
    assert y == s[|x| + 1..] == y';
  }

  lemma CategoryNameInjective(a: Category, b: Category)
    requires CategoryName(a) == CategoryName(b)
    ensures a == b
  {
    var n := CategoryName(a);
    assert n[0] == CategoryName(b)[0] && |n| == |CategoryName(b)|;
  }

  lemma RankNameInjective(a: Rank, b: Rank)
    requires RankName(a) == RankName(b)
    ensures a == b
  {
    var n := RankName(a);
    assert n[0] == RankName(b)[0] && n[1] == RankName(b)[1];
  }
}
