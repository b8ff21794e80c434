/** PokerHandEvaluator: an ordered roster of players that can be extended,
    cleared, listed and evaluated. Evaluation sorts the roster best first
    (the sort happens in place, so the roster stays sorted afterwards) and
    reports every player tied with the first. */
module Evaluator {
  import opened Wrappers
  import opened Text
  import opened Sorting
  import opened Cards
  import opened Hands
  import opened Players

  type Roster = seq<Player>

  /** AddPlayer(Player): appends one player and leaves the others as they
      were. */
  function AddPlayer(roster: Roster, p: Player): (r: Roster)
    ensures |r| == |roster| + 1
    ensures r[..|roster|] == roster
    ensures r[|roster|] == p
  {
    roster + [p]
  }

  /** AddPlayer(string): appends the player the text describes. */
  function AddPlayerSpec(roster: Roster, spec: string): (r: Roster)
    ensures |r| == |roster| + 1 && r[..|roster|] == roster
    ensures r[|roster|] == ParsePlayer(spec)
    ensures r[|roster|].hand.None? <==> ',' !in spec
  {
    AddPlayer(roster, ParsePlayer(spec))
  }

  /** AddPlayer(string, string): appends a named player dealt the cards. */
  function AddPlayerNamed(roster: Roster, name: string, cards: string): (r: Roster)
    ensures |r| == |roster| + 1 && r[..|roster|] == roster
    ensures r[|roster|].name == name && r[|roster|].hand == Some(ParseHand(cards))
  {
    AddPlayer(roster, NewPlayer(name, cards))
  }

  /** The constructor taking player texts: adds them one by one, in order. */
  function NewEvaluator(specs: seq<string>): (r: Roster)
    ensures |r| == |specs|
    ensures forall i | 0 <= i < |specs| :: r[i] == ParsePlayer(specs[i])
    decreases |specs|
  {
    if specs == [] then []
    else
      var n := |specs| - 1;
      var prev := NewEvaluator(specs[..n]);
      var r := AddPlayerSpec(prev, specs[n]);
      MapExtend(specs, prev, r, ParsePlayer);
      r
  }

  /** Appending f(x) for the last x to the images of the earlier ones gives
      the images of all of them. */
  lemma MapExtend<A, B>(xs: seq<A>, prev: seq<B>, r: seq<B>, f: A -> B)
    requires |xs| > 0 && |prev| == |xs| - 1
    requires forall i | 0 <= i < |prev| :: prev[i] == f(xs[..|prev|][i])
    requires |r| == |xs| && r[..|prev|] == prev && r[|prev|] == f(xs[|prev|])
    ensures forall i | 0 <= i < |xs| :: r[i] == f(xs[i])
  {
    forall i | 0 <= i < |xs| ensures r[i] == f(xs[i]) {
      if i < |prev| {
        assert r[i] == r[..|prev|][i];
        assert xs[..|prev|][i] == xs[i];
      }
    }
  }

  /** ClearPlayers: the roster becomes empty. */
  function ClearPlayers(): (r: Roster)
    ensures |r| == 0
  {
    []
  }

  /** The message shown when the roster is empty. */
  const NoPlayers: string := "No players found."

  /** ToString: every player's display line, each followed by a newline, or
      the no-players message for an empty roster. */
  function Describe(roster: Roster): string {
    if roster == [] then NoPlayers else Lines(roster)
  }

  function Lines(roster: Roster): string {
    if roster == [] then "" else DisplayPlayer(roster[0]) + "\n" + Lines(roster[1..])
  }

  /** The display lines of the players, in roster order. */
  function Displays(roster: Roster): (r: seq<string>)
    ensures |r| == |roster|
    ensures forall i | 0 <= i < |roster| :: r[i] == DisplayPlayer(roster[i])
  {
    if roster == [] then [] else [DisplayPlayer(roster[0])] + Displays(roster[1..])
  }

  /** When no name contains a newline, the description of a non-empty roster
      splits at its newlines into exactly the players' display lines, in
      order, followed by the empty text after the last newline. */
  lemma DescribeLines(roster: Roster)
    requires roster != []
    requires forall i | 0 <= i < |roster| :: '\n' !in roster[i].name
    ensures Split(Describe(roster), '\n') == Displays(roster) + [""]
  {
    LinesJoin(roster);
    NoNewlineInDisplays(roster);
    SplitJoin(Displays(roster) + [""], '\n');
  }

  lemma NoNewlineInDisplays(roster: Roster)
    requires forall i | 0 <= i < |roster| :: '\n' !in roster[i].name
    ensures FreeOf(Displays(roster) + [""], '\n')
  {
    var ds := Displays(roster);
    forall i | 0 <= i < |roster| ensures '\n' !in ds[i] {
      DisplayHasNoNewline(roster[i]);
    }
    var parts := ds + [""];
    forall i | 0 <= i < |parts| ensures '\n' !in parts[i] {
      if i < |roster| {
        assert parts[i] == ds[i];
      }
    }
  }

  lemma {:induction false} LinesJoin(roster: Roster)
    ensures Lines(roster) == Join(Displays(roster) + [""], '\n')
  {
    if roster != [] {
      LinesJoin(roster[1..]);
      var parts := Displays(roster) + [""];
      assert parts[1..] == Displays(roster[1..]) + [""];
    }
  }

  lemma DisplayHasNoNewline(p: Player)
    requires '\n' !in p.name
    ensures '\n' !in DisplayPlayer(p)
  {
    if p.hand.Some? {
      var h := p.hand.value;
      assert '\n' !in CategoryName(h.Best()) && '\n' !in RankName(h.High());
    }
  }

  // ---------------------------------------------------------------------
  // Evaluation

  /** `p` is at least as good as every player of the roster. */
  ghost predicate IsBest(p: Player, roster: Roster) {
    forall q | q in roster :: ComparePlayers(p, q) <= 0
  }

  /** The players comparing equal to `top`, in their original order. */
  function TiedWith(roster: Roster, top: Player): (r: Roster)
    ensures forall p :: multiset(r)[p] == if ComparePlayers(p, top) == 0 then multiset(roster)[p] else 0
    decreases |roster|
  {
    if roster == [] then []
    else
      var rest := TiedWith(roster[1..], top);
      assert roster == [roster[0]] + roster[1..];
      if ComparePlayers(roster[0], top) == 0 then [roster[0]] + rest else rest
  }

  /** The outcome of an evaluation: the roster as sorted, and the winners. */
  datatype Evaluation = Evaluation(players: Roster, winners: Roster)

  /** EvaluateHands: sorts the roster best first and reports every player
      comparing equal to the first. The winners are exactly the players at
      least as good as everyone (every copy of each); every other player is
      strictly worse than each winner; there are winners exactly when there
      are players. */
  function EvaluateHands(roster: Roster): (e: Evaluation)
    ensures multiset(e.players) == multiset(roster)
    ensures forall i, j | 0 <= i < j < |e.players| :: ComparePlayers(e.players[i], e.players[j]) <= 0
    ensures |e.winners| == 0 <==> |roster| == 0
    ensures forall w | w in e.winners :: ComparePlayers(w, e.players[0]) == 0
    ensures forall p ::
      multiset(e.winners)[p] == if p in roster && IsBest(p, roster) then multiset(roster)[p] else 0
    ensures forall w, p | w in e.winners && p in roster :: ComparePlayers(w, p) <= 0
    ensures forall w, p | w in e.winners && p in roster && p !in e.winners :: ComparePlayers(p, w) == 1
  {
    var sorted := Sort(roster, PlayerKey);
    ComparePlayersByKey();
    if sorted == [] then
      assert |roster| == |multiset(roster)| == 0;
      Evaluation(sorted, [])
    else
      var top := sorted[0];
      var winners := TiedWith(sorted, top);
      WinnersAreBest(roster, sorted, winners);
      Evaluation(sorted, winners)
  }

  lemma WinnersAreBest(roster: Roster, sorted: Roster, winners: Roster)
    requires sorted != [] && multiset(sorted) == multiset(roster)
    requires NonIncreasing(sorted, PlayerKey)
    requires forall p ::
      multiset(winners)[p] == if ComparePlayers(p, sorted[0]) == 0 then multiset(sorted)[p] else 0
    ensures |winners| > 0
    ensures forall p ::
      multiset(winners)[p] == if p in roster && IsBest(p, roster) then multiset(roster)[p] else 0
    ensures forall w, p | w in winners && p in roster :: ComparePlayers(w, p) <= 0
    ensures forall w, p | w in winners && p in roster && p !in winners :: ComparePlayers(p, w) == 1
  {
    var top := sorted[0];
    ComparePlayersByKey();
    assert top in multiset(roster);
    forall q | q in roster ensures PlayerKey(q) <= PlayerKey(top) {
      assert q in multiset(sorted);
      FirstIsLargest(sorted, PlayerKey, q);
    }
    assert multiset(winners)[top] > 0;
    forall p | p in roster ensures IsBest(p, roster) <==> PlayerKey(p) == PlayerKey(top) {
    }
    forall w | w in winners ensures PlayerKey(w) == PlayerKey(top) && w in roster {
      assert multiset(winners)[w] > 0;
    }
  }
}
