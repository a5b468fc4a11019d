/**
 * The match around the rounds, src/model/uno.ts: the stand-alone playability rule, a
 * player's hand, the checks on a game's configuration and on a saved game, and `UnoGame`,
 * which adds each round's score to the round's winner and either ends the match at the
 * target score or deals the next round with that winner as dealer.
 */
module Uno {
  import opened Common
  import opened Deck
  import opened RoundMemento
  import opened Round

  const DefaultTargetScore: int := 500
  const DefaultPlayers: seq<string> := ["A", "B"]

  /** An injected source of integers; `randomizer(n)` stands for a draw below `n`. */
  type Randomizer = nat -> int

  /** The exceptions the game's operations throw. */
  datatype GameError =
    | FewerThanTwoPlayers
    | MoreThanTenPlayers
    | TargetScoreNotPositive
    | CardsPerPlayerNotPositive
    | ScoreCountMismatch
    | NegativeScore
    | MoreThanOneWinner
    | RoundRequired
    | RoundNotAllowed
    | IndexNotInteger
    | IndexOutOfBounds
    | CardIndexOutOfBounds
    | DealFailed(roundError: RoundError)
    | RestoreFailed(restoreError: RestoreError)

  // ---------------------------------------------------------------------------
  // The stand-alone playability rule

  /** `canPlay` of uno.ts. Its same-type test already admits every number card on every
      number card, so the same-number test after it never decides anything. */
  function CanPlay(card: Card, top: Card, enforced: Option<Color>): (b: bool)
    ensures card.IsWild() ==> b
    ensures !card.IsWild() && enforced.Some? ==> (b <==> card.color == enforced.value)
    ensures !card.IsWild() && enforced.None? ==>
      (b <==> (!top.IsWild() && card.color == top.color) || TypeName(card) == TypeName(top))
    ensures card.Numbered? && top.Numbered? && enforced.None? ==> b
  {
    if card.IsWild() then true
    else if enforced.Some? then card.color == enforced.value
    else if !top.IsWild() && card.color == top.color then true
    else if TypeName(card) == TypeName(top) then true
    else
      match (card, top)
      case (Numbered(_, a), Numbered(_, b)) => a == b
      case _ => false
  }

  /** The round's rule is the stricter one: a play the round allows on a top whose colour is
      in force is allowed by the stand-alone rule, given the colour named for a wild top as
      the enforced one. */
  lemma RoundRuleWithinStandalone(hand: seq<Card>, i: int, top: Card, color: Option<Color>)
    requires !top.IsWild() ==> color == Some(top.color)
    requires top.IsWild() ==> color.Some?
    ensures 0 <= i < |hand| && Legal(hand, i, Some(top), color) ==>
      CanPlay(hand[i], top, if top.IsWild() then color else None)
  {
  }

  /** The converse fails: a red three may go on a blue five by the stand-alone rule, but not
      in a round, and a wild draw is always playable here but not while its holder has a
      card of the colour in force. */
  lemma StandaloneLooserThanRound()
    ensures CanPlay(Numbered(Red, 3), Numbered(Blue, 5), None)
    ensures !Legal([Numbered(Red, 3)], 0, Some(Numbered(Blue, 5)), Some(Blue))
    ensures CanPlay(WildDraw, Numbered(Blue, 5), None)
    ensures !Legal([WildDraw, Numbered(Blue, 1)], 0, Some(Numbered(Blue, 5)), Some(Blue))
  {
    assert MatchesColor([WildDraw, Numbered(Blue, 1)][1], Some(Blue));
  }

  // ---------------------------------------------------------------------------
  // A player's hand

  /** The indices below `n` of the cards of `cards` playable by the stand-alone rule, in
      ascending order. */
  function PlayableAmong(cards: seq<Card>, top: Card, enforced: Option<Color>, n: nat): (r: seq<nat>)
    requires n <= |cards|
    ensures forall k :: 0 <= k < |r| ==> r[k] < n && CanPlay(cards[r[k]], top, enforced)
    ensures forall i :: 0 <= i < n && CanPlay(cards[i], top, enforced) ==> i in r
    ensures forall j, k :: 0 <= j < k < |r| ==> r[j] < r[k]
  {
    if n == 0 then []
    else
      var before := PlayableAmong(cards, top, enforced, n - 1);
      if CanPlay(cards[n - 1], top, enforced) then before + [n - 1] else before
  }

  /** `PlayerHand`: the cards a player holds, in the order they were added. */
  class PlayerHand {
    var cards: seq<Card>

    constructor ()
      ensures cards == []
    {
      cards := [];
    }

    function Size(): nat
      reads this
    {
      |cards|
    }

    method Add(card: Card)
      modifies this
      ensures cards == old(cards) + [card]
    {
      cards := cards + [card];
    }

    /** `removeAt(index)`: the card at `index`, taken out with the others kept in order; an
        index outside the hand is an error and changes nothing. */
    method RemoveAt(index: int) returns (r: Result<Card, GameError>)
      modifies this
      ensures r.Success? <==> 0 <= index < |old(cards)|
      ensures r.Success? ==> r.value == old(cards)[index] && cards == Round.RemoveAt(old(cards), index)
      ensures r.Failure? ==> r.error == CardIndexOutOfBounds && cards == old(cards)
    {
      if index < 0 || index >= |cards| {
        return Failure(CardIndexOutOfBounds);
      }
      var card := cards[index];
      cards := cards[..index] + cards[index + 1..];
      return Success(card);
    }

    /** `playableIndices(top, enforced)`: exactly the positions of the playable cards, in
        ascending order. */
    function PlayableIndices(top: Card, enforced: Option<Color>): (r: seq<nat>)
      reads this
      ensures forall k :: 0 <= k < |r| ==> r[k] < |cards| && CanPlay(cards[r[k]], top, enforced)
      ensures forall i :: 0 <= i < |cards| && CanPlay(cards[i], top, enforced) ==> i in r
      ensures forall j, k :: 0 <= j < k < |r| ==> r[j] < r[k]
    {
      PlayableAmong(cards, top, enforced, |cards|)
    }
  }

  // ---------------------------------------------------------------------------
  // Arithmetic and checks

  /** `mod`: the remainder of JavaScript's `%`, moved into `[0, modulus)`; it is the
      Euclidean remainder. */
  function Mod(value: int, modulus: int): (r: int)
    requires modulus > 0
    ensures 0 <= r < modulus
    ensures r == value % modulus
  {
    JsRemShift(value, modulus);
    var rem := JsRem(value, modulus);
    if rem >= 0 then rem else rem + modulus
  }

  /** Taking `mod` of JavaScript's `%` gives the Euclidean remainder of the original value. */
  lemma ModOfJsRem(value: int, modulus: int)
    requires modulus > 0
    ensures Mod(JsRem(value, modulus), modulus) == value % modulus
  {
    var rem := JsRem(value, modulus);
    JsRemShift(value, modulus);
    if rem >= 0 {
      ModUnique(rem, modulus, 0, rem);
    } else {
      ModUnique(rem, modulus, -1, rem + modulus);
    }
  }

  /** `mod` leaves a seat number as it is. */
  lemma ModOfSeat(value: int, modulus: int)
    requires 0 <= value < modulus
    ensures Mod(value, modulus) == value
  {
    ModUnique(value, modulus, 0, value);
  }

  /** `ensureIndex`: a JavaScript number names a seat only when it is an integer in
      `[0, count)`; the integer test comes first. */
  function EnsureIndex(index: real, count: nat): (r: Outcome<GameError>)
    ensures r.Pass? <==> index == index.Floor as real && 0 <= index.Floor < count
    ensures index != index.Floor as real ==> r == Fail(IndexNotInteger)
    ensures index == index.Floor as real && r.Fail? ==> r.error == IndexOutOfBounds
  {
    if index.Floor as real != index then Fail(IndexNotInteger)
    else if index < 0.0 || index >= count as real then Fail(IndexOutOfBounds)
    else Pass
  }

  /** `normalisePlayers`: no list or an empty one means the two players "A" and "B";
      otherwise the list is kept if it has two to ten names. */
  function NormalisePlayers(players: Option<seq<string>>): (r: Result<seq<string>, GameError>)
    ensures players.None? || players.value == [] ==> r == Success(DefaultPlayers)
    ensures players.Some? && players.value != [] ==>
      && (r.Success? <==> MinPlayers <= |players.value| <= MaxPlayers)
      && (r.Success? ==> r.value == players.value)
      && (|players.value| < MinPlayers ==> r == Failure(FewerThanTwoPlayers))
      && (|players.value| > MaxPlayers ==> r == Failure(MoreThanTenPlayers))
    ensures r.Success? ==> MinPlayers <= |r.value| <= MaxPlayers
  {
    var given := if players.Some? && |players.value| > 0 then players.value else DefaultPlayers;
    if |given| < MinPlayers then Failure(FewerThanTwoPlayers)
    else if |given| > MaxPlayers then Failure(MoreThanTenPlayers)
    else Success(given)
  }

  /** `validateGameConfig`: a positive target score, then a positive number of cards. */
  function ValidateGameConfig(targetScore: int, cardsPerPlayer: int): (r: Outcome<GameError>)
    ensures r.Pass? <==> targetScore > 0 && cardsPerPlayer > 0
    ensures targetScore <= 0 ==> r == Fail(TargetScoreNotPositive)
    ensures targetScore > 0 && cardsPerPlayer <= 0 ==> r == Fail(CardsPerPlayerNotPositive)
  {
    if targetScore <= 0 then Fail(TargetScoreNotPositive)
    else if cardsPerPlayer <= 0 then Fail(CardsPerPlayerNotPositive)
    else Pass
  }

  /** `validateAndCopyScores`: one score per player, none negative; the copy is equal. */
  function ValidateAndCopyScores(scores: seq<int>, playerCount: nat): (r: Result<seq<int>, GameError>)
    ensures r.Success? <==> |scores| == playerCount && forall i :: 0 <= i < |scores| ==> scores[i] >= 0
    ensures r.Success? ==> r.value == scores
    ensures |scores| != playerCount ==> r == Failure(ScoreCountMismatch)
    ensures |scores| == playerCount && r.Failure? ==> r.error == NegativeScore
  {
    if |scores| != playerCount then Failure(ScoreCountMismatch)
    else if exists i :: 0 <= i < |scores| && scores[i] < 0 then Failure(NegativeScore)
    else Success(scores)
  }

  /** The `reduce` in `createGameFromMemento`: the seats whose score reaches the target, in
      ascending order. */
  function Winners(scores: seq<int>, targetScore: int): (r: seq<nat>)
    ensures forall k :: 0 <= k < |r| ==> r[k] < |scores| && scores[r[k]] >= targetScore
    ensures forall i :: 0 <= i < |scores| && scores[i] >= targetScore ==> i in r
    ensures forall j, k :: 0 <= j < k < |r| ==> r[j] < r[k]
  {
    if scores == [] then []
    else
      var n := |scores| - 1;
      var before := Winners(scores[..n], targetScore);
      if scores[n] >= targetScore then before + [n] else before
  }

  /** With at most one score at the target, a seat reaches it exactly when it is the one
      winner found. */
  lemma SoleWinner(scores: seq<int>, targetScore: int)
    requires |Winners(scores, targetScore)| <= 1
    ensures var ws := Winners(scores, targetScore);
      forall i :: 0 <= i < |scores| ==> (scores[i] >= targetScore <==> |ws| == 1 && i == ws[0])
  {
    var ws := Winners(scores, targetScore);
    forall i | 0 <= i < |scores| && scores[i] >= targetScore
      ensures |ws| == 1 && i == ws[0]
    {
      assert i in ws;
    }
  }

  /** Scores that reach the target at one seat at most give that seat, or nobody, back. */
  lemma WinnersOfDecided(scores: seq<int>, targetScore: int, winner: Option<nat>)
    requires winner.Some? ==> winner.value < |scores|
    requires forall i :: 0 <= i < |scores| ==> (scores[i] >= targetScore <==> winner == Some(i))
    ensures Winners(scores, targetScore) == if winner.Some? then [winner.value] else []
  {
    var ws := Winners(scores, targetScore);
    forall k | 0 <= k < |ws|
      ensures winner == Some(ws[k])
    {
      assert scores[ws[k]] >= targetScore;
    }
    AscendingOfOne(ws, winner);
    if winner.Some? {
      assert winner.value in ws;
    }
  }

  /** An ascending list whose every element is the one value `w` holds it at most once. */
  lemma AscendingOfOne(r: seq<nat>, w: Option<nat>)
    requires forall j, k :: 0 <= j < k < |r| ==> r[j] < r[k]
    requires forall k :: 0 <= k < |r| ==> w == Some(r[k])
    ensures w.None? ==> r == []
    ensures |r| <= 1
  {
    if |r| > 0 {
      FirstTwo(r, w);
    }
  }

  lemma FirstTwo(r: seq<nat>, w: Option<nat>)
    requires |r| > 0
    requires forall j, k :: 0 <= j < k < |r| ==> r[j] < r[k]
    requires forall k :: 0 <= k < |r| ==> w == Some(r[k])
    ensures w == Some(r[0]) && (|r| > 1 ==> r[0] < r[1] && w == Some(r[1]))
  {
  }

  function Zeros(n: nat): (z: seq<int>)
    ensures |z| == n && forall i :: 0 <= i < n ==> z[i] == 0
  {
    seq(n, _ => 0)
  }

  // ---------------------------------------------------------------------------
  // The game as data

  /** A game as plain data; the round, if any, is a round memento. */
  datatype GameMemento = GameMemento(
    players: seq<string>,
    targetScore: int,
    scores: seq<int>,
    cardsPerPlayer: int,
    currentRound: Option<RoundMemento>)

  /** What a game holds: its settings, the scores, the next or current dealer, and either
      the round in play or the winner of the match. */
  datatype GameState = GameState(
    players: seq<string>,
    targetScore: int,
    scores: seq<int>,
    cardsPerPlayer: int,
    dealer: nat,
    round: Option<RoundState>,
    winner: Option<nat>)

  /** The settings are valid, every score is a non-negative number, a seat's score reaches
      the target exactly when that seat has won the match, and a won match has no round. */
  predicate GameFormed(g: GameState) {
    && MinPlayers <= |g.players| <= MaxPlayers
    && g.targetScore > 0 && g.cardsPerPlayer > 0
    && |g.scores| == |g.players|
    && g.dealer < |g.players|
    && (forall i :: 0 <= i < |g.scores| ==> g.scores[i] >= 0)
    && (g.winner.Some? ==> g.winner.value < |g.players| && g.round.None?)
    && (forall i :: 0 <= i < |g.scores| ==> (g.scores[i] >= g.targetScore <==> g.winner == Some(i)))
  }

  /** The round in play, if any, is settled, and its dealer, counted round the game's
      table, is the game's dealer. */
  predicate GameSettled(g: GameState) {
    g.round.Some? ==>
      && SettledRound(g.round.value.hands, g.round.value.discardPile, g.round.value.finished)
      && |g.players| > 0 && g.round.value.dealer % |g.players| == g.dealer
  }

  /** A formed game that is either being played or won, never neither. */
  predicate GameValid(g: GameState) {
    GameFormed(g) && (g.round.Some? <==> g.winner.None?)
  }

  /** `toMemento` on the data. */
  function GameMementoOf(g: GameState): GameMemento {
    GameMemento(g.players, g.targetScore, g.scores, g.cardsPerPlayer,
      if g.round.Some? then Some(MementoOf(g.round.value)) else None)
  }

  /** The checks of `createGameFromMemento` that come before the round. */
  function CheckedScores(m: GameMemento): (r: Result<(seq<string>, seq<int>), GameError>)
    ensures r.Success? ==> r.value.1 == m.scores && MinPlayers <= |r.value.0| <= MaxPlayers
    ensures r.Success? ==> m.targetScore > 0 && m.cardsPerPlayer > 0 && |m.scores| == |r.value.0|
    ensures r.Success? ==> forall i :: 0 <= i < |m.scores| ==> m.scores[i] >= 0
  {
    match NormalisePlayers(Some(m.players))
    case Failure(e) => Failure(e)
    case Success(players) =>
      match ValidateGameConfig(m.targetScore, m.cardsPerPlayer)
      case Fail(e) => Failure(e)
      case Pass =>
        match ValidateAndCopyScores(m.scores, |players|)
        case Failure(e) => Failure(e)
        case Success(scores) => Success((players, scores))
  }

  /** `createGameFromMemento` on the data: the checks, then the winner found from the
      scores and either the restored round or, for a won match, the seat after the winner
      as the dealer. */
  function RestoreGame(m: GameMemento): (r: Result<GameState, GameError>)
    ensures r.Success? ==> GameValid(r.value)
    ensures r.Success? ==>
      && r.value.targetScore == m.targetScore && r.value.scores == m.scores
      && r.value.cardsPerPlayer == m.cardsPerPlayer
    ensures r.Success? ==> (r.value.winner.Some? <==> m.currentRound.None?)
    ensures r.Success? && r.value.winner.Some? ==>
      r.value.dealer == (r.value.winner.value + 1) % |r.value.players|
    ensures r.Success? && m.currentRound.Some? ==> Restore(m.currentRound.value) == Success(r.value.round.value)
    ensures |Winners(m.scores, m.targetScore)| > 1 ==> r.Failure?
    ensures (exists i :: 0 <= i < |m.scores| && m.scores[i] >= m.targetScore) && m.currentRound.Some? ==> r.Failure?
    ensures (forall i :: 0 <= i < |m.scores| ==> m.scores[i] < m.targetScore) && m.currentRound.None? ==> r.Failure?
  {
    match CheckedScores(m)
    case Failure(e) => Failure(e)
    case Success((players, scores)) => RestoreDecided(m, players)
  }

  /** The part of `RestoreGame` after the checks, with the checked players. */
  function RestoreDecided(m: GameMemento, players: seq<string>): (r: Result<GameState, GameError>)
    requires CheckedScores(m) == Success((players, m.scores))
    ensures r.Success? ==> GameValid(r.value)
    ensures r.Success? ==>
      && r.value.players == players && r.value.targetScore == m.targetScore && r.value.scores == m.scores
      && r.value.cardsPerPlayer == m.cardsPerPlayer
    ensures r.Success? ==> (r.value.winner.Some? <==> m.currentRound.None?)
    ensures r.Success? && r.value.winner.Some? ==> r.value.dealer == (r.value.winner.value + 1) % |players|
    ensures r.Success? && m.currentRound.Some? ==> Restore(m.currentRound.value) == Success(r.value.round.value)
    ensures |Winners(m.scores, m.targetScore)| > 1 ==> r.Failure?
    ensures (exists i :: 0 <= i < |m.scores| && m.scores[i] >= m.targetScore) && m.currentRound.Some? ==> r.Failure?
    ensures (forall i :: 0 <= i < |m.scores| ==> m.scores[i] < m.targetScore) && m.currentRound.None? ==> r.Failure?
  {
    var n := |players|;
    var ws := Winners(m.scores, m.targetScore);
    if |ws| > 1 then Failure(MoreThanOneWinner)
    else
      SoleWinner(m.scores, m.targetScore);
      if |ws| == 0 then
        if m.currentRound.None? then Failure(RoundRequired)
        else
          match Restore(m.currentRound.value)
          case Failure(e) => Failure(RestoreFailed(e))
          case Success(round) =>
            Success(GameState(players, m.targetScore, m.scores, m.cardsPerPlayer,
              Mod(m.currentRound.value.dealer, n), Some(round), None))
      else if m.currentRound.Some? then Failure(RoundNotAllowed)
      else
        Success(GameState(players, m.targetScore, m.scores, m.cardsPerPlayer,
          Mod(ws[0] + 1, n), None, Some(ws[0])))
  }

  /** A restored game is settled. */
  lemma RestoreGameSettled(m: GameMemento)
    ensures RestoreGame(m).Success? ==> GameSettled(RestoreGame(m).value)
  {
    var checked := CheckedScores(m);
    if checked.Success? && m.currentRound.Some? && Winners(m.scores, m.targetScore) == [] {
      ResumedOutcome(m, checked.value.0);
    }
  }

  /** A settled game whose round a round memento brings back. */
  ghost predicate Reloadable(g: GameState) {
    GameSettled(g) && (g.round.Some? ==> Restorable(g.round.value))
  }

  /** What a save and restore gives back: a won match gets the seat after the winner as
      dealer, and a finished round names seat 0 as the player in turn. */
  function Reloaded(g: GameState): GameState
    requires |g.players| > 0
  {
    if g.winner.Some? then g.(dealer := (g.winner.value + 1) % |g.players|)
    else if g.round.Some? && g.round.value.finished then g.(round := Some(g.round.value.(currentPlayer := 0)))
    else g
  }

  /** Every valid game survives `toMemento` and `createGameFromMemento`, up to the dealer of
      a won match and the turn of a finished round, which a memento does not carry. */
  lemma RestoreGameMementoOf(g: GameState)
    requires GameValid(g) && Reloadable(g)
    ensures RestoreGame(GameMementoOf(g)) == Success(Reloaded(g))
  {
    var m := GameMementoOf(g);
    assert CheckedScores(m) == Success((g.players, g.scores));
    WinnersOfDecided(g.scores, g.targetScore, g.winner);
    if g.round.Some? {
      RestoreMementoOf(g.round.value);
    }
  }

  /** The same round trip stated for every game, for use inside expressions. */
  lemma RestoreGameMementoOfAny(g: GameState)
    ensures GameValid(g) && Reloadable(g) ==> RestoreGame(GameMementoOf(g)) == Success(Reloaded(g))
  {
    if GameValid(g) && Reloadable(g) {
      RestoreGameMementoOf(g);
    }
  }

  /** `handleRoundEnd` on the data: the winner of the round gets its score; at the target
      the match is won and the round dropped, otherwise the winner deals `next`. A round
      that cannot be dealt leaves the game as it was. */
  function AfterRoundEnd(g: GameState, w: nat, gain: int, next: Result<RoundState, RoundError>): GameState
    requires w < |g.scores|
  {
    if g.round.None? then g
    else
      var total := g.scores[w] + gain;
      if total >= g.targetScore then g.(scores := g.scores[w := total], winner := Some(w), round := None)
      else if next.Failure? then g
      else g.(scores := g.scores[w := total], dealer := w, round := Some(next.value))
  }

  /** A round end keeps the game valid, changes no score but the winner's, which grows by
      the round score, and ends the match exactly when the target is reached. */
  lemma AfterRoundEndFacts(g: GameState, w: nat, gain: nat, next: Result<RoundState, RoundError>)
    requires GameValid(g) && g.round.Some? && w < |g.players|
    ensures var h := AfterRoundEnd(g, w, gain, next);
      && GameValid(h)
      && h.players == g.players && h.targetScore == g.targetScore && h.cardsPerPlayer == g.cardsPerPlayer
      && |h.scores| == |g.scores|
      && (forall i :: 0 <= i < |g.scores| && i != w ==> h.scores[i] == g.scores[i])
      && (h.winner.Some? <==> g.scores[w] + gain >= g.targetScore)
      && (h.winner.Some? ==> h.winner == Some(w) && h.scores[w] == g.scores[w] + gain)
      && (h.winner.None? && next.Success? ==>
            h.scores[w] == g.scores[w] + gain && h.dealer == w && h.round == Some(next.value))
    ensures var total := g.scores[w] + gain;
      && (total >= g.targetScore ==> AfterRoundEnd(g, w, gain, next) == g.(scores := g.scores[w := total], winner := Some(w), round := None))
      && (total < g.targetScore && next.Success? ==>
            AfterRoundEnd(g, w, gain, next) == g.(scores := g.scores[w := total], dealer := w, round := Some(next.value)))
      && (total < g.targetScore && next.Failure? ==> AfterRoundEnd(g, w, gain, next) == g)
  {
  }

  // ---------------------------------------------------------------------------
  // The game object

  /** `UnoGame`: the players and settings, the scores, the dealer, and either the round in
      play or the winner of the match. */
  class UnoGame {
    const players: seq<string>
    const targetScore: int
    const cardsPerPlayer: int
    const shuffler: Shuffler
    var scores: seq<int>
    var dealer: nat
    var currentRound: Option<RoundImpl>
    var winner: Option<nat>

    /** The source's constructor up to the round: the settings as given and the dealer
        brought onto the table; the round, if any, is the one given. */
    constructor (players: seq<string>, targetScore: int, cardsPerPlayer: int, shuffler: Shuffler,
                 scores: seq<int>, dealer: int, winner: Option<nat>, round: Option<RoundImpl>)
      requires MinPlayers <= |players| <= MaxPlayers && targetScore > 0 && cardsPerPlayer > 0
      requires |scores| == |players| && forall i :: 0 <= i < |scores| ==> scores[i] >= 0
      requires winner.Some? ==> winner.value < |players| && round.None?
      requires forall i :: 0 <= i < |scores| ==> (scores[i] >= targetScore <==> winner == Some(i))
      requires Permutes(shuffler) && (round.Some? ==> round.value.Valid())
      ensures Formed()
      ensures this.players == players && this.targetScore == targetScore
      ensures this.cardsPerPlayer == cardsPerPlayer && this.shuffler == shuffler
      ensures this.scores == scores && this.dealer == Mod(dealer, |players|)
      ensures this.winner == winner && currentRound == round
    {
      this.players := players;
      this.targetScore := targetScore;
      this.cardsPerPlayer := cardsPerPlayer;
      this.shuffler := shuffler;
      this.scores := scores;
      this.dealer := Mod(dealer, |players|);
      this.winner := winner;
      currentRound := round;
    }

    ghost function Objects(): set<object>
      reads this, (if currentRound.Some? then {currentRound.value} else {})
    {
      if currentRound.Some? then {currentRound.value, currentRound.value.drawPile, currentRound.value.discardPile} else {}
    }

    function State(): GameState
      reads this, Objects()
    {
      GameState(players, targetScore, scores, cardsPerPlayer, dealer,
        if currentRound.Some? then Some(currentRound.value.State()) else None, winner)
    }

    /** The game's data is formed, its shuffler only rearranges cards, and its round keeps
        the round's own invariant. */
    ghost predicate Formed()
      reads this, Objects()
    {
      && GameFormed(State())
      && Permutes(shuffler)
      && (currentRound.Some? ==> currentRound.value.Valid())
    }

    /** Formed, and either in play or won. */
    ghost predicate Valid()
      reads this, Objects()
    {
      Formed() && (currentRound.Some? <==> winner.None?)
    }

    /** The round in play, if any, is settled and dealt by the game's dealer. */
    ghost predicate Settled()
      reads this, Objects()
    {
      GameSettled(State())
    }

    /** `player(index)`. */
    function Player(index: real): (r: Result<string, GameError>)
      ensures r.Success? <==> index == index.Floor as real && 0 <= index.Floor < |players|
      ensures r.Success? ==> r.value == players[index.Floor]
      ensures r.Failure? ==> EnsureIndex(index, |players|) == Fail(r.error)
    {
      match EnsureIndex(index, |players|)
      case Fail(e) => Failure(e)
      case Pass => Success(players[index.Floor])
    }

    /** `score(index)`: the seat is checked against the players, as in the source. */
    function Score(index: real): (r: Result<int, GameError>)
      requires |scores| == |players|
      reads this
      ensures r.Success? <==> index == index.Floor as real && 0 <= index.Floor < |players|
      ensures r.Success? ==> r.value == scores[index.Floor]
      ensures r.Failure? ==> EnsureIndex(index, |players|) == Fail(r.error)
    {
      match EnsureIndex(index, |players|)
      case Fail(e) => Failure(e)
      case Pass => Success(scores[index.Floor])
    }

    function PlayerCount(): nat {
      |players|
    }

    function Winner(): Option<nat>
      reads this
    {
      winner
    }

    function CurrentRound(): Option<RoundImpl>
      reads this
    {
      currentRound
    }

    /** `toMemento()`: the game as plain data; a valid, settled game comes back from
        `createGameFromMemento` as it was, up to the dealer of a won match and the turn of
        a finished round. */
    function ToMemento(): (m: GameMemento)
      reads this, Objects()
      ensures m.players == players && m.targetScore == targetScore && m.scores == scores
      ensures m.cardsPerPlayer == cardsPerPlayer
      ensures m.currentRound.Some? <==> currentRound.Some?
      ensures currentRound.Some? ==> m.currentRound.value == currentRound.value.ToMemento()
      ensures Valid() && Settled() ==> RestoreGame(m) == Success(Reloaded(State()))
    {
      RestoreGameMementoOfAny(State());
      GameMemento(players, targetScore, scores, cardsPerPlayer,
        if currentRound.Some? then Some(currentRound.value.ToMemento()) else None)
    }

    /** `initialiseNewRound()`: unless the match is won, a round dealt by the dealer. */
    method InitialiseNewRound() returns (r: Outcome<GameError>)
      requires Formed() && currentRound.None?
      modifies this`currentRound
      ensures Formed()
      ensures winner.Some? ==> r.Pass? && currentRound.None?
      ensures winner.None? ==>
        var s := InitialState(players, dealer, shuffler, cardsPerPlayer);
        && (r.Pass? <==> s.Success?)
        && (r.Fail? ==> r.error == DealFailed(RedrawLimitReached) && currentRound.None?)
        && (r.Pass? ==> currentRound.Some? && fresh(currentRound.value) && State() == old(State()).(round := Some(s.value)))
      ensures r.Pass? ==> Valid()
      ensures r.Pass? && |players| * cardsPerPlayer < |CanonicalDeck()| ==> Settled()
    {
      if winner.Some? {
        return Pass;
      }
      r := DealFirst();
    }

    /** The dealing half of `initialiseNewRound`, for a game nobody has won yet. */
    method DealFirst() returns (r: Outcome<GameError>)
      requires Formed() && currentRound.None? && winner.None?
      modifies this`currentRound
      ensures Formed()
      ensures var s := InitialState(players, dealer, shuffler, cardsPerPlayer);
        && (r.Pass? <==> s.Success?)
        && (r.Fail? ==> r.error == DealFailed(RedrawLimitReached) && currentRound.None?)
        && (r.Pass? ==> currentRound.Some? && fresh(currentRound.value) && State() == old(State()).(round := Some(s.value)))
      ensures r.Pass? ==> Valid()
      ensures r.Pass? && |players| * cardsPerPlayer < |CanonicalDeck()| ==> Settled()
    {
      assert cardsPerPlayer > 0;
      InitialStateSettled(players, dealer, shuffler, cardsPerPlayer);
      ModOfSeat(dealer, |players|);
      var next := NewRound(players, dealer, shuffler, cardsPerPlayer);
      assert unchanged(this);
      if next.Failure? {
        return Fail(DealFailed(next.error));
      }
      Attach(next.value);
      return Pass;
    }

    /** `round` becomes the round in play of a game without a winner. */
    method Attach(round: RoundImpl)
      requires Formed() && currentRound.None? && winner.None? && round.Valid()
      modifies this`currentRound
      ensures Valid() && State() == old(State()).(round := Some(round.State()))
      ensures currentRound == Some(round)
    {
      ghost var g := State();
      currentRound := Some(round);
      assert State() == g.(round := Some(round.State()));
    }

    /** `handleRoundEnd(w)`: the state `AfterRoundEnd` describes, with the score the round
        reports (none counts as 0) and, below the target, a fresh round dealt by `w`. */
    method HandleRoundEnd(w: nat) returns (r: Outcome<GameError>)
      requires Valid() && w < |players|
      modifies this`scores, this`winner, this`currentRound, this`dealer
      ensures Valid()
      ensures var gain := if old(currentRound).Some? then old(currentRound.value.Score()).GetOr(0) else 0;
        var next := InitialState(players, w, shuffler, cardsPerPlayer);
        && State() == AfterRoundEnd(old(State()), w, gain, next)
        && (r.Fail? <==> old(currentRound).Some? && old(scores[w]) + gain < targetScore && next.Failure?)
        && (r.Fail? ==> r.error == DealFailed(RedrawLimitReached))
        && (currentRound.Some? && currentRound != old(currentRound) ==> fresh(currentRound.value))
      ensures old(Settled()) && |players| * cardsPerPlayer < |CanonicalDeck()| ==> Settled()
    {
      if currentRound.None? {
        return Pass;
      }
      assert cardsPerPlayer > 0;
      InitialStateSettled(players, w, shuffler, cardsPerPlayer);
      ModOfSeat(w, |players|);
      var gain := currentRound.value.Score().GetOr(0);
      ghost var next := InitialState(players, w, shuffler, cardsPerPlayer);
      if scores[w] + gain >= targetScore {
        EndMatch(w, gain, next);
        return Pass;
      }
      r := DealNext(w, gain);
    }

    /** The winner reaches the target: the new total, the match won, and no round. */
    method EndMatch(w: nat, gain: nat, ghost next: Result<RoundState, RoundError>)
      requires Valid() && currentRound.Some? && w < |players| && scores[w] + gain >= targetScore
      modifies this`scores, this`winner, this`currentRound
      ensures Valid() && State() == AfterRoundEnd(old(State()), w, gain, next)
      ensures currentRound.None?
    {
      ghost var g := State();
      AfterRoundEndFacts(g, w, gain, next);
      var total := scores[w] + gain;
      scores := scores[w := total];
      winner := Some(w);
      currentRound := None;
      assert State() == g.(scores := g.scores[w := total], winner := Some(w), round := None);
    }

    /** The winner stays below the target: the new total and a round dealt by the winner, or,
        when no round can be dealt, the game as it was. */
    method DealNext(w: nat, gain: nat) returns (r: Outcome<GameError>)
      requires Valid() && currentRound.Some? && w < |players| && scores[w] + gain < targetScore
      modifies this`scores, this`dealer, this`currentRound
      ensures var next := InitialState(players, w, shuffler, cardsPerPlayer);
        && Valid() && State() == AfterRoundEnd(old(State()), w, gain, next)
        && (r.Fail? <==> next.Failure?)
        && (r.Fail? ==> r.error == DealFailed(RedrawLimitReached))
        && (currentRound != old(currentRound) ==> currentRound.Some? && fresh(currentRound.value))
    {
      assert cardsPerPlayer > 0;
      ghost var next := InitialState(players, w, shuffler, cardsPerPlayer);
      ghost var g := State();
      AfterRoundEndFacts(g, w, gain, next);
      var round := NewRound(players, w, shuffler, cardsPerPlayer);
      assert State() == g && Valid();
      if round.Failure? {
        return Fail(DealFailed(round.error));
      }
      Install(w, gain, round.value, next);
      return Pass;
    }

    /** The winner's new total, and `round` as the round in play, dealt by the winner. */
    method Install(w: nat, gain: nat, round: RoundImpl, ghost next: Result<RoundState, RoundError>)
      requires Valid() && currentRound.Some? && w < |players| && scores[w] + gain < targetScore
      requires round.Valid() && next == Success(round.State())
      modifies this`scores, this`dealer, this`currentRound
      ensures Valid() && State() == AfterRoundEnd(old(State()), w, gain, next)
      ensures currentRound == Some(round)
    {
      ghost var g := State();
      AfterRoundEndFacts(g, w, gain, next);
      var total := scores[w] + gain;
      NextRound(w, total, round);
      assert State() == g.(scores := g.scores[w := total], dealer := w, round := Some(next.value));
    }

    method NextRound(w: nat, total: int, round: RoundImpl)
      requires w < |scores|
      modifies this`scores, this`dealer, this`currentRound
      ensures State() == old(State()).(scores := old(scores)[w := total], dealer := w, round := Some(round.State()))
      ensures currentRound == Some(round)
    {
      scores := scores[w := total];
      dealer := w;
      currentRound := Some(round);
    }
  }

  // ---------------------------------------------------------------------------
  // Creating a game

  /** The options `createGame` reads; the randomizer and shuffler are parameters. */
  datatype GameConfig = GameConfig(players: Option<seq<string>>, targetScore: Option<int>, cardsPerPlayer: Option<int>)

  /** `createGame`: the players normalised, the defaults 500 and 7 filled in and checked,
      the dealer drawn as `randomizer(n) % n`, all scores 0 and the first round dealt. */
  method CreateGame(config: GameConfig, randomizer: Randomizer, shuffler: Shuffler) returns (r: Result<UnoGame, GameError>)
    requires Permutes(shuffler)
    ensures var players := NormalisePlayers(config.players);
      var target := config.targetScore.GetOr(DefaultTargetScore);
      var cpp := config.cardsPerPlayer.GetOr(DefaultCardsPerPlayer);
      && (players.Failure? ==> r == Failure(players.error))
      && (players.Success? && ValidateGameConfig(target, cpp).Fail? ==>
            r == Failure(ValidateGameConfig(target, cpp).error))
      && (players.Success? && ValidateGameConfig(target, cpp).Pass? ==>
            var n := |players.value|;
            var s := InitialState(players.value, randomizer(n) % n, shuffler, cpp);
            && (r.Success? <==> s.Success?)
            && (r.Failure? ==> r.error == DealFailed(RedrawLimitReached))
            && (r.Success? ==>
                  && fresh(r.value) && r.value.Valid() && r.value.shuffler == shuffler
                  && r.value.State() == GameState(players.value, target, Zeros(n), cpp, randomizer(n) % n, Some(s.value), None))
            && (r.Success? && n * cpp < |CanonicalDeck()| ==> r.value.Settled()))
  {
    var players := NormalisePlayers(config.players);
    if players.Failure? {
      return Failure(players.error);
    }
    var target := config.targetScore.GetOr(DefaultTargetScore);
    var cpp := config.cardsPerPlayer.GetOr(DefaultCardsPerPlayer);
    var checked := ValidateGameConfig(target, cpp);
    if checked.Fail? {
      return Failure(checked.error);
    }
    var n := |players.value|;
    var dealer := JsRem(randomizer(n), n);
    ModOfJsRem(randomizer(n), n);
    var game := new UnoGame(players.value, target, cpp, shuffler, Zeros(n), dealer, None, None);
    var opening := game.InitialiseNewRound();
    if opening.Fail? {
      return Failure(opening.error);
    }
    return Success(game);
  }

  /** `createGameFromMemento`: the game `RestoreGame` describes, with a live round rebuilt
      by `createRoundFromMemento` with the same shuffler. */
  method CreateGameFromMemento(m: GameMemento, shuffler: Shuffler) returns (r: Result<UnoGame, GameError>)
    requires Permutes(shuffler)
    ensures r.Success? <==> RestoreGame(m).Success?
    ensures r.Failure? ==> RestoreGame(m) == Failure(r.error)
    ensures r.Success? ==> fresh(r.value) && r.value.Valid() && r.value.State() == RestoreGame(m).value
    ensures r.Success? ==> r.value.Settled()
  {
    RestoreGameSettled(m);
    var checked := CheckedScores(m);
    if checked.Failure? {
      return Failure(checked.error);
    }
    var players := checked.value.0;
    var winners := Winners(m.scores, m.targetScore);
    if |winners| > 1 {
      return Failure(MoreThanOneWinner);
    }
    if |winners| == 0 {
      if m.currentRound.None? {
        return Failure(RoundRequired);
      }
      r := ResumeGame(m, players, shuffler);
    } else {
      if m.currentRound.Some? {
        return Failure(RoundNotAllowed);
      }
      r := WonGame(m, players, shuffler);
    }
  }

  /** A saved game nobody has won: its round restored, dealt by the round's dealer. */
  method ResumeGame(m: GameMemento, players: seq<string>, shuffler: Shuffler) returns (r: Result<UnoGame, GameError>)
    requires Permutes(shuffler) && CheckedScores(m) == Success((players, m.scores))
    requires Winners(m.scores, m.targetScore) == [] && m.currentRound.Some?
    ensures r.Success? <==> RestoreDecided(m, players).Success?
    ensures r.Failure? ==> RestoreDecided(m, players) == Failure(r.error)
    ensures r.Success? ==> fresh(r.value) && r.value.Valid() && r.value.State() == RestoreDecided(m, players).value
  {
    ResumedOutcome(m, players);
    var restored := CreateRoundFromMemento(m.currentRound.value, Some(shuffler));
    if restored.Failure? {
      return Failure(RestoreFailed(restored.error));
    }
    var game := new UnoGame(players, m.targetScore, m.cardsPerPlayer, shuffler, m.scores,
      m.currentRound.value.dealer, None, Some(restored.value));
    return Success(game);
  }

  /** What `RestoreDecided` gives for a saved game nobody has won. */
  lemma ResumedOutcome(m: GameMemento, players: seq<string>)
    requires CheckedScores(m) == Success((players, m.scores))
    requires Winners(m.scores, m.targetScore) == [] && m.currentRound.Some?
    ensures forall i :: 0 <= i < |m.scores| ==> m.scores[i] < m.targetScore
    ensures var restored := Restore(m.currentRound.value);
      && (restored.Failure? ==> RestoreDecided(m, players) == Failure(RestoreFailed(restored.error)))
      && (restored.Success? ==> RestoreDecided(m, players) == Success(GameState(players, m.targetScore,
            m.scores, m.cardsPerPlayer, Mod(m.currentRound.value.dealer, |players|), Some(restored.value), None)))
  {
    SoleWinner(m.scores, m.targetScore);
  }

  /** A saved game that has been won: no round, and the seat after the winner as dealer. */
  method WonGame(m: GameMemento, players: seq<string>, shuffler: Shuffler) returns (r: Result<UnoGame, GameError>)
    requires Permutes(shuffler) && CheckedScores(m) == Success((players, m.scores))
    requires |Winners(m.scores, m.targetScore)| == 1 && m.currentRound.None?
    ensures RestoreDecided(m, players).Success?
    ensures r.Success? && fresh(r.value) && r.value.Valid() && r.value.State() == RestoreDecided(m, players).value
  {
    WonOutcome(m, players);
    var w := Winners(m.scores, m.targetScore)[0];
    var dealer := Mod(w + 1, |players|);
    ModOfSeat(dealer, |players|);
    var game := new UnoGame(players, m.targetScore, m.cardsPerPlayer, shuffler, m.scores, dealer, Some(w), None);
    return Success(game);
  }

  /** What `RestoreDecided` gives for a saved game with one winner and no round. */
  lemma WonOutcome(m: GameMemento, players: seq<string>)
    requires CheckedScores(m) == Success((players, m.scores))
    requires |Winners(m.scores, m.targetScore)| == 1 && m.currentRound.None?
    ensures var w := Winners(m.scores, m.targetScore)[0];
      && w < |players|
      && (forall i :: 0 <= i < |m.scores| ==> (m.scores[i] >= m.targetScore <==> i == w))
      && RestoreDecided(m, players) == Success(GameState(players, m.targetScore, m.scores,
           m.cardsPerPlayer, Mod(w + 1, |players|), None, Some(w)))
  {
    var ws := Winners(m.scores, m.targetScore);
    SoleWinner(m.scores, m.targetScore);
    assert ws[0] < |m.scores|;
    assert RestoreDecided(m, players) == Success(GameState(players, m.targetScore, m.scores,
      m.cardsPerPlayer, Mod(ws[0] + 1, |players|), None, Some(ws[0])));
  }
}
