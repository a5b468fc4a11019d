/**
 * The plain-data side of a round (src/model/round.ts): round-end scoring, the winner
 * search, the exported memento, and the validated restore that rebuilds a round state
 * from a memento.
 */
module RoundMemento {
  import opened Common
  import opened Deck
  import opened Piles

  // ---------------------------------------------------------------------------
  // Scoring and the winner

  /** The points of one hand. */
  function HandScore(h: seq<Card>): nat {
    if h == [] then 0 else HandScore(h[..|h| - 1]) + CardScore(h[|h| - 1])
  }

  /** The round score: the points of every non-empty hand, added up. */
  function TotalScore(hs: seq<seq<Card>>): nat {
    if hs == [] then 0
    else TotalScore(hs[..|hs| - 1]) + (if |hs[|hs| - 1]| > 0 then HandScore(hs[|hs| - 1]) else 0)
  }

  /** A hand is worth at most 50 points a card, and nothing exactly when it holds only zeros. */
  lemma {:induction false} HandScoreBounds(h: seq<Card>)
    ensures HandScore(h) <= 50 * |h|
    ensures HandScore(h) == 0 <==> forall i :: 0 <= i < |h| ==> h[i].Numbered? && h[i].number == 0
  {
    if h != [] {
      var init := h[..|h| - 1];
      HandScoreBounds(init);
      assert forall i :: 0 <= i < |init| ==> init[i] == h[i];
    }
  }

  /** The round score is bounded by the cards left in the hands. */
  lemma {:induction false} TotalScoreBound(hs: seq<seq<Card>>, bound: nat)
    requires forall i :: 0 <= i < |hs| ==> |hs[i]| <= bound
    ensures TotalScore(hs) <= 50 * bound * |hs|
  {
    if hs != [] {
      var init := hs[..|hs| - 1];
      assert forall i :: 0 <= i < |init| ==> init[i] == hs[i];
      TotalScoreBound(init, bound);
      HandScoreBounds(hs[|hs| - 1]);
      var unit := 50 * bound;
      MulSub(|hs|, |init|, unit);
      assert unit * |hs| == unit * |init| + unit;
    }
  }

  /** How many hands are empty. */
  function CountEmpty(hs: seq<seq<Card>>): (k: nat)
    ensures k <= |hs|
  {
    if hs == [] then 0 else CountEmpty(hs[..|hs| - 1]) + (if hs[|hs| - 1] == [] then 1 else 0)
  }

  /** The first empty hand, if there is one (`getWinner`, with -1 as `None`). */
  function FirstEmpty(hs: seq<seq<Card>>): (w: Option<nat>)
    ensures w.Some? ==> w.value < |hs| && hs[w.value] == [] && forall j :: 0 <= j < w.value ==> hs[j] != []
    ensures w.None? <==> forall j :: 0 <= j < |hs| ==> hs[j] != []
  {
    if hs == [] then None
    else if hs[0] == [] then Some(0)
    else
      match FirstEmpty(hs[1..])
      case None => None
      case Some(k) => Some(k + 1)
  }

  lemma {:induction false} CountEmptyZero(hs: seq<seq<Card>>)
    ensures CountEmpty(hs) == 0 <==> forall j :: 0 <= j < |hs| ==> hs[j] != []
  {
    if hs != [] {
      var init := hs[..|hs| - 1];
      CountEmptyZero(init);
      assert forall j :: 0 <= j < |init| ==> init[j] == hs[j];
    }
  }

  /** With a single empty hand, that hand is the first empty one and every other is non-empty. */
  lemma {:induction false} CountEmptyOne(hs: seq<seq<Card>>, w: nat)
    requires w < |hs| && hs[w] == [] && CountEmpty(hs) == 1
    ensures forall j :: 0 <= j < |hs| && j != w ==> hs[j] != []
  {
    var init := hs[..|hs| - 1];
    assert forall j :: 0 <= j < |init| ==> init[j] == hs[j];
    CountEmptyZero(init);
    if w < |hs| - 1 {
      assert hs[|hs| - 1] != [];
      CountEmptyOne(init, w);
    }
  }

  /** With every hand but the one at `w` holding cards, the count of empty hands says
      whether that one is empty. */
  lemma {:induction false} CountEmptyAllBut(hs: seq<seq<Card>>, w: nat)
    requires w < |hs| && forall j :: 0 <= j < |hs| && j != w ==> hs[j] != []
    ensures CountEmpty(hs) == if hs[w] == [] then 1 else 0
  {
    var init := hs[..|hs| - 1];
    assert forall j :: 0 <= j < |init| ==> init[j] == hs[j];
    if w == |hs| - 1 {
      CountEmptyZero(init);
    } else {
      CountEmptyAllBut(init, w);
    }
  }

  /** A round a memento can carry and play can go on from: at most one hand is empty, the
      round has ended exactly when one is, and the discard pile has a top card. */
  predicate SettledRound(hands: seq<seq<Card>>, discardPile: seq<Card>, finished: bool) {
    && CountEmpty(hands) <= 1
    && (finished <==> CountEmpty(hands) == 1)
    && discardPile != []
  }

  // ---------------------------------------------------------------------------
  // Colours and directions as the memento writes them

  const BlueName: string := "BLUE"
  const GreenName: string := "GREEN"
  const RedName: string := "RED"
  const YellowName: string := "YELLOW"

  function ColorName(c: Color): string {
    match c
    case Blue => BlueName
    case Green => GreenName
    case Red => RedName
    case Yellow => YellowName
  }

  function ParseColor(s: string): (c: Option<Color>)
    ensures c.Some? ==> ColorName(c.value) == s
  {
    if s == BlueName then Some(Blue)
    else if s == GreenName then Some(Green)
    else if s == RedName then Some(Red)
    else if s == YellowName then Some(Yellow)
    else None
  }

  lemma ParseColorName(c: Color)
    ensures ParseColor(ColorName(c)) == Some(c)
  {
  }

  const Clockwise: string := "clockwise"
  const Counterclockwise: string := "counterclockwise"

  function DirectionLabel(direction: int): string {
    if direction > 0 then Clockwise else Counterclockwise
  }

  function DirectionOf(name: string): (d: int)
    ensures d == 1 || d == -1
  {
    if name == Clockwise then 1 else -1
  }

  lemma DirectionRoundTrip(direction: int)
    requires direction == 1 || direction == -1
    ensures DirectionOf(DirectionLabel(direction)) == direction
  {
  }

  /** A pile written top first. */
  function Reversed(s: seq<Card>): (r: seq<Card>)
    ensures |r| == |s|
    ensures forall i :: 0 <= i < |s| ==> r[i] == s[|s| - 1 - i]
  {
    if s == [] then [] else [s[|s| - 1]] + Reversed(s[..|s| - 1])
  }

  lemma ReversedTwice(s: seq<Card>)
    ensures Reversed(Reversed(s)) == s
  {
  }

  /** The colour a fresh discard pile ends with after the cards are added bottom first
      without naming a colour: that of the topmost coloured card, if any. */
  function PileColor(cards: seq<Card>): (c: Option<Color>)
    ensures c.None? <==> forall i :: 0 <= i < |cards| ==> cards[i].IsWild()
    ensures cards != [] && !cards[|cards| - 1].IsWild() ==> c == Some(cards[|cards| - 1].color)
  {
    if cards == [] then None
    else if !cards[|cards| - 1].IsWild() then Some(cards[|cards| - 1].color)
    else PileColor(cards[..|cards| - 1])
  }

  // ---------------------------------------------------------------------------
  // Memento and state

  /** A round as `toMemento` exports it; the discard pile is listed top first. */
  datatype RoundMemento = RoundMemento(
    players: seq<string>,
    hands: seq<seq<Card>>,
    drawPile: seq<Card>,
    discardPile: seq<Card>,
    currentColor: Option<string>,
    currentDirection: string,
    dealer: int,
    playerInTurn: Option<int>)

  /** The part of a round that a memento carries; the discard pile is listed bottom first. */
  datatype RoundState = RoundState(
    players: seq<string>,
    dealer: nat,
    hands: seq<seq<Card>>,
    currentPlayer: nat,
    direction: int,
    drawPile: seq<Card>,
    discardPile: seq<Card>,
    currentColor: Option<Color>,
    finished: bool,
    roundScore: Option<nat>)

  datatype RestoreError =
    | NeedTwoPlayers
    | HandCountMismatch
    | EmptyDiscard
    | DealerOutOfBounds
    | TurnOutOfBounds
    | InvalidColor
    | InconsistentColor
    | WildTopNeedsColor
    | MultipleWinners
    | TurnRequired
    | TooManyPlayers

  function MementoOf(s: RoundState): RoundMemento {
    RoundMemento(
      s.players,
      s.hands,
      s.drawPile,
      Reversed(s.discardPile),
      if s.currentColor.Some? then Some(ColorName(s.currentColor.value)) else None,
      DirectionLabel(s.direction),
      s.dealer,
      if s.finished then None else Some(s.currentPlayer))
  }

  /** The colour a memento names; an empty string counts as none. */
  function GivenColor(m: RoundMemento): Option<string> {
    if m.currentColor.Some? && m.currentColor.value != "" then m.currentColor else None
  }

  /** The checks of `createRoundFromMemento`, in the order the source makes them. */
  function ValidateMemento(m: RoundMemento): (r: Outcome<RestoreError>)
    ensures r.Pass? ==> 2 <= |m.players| <= 10 && |m.hands| == |m.players| && |m.discardPile| > 0
    ensures r.Pass? ==> 0 <= m.dealer < |m.players|
    ensures r.Pass? && m.playerInTurn.Some? ==> 0 <= m.playerInTurn.value < |m.players|
    ensures r.Pass? && GivenColor(m).Some? ==> ParseColor(GivenColor(m).value).Some?
    ensures r.Pass? && !m.discardPile[0].IsWild() && GivenColor(m).Some? ==>
      GivenColor(m).value == ColorName(m.discardPile[0].color)
    ensures r.Pass? && m.discardPile[0].IsWild() ==> GivenColor(m).Some?
    ensures r.Pass? ==> CountEmpty(m.hands) <= 1
    ensures r.Pass? && CountEmpty(m.hands) == 0 ==> m.playerInTurn.Some?
    ensures r == Fail(NeedTwoPlayers) <==> |m.players| < 2
  {
    var n := |m.players|;
    var color := GivenColor(m);
    if n < 2 then Fail(NeedTwoPlayers)
    else if |m.hands| != n then Fail(HandCountMismatch)
    else if |m.discardPile| == 0 then Fail(EmptyDiscard)
    else if m.dealer < 0 || m.dealer >= n then Fail(DealerOutOfBounds)
    else if m.playerInTurn.Some? && (m.playerInTurn.value < 0 || m.playerInTurn.value >= n) then Fail(TurnOutOfBounds)
    else if color.Some? && ParseColor(color.value).None? then Fail(InvalidColor)
    else if !m.discardPile[0].IsWild() && color.Some? && color.value != ColorName(m.discardPile[0].color) then
      Fail(InconsistentColor)
    else if m.discardPile[0].IsWild() && color.None? then Fail(WildTopNeedsColor)
    else if CountEmpty(m.hands) > 1 then Fail(MultipleWinners)
    else if CountEmpty(m.hands) == 0 && m.playerInTurn.None? then Fail(TurnRequired)
    else if n > 10 then Fail(TooManyPlayers)
    else Pass
  }

  /** What a round's invariants promise about the state a memento carries, and what a
      restore re-establishes: seats and dealer in range, a non-empty discard whose colour
      fits its top card, at most one empty hand, and the round finished exactly when one
      hand is empty, with its score. */
  ghost predicate Restorable(s: RoundState) {
    && 2 <= |s.players| <= 10
    && |s.hands| == |s.players|
    && s.dealer < |s.players|
    && s.currentPlayer < |s.players|
    && (s.direction == 1 || s.direction == -1)
    && SettledRound(s.hands, s.discardPile, s.finished)
    && (!s.discardPile[|s.discardPile| - 1].IsWild() ==>
          s.currentColor == Some(s.discardPile[|s.discardPile| - 1].color))
    && (s.discardPile[|s.discardPile| - 1].IsWild() ==> s.currentColor.Some?)
    && s.roundScore == (if s.finished then Some(TotalScore(s.hands)) else None)
  }

  /** `createRoundFromMemento` on the data: the checks, then the rebuilt state. */
  function Restore(m: RoundMemento): (r: Result<RoundState, RestoreError>)
    ensures r.Success? <==> ValidateMemento(m).Pass?
    ensures r.Success? ==> Restorable(r.value)
    ensures r.Success? ==> r.value.players == m.players && r.value.dealer == m.dealer
    ensures r.Success? ==> r.value.hands == m.hands && r.value.drawPile == m.drawPile
    ensures r.Success? ==> r.value.discardPile == Reversed(m.discardPile)
    ensures r.Success? && m.playerInTurn.Some? ==> r.value.currentPlayer == m.playerInTurn.value
  {
    match ValidateMemento(m)
    case Fail(e) => Failure(e)
    case Pass =>
      var discard := Reversed(m.discardPile);
      var finished := CountEmpty(m.hands) == 1;
      var color := if GivenColor(m).Some? then ParseColor(GivenColor(m).value) else PileColor(discard);
      Success(RoundState(
        m.players,
        m.dealer as nat,
        m.hands,
        if m.playerInTurn.Some? then m.playerInTurn.value as nat else 0,
        DirectionOf(m.currentDirection),
        m.drawPile,
        discard,
        color,
        finished,
        if finished then Some(TotalScore(m.hands)) else None))
  }

  /** Every state the round's invariants allow passes the checks of a restore. */
  lemma MementoOfValidates(s: RoundState)
    requires Restorable(s)
    ensures ValidateMemento(MementoOf(s)) == Pass
    ensures GivenColor(MementoOf(s)) == Some(ColorName(s.currentColor.value))
  {
    var m := MementoOf(s);
    var top := s.discardPile[|s.discardPile| - 1];
    assert m.discardPile[0] == top;
    assert s.currentColor.Some?;
    assert GivenColor(m) == Some(ColorName(s.currentColor.value));
    ParseColorName(s.currentColor.value);
    assert !top.IsWild() ==> ColorName(s.currentColor.value) == ColorName(top.color);
    assert |m.players| == |s.players| && |m.hands| == |m.players|;
    assert CountEmpty(m.hands) <= 1;
    assert CountEmpty(m.hands) == 0 ==> m.playerInTurn.Some?;
  }

  /** Every state the round's invariants allow survives export and restore; only the turn
      of a finished round, which a memento does not carry, comes back as seat 0. */
  lemma RestoreMementoOf(s: RoundState)
    requires Restorable(s)
    ensures Restore(MementoOf(s)) == Success(if s.finished then s.(currentPlayer := 0) else s)
  {
    var m := MementoOf(s);
    MementoOfValidates(s);
    ParseColorName(s.currentColor.value);
    DirectionRoundTrip(s.direction);
    ReversedTwice(s.discardPile);
  }

  /** The same round trip stated for every state, for use inside expressions. */
  lemma RestoreMementoOfAny(s: RoundState)
    ensures Restorable(s) ==> Restore(MementoOf(s)) == Success(if s.finished then s.(currentPlayer := 0) else s)
  {
    if Restorable(s) {
      RestoreMementoOf(s);
    }
  }
}
