/**
 * One round (src/model/round.ts): seats and turn order, the legality of a play, drawing
 * with the discard pile reshuffled into the draw pile, the Uno call windows, scoring at
 * round end, and export to a memento.
 */
module Round {
  import opened Common
  import opened Deck
  import opened Piles
  import opened RoundMemento

  const MinPlayers: nat := 2
  const MaxPlayers: nat := 10
  const DefaultCardsPerPlayer: int := 7
  /** How many times the opening card may be redrawn because it was wild. */
  const MaxRedraws: nat := 108

  /** The last action of `player` after which a Uno call is open (or was made early). */
  datatype UnoWindow = UnoWindow(player: nat, actionId: nat)

  datatype RoundError =
    | TooFewPlayers
    | TooManyPlayers
    | RedrawLimitReached
    | PlayerOutOfBounds
    | AccusedOutOfBounds
    | AccuserOutOfBounds
    | IllegalPlay
    | WildNeedsColor
    | ColorOnNonWild
    | CannotDraw
    | RoundEnded

  function Min(a: int, b: int): int {
    if a <= b then a else b
  }

  // ---------------------------------------------------------------------------
  // Seats and turns

  /** The seat after `current` in `direction` around a table of `n` (`nextPlayer`). */
  function NextSeat(current: nat, direction: int, n: nat): (r: nat)
    requires current < n && (direction == 1 || direction == -1)
    ensures r < n
    ensures direction == 1 ==> r == if current == n - 1 then 0 else current + 1
    ensures direction == -1 ==> r == if current == 0 then n - 1 else current - 1
  {
    var seat := if direction == 1 then (if current == n - 1 then 0 else current + 1)
      else if current == 0 then n - 1 else current - 1;
    var laps := if direction == 1 && current == n - 1 then 2 else if direction == -1 && current == 0 then 0 else 1;
    ModUnique(current + direction + n, n, laps, seat);
    (current + direction + n) % n
  }

  /** Going back the other way returns to the same seat. */
  lemma NextSeatBack(current: nat, direction: int, n: nat)
    requires current < n && (direction == 1 || direction == -1)
    ensures NextSeat(NextSeat(current, direction, n), -direction, n) == current
  {
  }

  /** How many cards the next player must draw when `card` is played. */
  function Penalty(card: Card): (k: nat)
    ensures k > 0 <==> card.Draw? || card.WildDraw?
  {
    match card
    case Draw(_) => 2
    case WildDraw => 4
    case _ => 0
  }

  /** The seat in turn and the direction after `card` is played from `current`: its effect
      (`handleSpecialCard`) followed by the turn passing on (`nextPlayer`). */
  function TurnAfter(card: Card, current: nat, direction: int, n: nat): (r: (nat, int))
    requires current < n && (direction == 1 || direction == -1)
    ensures r.0 < n && (r.1 == 1 || r.1 == -1)
  {
    match card
    case Reverse(_) =>
      var d := -direction;
      if n == 2 then (NextSeat(NextSeat(current, d, n), d, n), d) else (NextSeat(current, d, n), d)
    case Skip(_) => (NextSeat(NextSeat(current, direction, n), direction, n), direction)
    case Draw(_) => (NextSeat(NextSeat(current, direction, n), direction, n), direction)
    case WildDraw => (NextSeat(NextSeat(current, direction, n), direction, n), direction)
    case _ => (NextSeat(current, direction, n), direction)
  }

  /** Only a reverse turns the table around. */
  lemma TurnAfterDirection(card: Card, current: nat, direction: int, n: nat)
    requires current < n && (direction == 1 || direction == -1)
    ensures TurnAfter(card, current, direction, n).1 == if card.Reverse? then -direction else direction
  {
  }

  /** Between two players every action card and a wild draw give the player another turn. */
  lemma TwoPlayerActionsRepeat(card: Card, current: nat, direction: int)
    requires current < 2 && (direction == 1 || direction == -1)
    requires card.IsAction() || card.WildDraw?
    ensures TurnAfter(card, current, direction, 2).0 == current
  {
  }

  /** With three or more players the turn always moves on: a skip, a draw or a wild draw
      passes over the next seat, a reverse hands the turn to the previous seat, and any other
      card to the next seat. */
  lemma TurnAfterSeats(card: Card, current: nat, direction: int, n: nat)
    requires 3 <= n && current < n && (direction == 1 || direction == -1)
    ensures var r := TurnAfter(card, current, direction, n).0;
      && r != current
      && (card.Skip? || card.Draw? || card.WildDraw? ==> r != NextSeat(current, direction, n))
      && (card.Reverse? ==> r == NextSeat(current, -direction, n))
      && (card.Numbered? || card.Wild? ==> r == NextSeat(current, direction, n))
  {
    var next := NextSeat(current, direction, n);
    var after := NextSeat(next, direction, n);
    assert after != current && after != next;
  }

  /** The seat in turn right after `handleSpecialCard(card)`, before the turn passes on. */
  function EffectSeat(card: Card, current: nat, direction: int, n: nat): (r: nat)
    requires current < n && (direction == 1 || direction == -1)
    ensures r < n
  {
    match card
    case Skip(_) => NextSeat(current, direction, n)
    case Draw(_) => NextSeat(current, direction, n)
    case WildDraw => NextSeat(current, direction, n)
    case Reverse(_) => if n == 2 then NextSeat(current, -direction, n) else current
    case _ => current
  }

  function EffectDirection(card: Card, direction: int): int {
    if card.Reverse? then -direction else direction
  }

  /** A play's turn change is the card's effect followed by one `nextPlayer`, and a penalty is
      drawn by the seat after the player. */
  lemma TurnAfterSteps(card: Card, current: nat, direction: int, n: nat)
    requires current < n && (direction == 1 || direction == -1)
    ensures var d := EffectDirection(card, direction);
      TurnAfter(card, current, direction, n) == (NextSeat(EffectSeat(card, current, direction, n), d, n), d)
    ensures Penalty(card) > 0 ==> EffectSeat(card, current, direction, n) == NextSeat(current, direction, n)
  {
  }

  // ---------------------------------------------------------------------------
  // Uno calls

  /** The open call window after `startAction(actor)`: any other player's window lapses. */
  function AfterStartAction(pending: Option<UnoWindow>, actor: nat): Option<UnoWindow> {
    if pending.Some? && actor != pending.value.player then None else pending
  }

  /** The windows (open, early) after `sayUno(p)` at action number `counter`: a call in
      one's own open window closes it; otherwise a call by the player in turn counts for
      their next action. */
  function AfterSayUno(pending: Option<UnoWindow>, pre: Option<UnoWindow>, counter: nat, p: nat, current: nat): (Option<UnoWindow>, Option<UnoWindow>) {
    if pending == Some(UnoWindow(p, counter)) then (None, pre)
    else if p == current then (pending, Some(UnoWindow(p, counter + 1)))
    else (pending, pre)
  }

  /** The windows after player `current`'s play numbered `counter` left `left` cards in
      the hand: down to one card, an early call for this very play is used up, and without
      one a window opens on the player. */
  function AfterPlayWindows(pending: Option<UnoWindow>, pre: Option<UnoWindow>, counter: nat, current: nat, left: nat): (Option<UnoWindow>, Option<UnoWindow>) {
    if left != 1 then (pending, pre)
    else if pre == Some(UnoWindow(current, counter)) then (pending, None)
    else (Some(UnoWindow(current, counter)), pre)
  }

  /** Whether an accusation against `accused`, holding `hand`, succeeds. */
  predicate CanCatch(pending: Option<UnoWindow>, accused: nat, hand: seq<Card>) {
    pending.Some? && pending.value.player == accused && |hand| == 1
  }

  /** Calling Uno during one's turn and then playing down to one card opens no window: the
      early call is used up and the open window is whatever the play's own start left. */
  lemma UnoCalledBeforePlay(pending: Option<UnoWindow>, pre: Option<UnoWindow>, counter: nat, current: nat)
    requires pending != Some(UnoWindow(current, counter))
    ensures var (pending1, pre1) := AfterSayUno(pending, pre, counter, current, current);
      var pending2 := AfterStartAction(pending1, current);
      AfterPlayWindows(pending2, pre1, counter + 1, current, 1) == (pending2, None)
  {
  }

  /** Playing down to one card without an early call opens a window on the player, in which
      any accusation against them succeeds while they hold that one card. */
  lemma UnoForgottenIsCaught(pending: Option<UnoWindow>, pre: Option<UnoWindow>, counter: nat, current: nat, hand: seq<Card>)
    requires pre != Some(UnoWindow(current, counter)) && |hand| == 1
    ensures var w := AfterPlayWindows(pending, pre, counter, current, 1).0;
      w == Some(UnoWindow(current, counter)) && CanCatch(w, current, hand)
  {
  }

  /** An open window closes when another player acts, and when its player calls Uno before
      any further action. */
  lemma UnoWindowCloses(w: UnoWindow, pre: Option<UnoWindow>, actor: nat, current: nat)
    ensures actor != w.player ==> AfterStartAction(Some(w), actor) == None
    ensures actor == w.player ==> AfterStartAction(Some(w), actor) == Some(w)
    ensures AfterSayUno(Some(w), pre, w.actionId, w.player, current) == (None, pre)
  {
  }

  // ---------------------------------------------------------------------------
  // The opening card

  /** The draw pile and the opening card after the redraws; no card when the pile ran out. */
  datatype Opened = Opened(drawPile: seq<Card>, top: Option<Card>)

  /** One redraw: the wild front card goes back under the pile, which is then shuffled. */
  function RedrawStep(cards: seq<Card>, shuffler: Shuffler): seq<Card>
    requires cards != []
  {
    shuffler(cards[1..] + [cards[0]])
  }

  /** The opening `do ... while` with at most `budget` redraws: the first card that is not
      wild opens the discard pile. */
  function OpenFrom(cards: seq<Card>, shuffler: Shuffler, budget: nat): (r: Result<Opened, RoundError>)
    ensures r.Success? && r.value.top.Some? ==> !r.value.top.value.IsWild()
    ensures r.Failure? ==> r.error == RedrawLimitReached
    decreases budget
  {
    if cards == [] then Success(Opened([], None))
    else if !cards[0].IsWild() then Success(Opened(cards[1..], Some(cards[0])))
    else if budget == 0 then Failure(RedrawLimitReached)
    else OpenFrom(RedrawStep(cards, shuffler), shuffler, budget - 1)
  }

  /** A redraw keeps the cards of the pile. */
  lemma RedrawStepCards(cards: seq<Card>, shuffler: Shuffler)
    requires cards != [] && Permutes(shuffler)
    ensures multiset(RedrawStep(cards, shuffler)) == multiset(cards)
    ensures |RedrawStep(cards, shuffler)| == |cards|
  {
    assert cards == [cards[0]] + cards[1..];
    assert multiset(cards[1..] + [cards[0]]) == multiset(cards);
    assert |multiset(RedrawStep(cards, shuffler))| == |multiset(cards)|;
  }

  /** The opening card and the draw pile together are the cards of the pile. */
  lemma {:induction false} OpenFromFacts(cards: seq<Card>, shuffler: Shuffler, budget: nat)
    requires Permutes(shuffler)
    ensures var r := OpenFrom(cards, shuffler, budget);
      r.Success? ==>
        && (r.value.top.None? <==> cards == [])
        && multiset(r.value.drawPile) + (if r.value.top.Some? then multiset{r.value.top.value} else multiset{}) == multiset(cards)
    decreases budget
  {
    if cards != [] {
      if !cards[0].IsWild() {
        assert cards == [cards[0]] + cards[1..];
      } else if budget > 0 {
        RedrawStepCards(cards, shuffler);
        var next := RedrawStep(cards, shuffler);
        OpenFromFacts(next, shuffler, budget - 1);
        assert next != [];
      }
    }
  }

  predicate AllWild(cards: seq<Card>) {
    forall i :: 0 <= i < |cards| ==> cards[i].IsWild()
  }

  /** A redraw of a pile of wild cards is again a pile of wild cards of the same size. */
  lemma RedrawAllWild(cards: seq<Card>, shuffler: Shuffler)
    requires cards != [] && AllWild(cards) && Permutes(shuffler)
    ensures var next := RedrawStep(cards, shuffler);
      next != [] && AllWild(next)
  {
    var next := RedrawStep(cards, shuffler);
    RedrawStepCards(cards, shuffler);
    forall i | 0 <= i < |next|
      ensures next[i].IsWild()
    {
      assert next[i] in multiset(cards);
    }
  }

  /** When only wild cards are left to open with, the bounded opening gives up. */
  lemma {:induction false} AllWildOpenFails(cards: seq<Card>, shuffler: Shuffler, budget: nat)
    requires cards != [] && AllWild(cards) && Permutes(shuffler)
    ensures OpenFrom(cards, shuffler, budget) == Failure(RedrawLimitReached)
    decreases budget
  {
    assert cards[0].IsWild();
    if budget > 0 {
      RedrawAllWild(cards, shuffler);
      AllWildOpenFails(RedrawStep(cards, shuffler), shuffler, budget - 1);
    }
  }

  /** The opening `do ... while` as written, unbounded, after `k` rounds of its body. */
  function Redrawn(cards: seq<Card>, shuffler: Shuffler, k: nat): seq<Card>
    decreases k
  {
    if k == 0 || cards == [] || !cards[0].IsWild() then cards
    else Redrawn(RedrawStep(cards, shuffler), shuffler, k - 1)
  }

  /** As written, the opening loop never ends on a pile of wild cards: after any number of
      rounds the front card is still wild, so the loop condition still holds. */
  lemma {:induction false} RedrawNeverStops(cards: seq<Card>, shuffler: Shuffler, k: nat)
    requires cards != [] && AllWild(cards) && Permutes(shuffler)
    ensures var pile := Redrawn(cards, shuffler, k);
      pile != [] && pile[0].IsWild()
    decreases k
  {
    if k > 0 {
      RedrawAllWild(cards, shuffler);
      RedrawNeverStops(RedrawStep(cards, shuffler), shuffler, k - 1);
    }
  }

  /** Two players dealt fifty cards each from an unshuffled deck leave exactly the eight wild
      cards to open with. */
  lemma FiftyEachLeavesWilds()
    ensures var rest := Undealt(CanonicalDeck(), 50, 2);
      |rest| == 8 && AllWild(rest)
  {
    CanonicalDeckLayout();
    var deck := CanonicalDeck();
    assert Offset(2, 50) == 100;
    var rest := Undealt(deck, 50, 2);
    assert rest == deck[100..];
    forall i | 0 <= i < |rest|
      ensures rest[i].IsWild()
    {
      assert rest[i] == CanonicalCard(100 + i);
    }
  }

  /** The seat in turn and the direction after the opening card's effect (the end of the
      source constructor): a reverse turns the table round and starts at the dealer's other
      side, a skip passes over the dealer's left, and a draw makes the dealer's left draw two
      and passes over them. */
  function OpeningTurn(top: Card, dealer: nat, n: nat): (r: (nat, int))
    requires dealer < n
    ensures r.0 < n && (r.1 == 1 || r.1 == -1)
  {
    if top.Reverse? then ((dealer - 1 + n) % n, -1)
    else if top.Skip? || top.Draw? then ((dealer + 2) % n, 1)
    else ((dealer + 1) % n, 1)
  }

  /** The seat after the dealer, written as the source writes it. */
  lemma DealerLeft(d: nat, n: nat)
    requires d < n
    ensures (d + 1) % n == NextSeat(d, 1, n)
  {
    if d == n - 1 {
      ModUnique(d + 1, n, 1, 0);
    } else {
      ModUnique(d + 1, n, 0, d + 1);
    }
    ModUnique(d + 1 + n, n, if d == n - 1 then 2 else 1, NextSeat(d, 1, n));
  }

  /** The opening card acts as if the dealer had played it, except that an opening reverse
      between two players hands the turn to the other player instead of back to the dealer. */
  lemma OpeningAsDealerPlay(top: Card, dealer: nat, n: nat)
    requires dealer < n && n >= 2 && !top.IsWild()
    ensures !(top.Reverse? && n == 2) ==> OpeningTurn(top, dealer, n) == TurnAfter(top, dealer, 1, n)
    ensures top.Reverse? && n == 2 ==> OpeningTurn(top, dealer, n) == (NextSeat(dealer, 1, n), -1)
  {
    DealerLeft(dealer, n);
    DealerLeftTwice(dealer, n);
    DealerRight(dealer, n);
  }

  /** Two seats past the dealer, written as the source writes it. */
  lemma DealerLeftTwice(d: nat, n: nat)
    requires d < n && n >= 2
    ensures (d + 2) % n == NextSeat(NextSeat(d, 1, n), 1, n)
  {
    ModUnique(d + 2, n, if d + 2 < n then 0 else 1, NextSeat(NextSeat(d, 1, n), 1, n));
  }

  /** The seat before the dealer, written as the source writes it. */
  lemma DealerRight(d: nat, n: nat)
    requires d < n
    ensures (d - 1 + n) % n == NextSeat(d, -1, n)
  {
    ModUnique(d - 1 + n, n, if d == 0 then 0 else 1, NextSeat(d, -1, n));
  }

  // ---------------------------------------------------------------------------
  // The legality of a play

  /** `cardMatchesColor`: a coloured card in the colour in force. */
  predicate MatchesColor(c: Card, color: Option<Color>) {
    color.Some? && !c.IsWild() && c.color == color.value
  }

  /** Whether card `i` of `hand` may go on `top` while `color` is in force (`canPlay`). */
  predicate Legal(hand: seq<Card>, i: int, top: Option<Card>, color: Option<Color>) {
    if i < 0 || i >= |hand| || top.None? then false
    else
      var card := hand[i];
      var t := top.value;
      if card.Wild? then true
      else if card.WildDraw? then !exists j :: 0 <= j < |hand| && j != i && MatchesColor(hand[j], color)
      else if color == Some(card.color) then true
      else if card.Numbered? && t.Numbered? then card.number == t.number || card.color == t.color
      else if card.IsAction() then SameKind(card, t) || (!t.IsWild() && card.color == t.color)
      else false
  }

  predicate SameKind(a: Card, b: Card) {
    (a.Skip? && b.Skip?) || (a.Reverse? && b.Reverse?) || (a.Draw? && b.Draw?)
  }

  /** Nothing is playable on an empty discard pile or from outside the hand; a wild is always
      playable otherwise, and a wild draw exactly when no other card of the hand has the
      colour in force. */
  lemma LegalWilds(hand: seq<Card>, i: int, top: Option<Card>, color: Option<Color>)
    ensures Legal(hand, i, top, color) ==> 0 <= i < |hand| && top.Some?
    ensures 0 <= i < |hand| && top.Some? && hand[i].Wild? ==> Legal(hand, i, top, color)
    ensures 0 <= i < |hand| && top.Some? && hand[i].WildDraw? ==>
      (Legal(hand, i, top, color) <==>
        forall j :: 0 <= j < |hand| && j != i ==> !MatchesColor(hand[j], color))
  {
  }

  /** While the colour in force is the one the discard pile promises (the top's own colour,
      or the colour named for a wild top), a coloured card is playable exactly when it has
      that colour, or is a number on the same number, or an action on the same action. */
  lemma LegalColored(hand: seq<Card>, i: int, t: Card, color: Option<Color>)
    requires 0 <= i < |hand| && !hand[i].IsWild()
    requires !t.IsWild() ==> color == Some(t.color)
    requires t.IsWild() ==> color.Some?
    ensures var card := hand[i];
      Legal(hand, i, Some(t), color) <==>
        || Some(card.color) == color
        || (card.Numbered? && t.Numbered? && card.number == t.number)
        || SameKind(card, t)
  {
  }

  // ---------------------------------------------------------------------------
  // Hands and the cards on the table

  /** A hand with card `i` spliced out. */
  function RemoveAt(hand: seq<Card>, i: nat): (r: seq<Card>)
    requires i < |hand|
    ensures |r| == |hand| - 1
    ensures forall j :: 0 <= j < i ==> r[j] == hand[j]
    ensures forall j :: i <= j < |r| ==> r[j] == hand[j + 1]
    ensures multiset(r) + multiset{hand[i]} == multiset(hand)
  {
    assert hand == hand[..i] + [hand[i]] + hand[i + 1..];
    hand[..i] + hand[i + 1..]
  }

  /** The cards of all hands together. */
  function HandsCards(hs: seq<seq<Card>>): multiset<Card> {
    if hs == [] then multiset{} else HandsCards(hs[..|hs| - 1]) + multiset(hs[|hs| - 1])
  }

  /** Replacing one hand changes the cards of all hands by exactly that hand. */
  lemma {:induction false} HandsCardsUpdate(hs: seq<seq<Card>>, p: nat, h: seq<Card>)
    requires p < |hs|
    ensures HandsCards(hs[p := h]) + multiset(hs[p]) == HandsCards(hs) + multiset(h)
  {
    var last := |hs| - 1;
    var b := hs[p := h];
    if p == last {
      assert b[..last] == hs[..last];
      assert HandsCards(b) == HandsCards(hs[..last]) + multiset(h);
    } else {
      var a := hs[..last];
      assert b[..last] == a[p := h];
      assert a[p] == hs[p];
      HandsCardsUpdate(a, p, h);
      assert HandsCards(b) == HandsCards(a[p := h]) + multiset(hs[last]);
      assert HandsCards(hs) == HandsCards(a) + multiset(hs[last]);
      MultisetRegroup(HandsCards(a[p := h]), HandsCards(a), multiset(hs[last]), multiset(hs[p]), multiset(h));
    }
  }

  /** Adding cards to one hand adds exactly those cards to all hands. */
  lemma HandsCardsAppend(hs: seq<seq<Card>>, p: nat, extra: seq<Card>)
    requires p < |hs|
    ensures HandsCards(hs[p := hs[p] + extra]) == HandsCards(hs) + multiset(extra)
  {
    var h := hs[p] + extra;
    HandsCardsUpdate(hs, p, h);
    assert multiset(h) == multiset(hs[p]) + multiset(extra);
    var x, y := HandsCards(hs[p := h]), HandsCards(hs) + multiset(extra);
    var m := multiset(hs[p]);
    assert x + m == y + m;
    forall c
      ensures x[c] == y[c]
    {
      assert (x + m)[c] == (y + m)[c];
    }
    assert x == y;
  }

  lemma MultisetRegroup(x: multiset<Card>, y: multiset<Card>, l: multiset<Card>, a: multiset<Card>, b: multiset<Card>)
    requires x + a == y + b
    ensures x + l + a == y + l + b
  {
    assert x + l + a == (x + a) + l;
    assert y + l + b == (y + b) + l;
  }

  /** The cards a round holds: the hands, the draw pile and the discard pile (bottom first). */
  datatype Table = Table(hands: seq<seq<Card>>, drawPile: seq<Card>, discardPile: seq<Card>)

  function TableCards(t: Table): multiset<Card> {
    HandsCards(t.hands) + multiset(t.drawPile) + multiset(t.discardPile)
  }

  /** The draw pile and discard pile after `reshuffleDiscardPile`: with more than one card on
      the discard pile, all but its top are shuffled under the draw pile. */
  function Reshuffled(drawPile: seq<Card>, discardPile: seq<Card>, shuffler: Shuffler): (seq<Card>, seq<Card>) {
    if |discardPile| > 1 then
      (drawPile + shuffler(discardPile[..|discardPile| - 1]), [discardPile[|discardPile| - 1]])
    else (drawPile, discardPile)
  }

  /** A reshuffle loses no card and keeps the top of the discard pile. */
  lemma ReshuffledConserves(drawPile: seq<Card>, discardPile: seq<Card>, shuffler: Shuffler)
    requires Permutes(shuffler)
    ensures var (d, x) := Reshuffled(drawPile, discardPile, shuffler);
      && multiset(d) + multiset(x) == multiset(drawPile) + multiset(discardPile)
      && (discardPile != [] ==> x != [] && x[|x| - 1] == discardPile[|discardPile| - 1])
  {
    if |discardPile| > 1 {
      var n := |discardPile|;
      assert discardPile == discardPile[..n - 1] + [discardPile[n - 1]];
    }
  }

  /** Whether drawing `count` cards empties the draw pile and so reshuffles the discard pile. */
  predicate Reshuffles(count: nat, drawPile: seq<Card>, discardPile: seq<Card>) {
    count > |drawPile| && |discardPile| > 1
  }

  /** The cards a draw of `count` is dealt from, in order. */
  function Supply(count: nat, drawPile: seq<Card>, discardPile: seq<Card>, shuffler: Shuffler): seq<Card> {
    if count > |drawPile| then Reshuffled(drawPile, discardPile, shuffler).0 else drawPile
  }

  /** `drawCardsForPlayer(p, count)` on the table: player `p` receives the first `count` cards
      of the supply, or all of them if there are fewer. */
  function DrawOutcome(t: Table, p: nat, count: nat, shuffler: Shuffler): (r: Table)
    requires p < |t.hands|
    ensures |r.hands| == |t.hands|
    ensures forall q :: 0 <= q < |t.hands| && q != p ==> r.hands[q] == t.hands[q]
  {
    var s := Supply(count, t.drawPile, t.discardPile, shuffler);
    var k := Min(count, |s|);
    Table(
      t.hands[p := t.hands[p] + s[..k]],
      s[k..],
      if Reshuffles(count, t.drawPile, t.discardPile) then [t.discardPile[|t.discardPile| - 1]] else t.discardPile)
  }

  /** A draw moves cards into the hand and loses none, and the top of the discard pile stays
      where it is. */
  lemma DrawOutcomeConserves(t: Table, p: nat, count: nat, shuffler: Shuffler)
    requires p < |t.hands| && Permutes(shuffler)
    ensures var r := DrawOutcome(t, p, count, shuffler);
      && TableCards(r) == TableCards(t)
      && (t.discardPile != [] ==> r.discardPile != [] && r.discardPile[|r.discardPile| - 1] == t.discardPile[|t.discardPile| - 1])
  {
    var s := Supply(count, t.drawPile, t.discardPile, shuffler);
    var r := DrawOutcome(t, p, count, shuffler);
    SupplyConserves(count, t.drawPile, t.discardPile, shuffler);
    assert r.discardPile == if Reshuffles(count, t.drawPile, t.discardPile) then [t.discardPile[|t.discardPile| - 1]] else t.discardPile;
    DealtFromSupply(t, p, count, shuffler);
    var moved := multiset(s) + multiset(r.discardPile);
    assert TableCards(r) == HandsCards(t.hands) + moved;
  }

  /** The cards player `p` receives and the draw pile left behind make up the supply. */
  lemma DealtFromSupply(t: Table, p: nat, count: nat, shuffler: Shuffler)
    requires p < |t.hands|
    ensures var r := DrawOutcome(t, p, count, shuffler);
      HandsCards(r.hands) + multiset(r.drawPile) == HandsCards(t.hands) + multiset(Supply(count, t.drawPile, t.discardPile, shuffler))
  {
    var s := Supply(count, t.drawPile, t.discardPile, shuffler);
    var k := Min(count, |s|);
    assert s == s[..k] + s[k..];
    HandsCardsAppend(t.hands, p, s[..k]);
  }

  /** The supply of a draw and the discard pile left beside it hold the cards of both piles,
      and the top of the discard pile stays on top. */
  lemma SupplyConserves(count: nat, drawPile: seq<Card>, discardPile: seq<Card>, shuffler: Shuffler)
    requires Permutes(shuffler)
    ensures var s := Supply(count, drawPile, discardPile, shuffler);
      var rest := if Reshuffles(count, drawPile, discardPile) then [discardPile[|discardPile| - 1]] else discardPile;
      && multiset(s) + multiset(rest) == multiset(drawPile) + multiset(discardPile)
      && (discardPile != [] ==> rest != [] && rest[|rest| - 1] == discardPile[|discardPile| - 1])
  {
    ReshuffledConserves(drawPile, discardPile, shuffler);
  }

  /** The player receives exactly `count` cards unless the draw pile and the reshuffled
      discard pile together hold fewer. */
  lemma DrawOutcomeCount(t: Table, p: nat, count: nat, shuffler: Shuffler)
    requires p < |t.hands| && Permutes(shuffler)
    ensures var r := DrawOutcome(t, p, count, shuffler);
      var avail := |t.drawPile| + (if |t.discardPile| > 1 then |t.discardPile| - 1 else 0);
      |r.hands[p]| == |t.hands[p]| + (if count <= |t.drawPile| then count else Min(count, avail))
  {
    if count > |t.drawPile| && |t.discardPile| > 1 {
      var n := |t.discardPile|;
      assert |multiset(shuffler(t.discardPile[..n - 1]))| == |multiset(t.discardPile[..n - 1])|;
    }
  }

  /** One turn of `drawCardsForPlayer`'s loop: reshuffle if the draw pile is empty, then
      player `p` takes its front card if there is one. */
  function DrawStep(t: Table, p: nat, shuffler: Shuffler): (r: Table)
    requires p < |t.hands|
    ensures |r.hands| == |t.hands|
  {
    var (d, x) := if t.drawPile == [] then Reshuffled(t.drawPile, t.discardPile, shuffler) else (t.drawPile, t.discardPile);
    if d == [] then Table(t.hands, d, x) else Table(t.hands[p := t.hands[p] + [d[0]]], d[1..], x)
  }

  /** The table after `k` turns of that loop. */
  function DrawRepeated(t: Table, p: nat, k: nat, shuffler: Shuffler): (r: Table)
    requires p < |t.hands|
    ensures |r.hands| == |t.hands|
  {
    if k == 0 then t else DrawStep(DrawRepeated(t, p, k - 1, shuffler), p, shuffler)
  }

  /** Drawing card by card, reshuffling whenever the draw pile runs out, comes to the closed
      form `DrawOutcome`: at most one reshuffle ever changes anything, because afterwards the
      discard pile holds a single card. */
  lemma {:induction false} DrawRepeatedOutcome(t: Table, p: nat, k: nat, shuffler: Shuffler)
    requires p < |t.hands|
    ensures DrawRepeated(t, p, k, shuffler) == DrawOutcome(t, p, k, shuffler)
  {
    if k == 0 {
      assert t.hands[p] + [] == t.hands[p];
      assert t.hands[p := t.hands[p] + []] == t.hands;
      assert t.drawPile[0..] == t.drawPile;
    } else {
      DrawRepeatedOutcome(t, p, k - 1, shuffler);
      DrawOutcomeStep(t, p, k - 1, shuffler);
    }
  }

  /** One more turn of the loop extends the closed form by one card. */
  lemma DrawOutcomeStep(t: Table, p: nat, i: nat, shuffler: Shuffler)
    requires p < |t.hands|
    ensures DrawStep(DrawOutcome(t, p, i, shuffler), p, shuffler) == DrawOutcome(t, p, i + 1, shuffler)
  {
    if i < |t.drawPile| {
      DrawStepFromPile(t, p, i, shuffler);
    } else if |t.discardPile| <= 1 {
      DrawStepExhausted(t, p, i, shuffler);
    } else {
      DrawStepReshuffled(t, p, i, shuffler);
    }
  }

  /** While the draw pile lasts, the next card is its next one. */
  lemma DrawStepFromPile(t: Table, p: nat, i: nat, shuffler: Shuffler)
    requires p < |t.hands| && i < |t.drawPile|
    ensures DrawStep(DrawOutcome(t, p, i, shuffler), p, shuffler) == DrawOutcome(t, p, i + 1, shuffler)
  {
    var D, X, h := t.drawPile, t.discardPile, t.hands[p];
    var before := DrawOutcome(t, p, i, shuffler);
    var after := DrawOutcome(t, p, i + 1, shuffler);
    assert before == Table(t.hands[p := h + D[..i]], D[i..], X);
    assert D[..i + 1] == D[..i] + [D[i]];
    assert D[i..][1..] == D[i + 1..];
    assert after == Table(t.hands[p := h + D[..i + 1]], D[i + 1..], X);
    assert h + D[..i + 1] == (h + D[..i]) + [D[i]];
  }

  /** With the draw pile gone and nothing to reshuffle, a turn changes nothing. */
  lemma DrawStepExhausted(t: Table, p: nat, i: nat, shuffler: Shuffler)
    requires p < |t.hands| && i >= |t.drawPile| && |t.discardPile| <= 1
    ensures DrawStep(DrawOutcome(t, p, i, shuffler), p, shuffler) == DrawOutcome(t, p, i + 1, shuffler)
  {
    var D, X, h := t.drawPile, t.discardPile, t.hands[p];
    var before := DrawOutcome(t, p, i, shuffler);
    assert Supply(i, D, X, shuffler) == D && Supply(i + 1, D, X, shuffler) == D;
    assert D[..|D|] == D && D[|D|..] == [];
    assert before == Table(t.hands[p := h + D], [], X);
    assert DrawStep(before, p, shuffler) == before;
  }

  /** Past the end of the draw pile, a turn deals from the reshuffled supply; the pile the
      turn deals from is the rest of that supply, with the old top alone on the discard pile. */
  lemma DrawStepPending(t: Table, p: nat, i: nat, shuffler: Shuffler)
    requires p < |t.hands| && i >= |t.drawPile| && |t.discardPile| > 1
    ensures var X := t.discardPile;
      var sup := t.drawPile + shuffler(X[..|X| - 1]);
      var before := DrawOutcome(t, p, i, shuffler);
      && before.hands == t.hands[p := t.hands[p] + sup[..Min(i, |sup|)]]
      && (if before.drawPile == [] then Reshuffled(before.drawPile, before.discardPile, shuffler)
          else (before.drawPile, before.discardPile)) == (sup[Min(i, |sup|)..], [X[|X| - 1]])
  {
    var D, X, h := t.drawPile, t.discardPile, t.hands[p];
    var n := |X|;
    var moved := shuffler(X[..n - 1]);
    var sup := D + moved;
    var k1 := Min(i, |sup|);
    if i == |D| {
      assert k1 == |D| && sup[..k1] == D && sup[k1..] == moved;
      assert D[..|D|] == D && D[|D|..] == [];
      assert [] + moved == moved;
    } else {
      assert Supply(i, D, X, shuffler) == sup;
    }
  }

  lemma DrawStepReshuffled(t: Table, p: nat, i: nat, shuffler: Shuffler)
    requires p < |t.hands| && i >= |t.drawPile| && |t.discardPile| > 1
    ensures DrawStep(DrawOutcome(t, p, i, shuffler), p, shuffler) == DrawOutcome(t, p, i + 1, shuffler)
  {
    var D, X, h := t.drawPile, t.discardPile, t.hands[p];
    var n := |X|;
    var sup := D + shuffler(X[..n - 1]);
    var x := [X[n - 1]];
    var before := DrawOutcome(t, p, i, shuffler);
    var after := DrawOutcome(t, p, i + 1, shuffler);
    var k1 := Min(i, |sup|);
    var k2 := Min(i + 1, |sup|);
    DrawStepPending(t, p, i, shuffler);
    assert Supply(i + 1, D, X, shuffler) == sup;
    assert after == Table(t.hands[p := h + sup[..k2]], sup[k2..], x);
    if k1 < |sup| {
      assert sup[..k2] == sup[..k1] + [sup[k1]];
      assert h + sup[..k2] == (h + sup[..k1]) + [sup[k1]];
      assert sup[k1..][1..] == sup[k2..];
    }
  }

  /** The table after `card` was played and its penalty, if any, drawn by `victim`. */
  function AfterPenalty(t: Table, card: Card, victim: nat, shuffler: Shuffler): Table
    requires victim < |t.hands|
  {
    if Penalty(card) > 0 then DrawOutcome(t, victim, Penalty(card), shuffler) else t
  }

  /** A penalty only moves cards between the piles and a hand. */
  lemma AfterPenaltyConserves(t: Table, card: Card, victim: nat, shuffler: Shuffler)
    requires victim < |t.hands| && Permutes(shuffler)
    ensures TableCards(AfterPenalty(t, card, victim, shuffler)) == TableCards(t)
  {
    if Penalty(card) > 0 {
      DrawOutcomeConserves(t, victim, Penalty(card), shuffler);
    }
  }

  /** The table right after player `p` played card `i`: the card leaves the hand for the top
      of the discard pile. */
  function Played(t: Table, p: nat, i: nat): Table
    requires p < |t.hands| && i < |t.hands[p]|
  {
    Table(t.hands[p := RemoveAt(t.hands[p], i)], t.drawPile, t.discardPile + [t.hands[p][i]])
  }

  /** A play, penalty included, neither creates nor loses a card, and the played card ends
      up on top of the discard pile. */
  lemma PlayConserves(t: Table, p: nat, i: nat, victim: nat, shuffler: Shuffler)
    requires p < |t.hands| && i < |t.hands[p]| && victim < |t.hands| && Permutes(shuffler)
    ensures var r := AfterPenalty(Played(t, p, i), t.hands[p][i], victim, shuffler);
      && TableCards(r) == TableCards(t)
      && r.discardPile != [] && r.discardPile[|r.discardPile| - 1] == t.hands[p][i]
  {
    var card := t.hands[p][i];
    var u := Played(t, p, i);
    PlayedConserves(t, p, i);
    AfterPenaltyConserves(u, card, victim, shuffler);
    if Penalty(card) > 0 {
      DrawOutcomeConserves(u, victim, Penalty(card), shuffler);
    }
  }

  lemma PlayedConserves(t: Table, p: nat, i: nat)
    requires p < |t.hands| && i < |t.hands[p]|
    ensures TableCards(Played(t, p, i)) == TableCards(t)
  {
    var card := t.hands[p][i];
    var left := RemoveAt(t.hands[p], i);
    var u := Played(t, p, i);
    var H, c := HandsCards(t.hands), multiset{card};
    HandsCardsUpdate(t.hands, p, left);
    assert HandsCards(u.hands) + c == H by {
      assert (HandsCards(u.hands) + c) + multiset(left) == H + multiset(left);
      MultisetCancel(HandsCards(u.hands) + c, multiset(left), H);
    }
    assert multiset(u.discardPile) == multiset(t.discardPile) + c;
    MultisetMove(HandsCards(u.hands), c, H, multiset(t.drawPile), multiset(t.discardPile));
  }

  lemma MultisetCancel(a: multiset<Card>, l: multiset<Card>, b: multiset<Card>)
    requires a + l == b + l
    ensures a == b
  {
    assert forall e :: a[e] == (a + l)[e] - l[e];
  }

  lemma MultisetMove(h: multiset<Card>, c: multiset<Card>, h0: multiset<Card>, d: multiset<Card>, x: multiset<Card>)
    requires h + c == h0
    ensures h + d + (x + c) == h0 + d + x
  {
  }

  /** The table and the outcome of `play` as the source orders it: the card is spliced out
      of the hand before the colour is checked, so a refused colour leaves the card out of
      the hand and off the pile. */
  function PlayAsWritten(t: Table, p: nat, i: nat, color: Option<Color>): (Table, Result<Card, RoundError>)
    requires p < |t.hands| && i < |t.hands[p]|
  {
    var card := t.hands[p][i];
    var spliced := t.(hands := t.hands[p := RemoveAt(t.hands[p], i)]);
    if card.IsWild() && color.None? then (spliced, Failure(WildNeedsColor))
    else if !card.IsWild() && color.Some? then (spliced, Failure(ColorOnNonWild))
    else (Played(t, p, i), Success(card))
  }

  /** As written, every refused colour loses the card: the table holds one card fewer. */
  lemma PlayAsWrittenLosesCard(t: Table, p: nat, i: nat, color: Option<Color>)
    requires p < |t.hands| && i < |t.hands[p]|
    ensures var (after, r) := PlayAsWritten(t, p, i, color);
      r.Failure? ==> TableCards(after) + multiset{t.hands[p][i]} == TableCards(t)
  {
    var left := RemoveAt(t.hands[p], i);
    var H := HandsCards(t.hands[p := left]);
    HandsCardsUpdate(t.hands, p, left);
    assert H + multiset{t.hands[p][i]} == HandsCards(t.hands) by {
      assert (H + multiset{t.hands[p][i]}) + multiset(left) == HandsCards(t.hands) + multiset(left);
      MultisetCancel(H + multiset{t.hands[p][i]}, multiset(left), HandsCards(t.hands));
    }
    var (after, r) := PlayAsWritten(t, p, i, color);
    if r.Failure? {
      assert after.hands == t.hands[p := left] && after.drawPile == t.drawPile && after.discardPile == t.discardPile;
    }
  }

  /** A wild card played without a colour from the hand [Wild, red 1]: as written the play
      is refused and the wild card is gone. */
  lemma WildWithoutColorLost()
    ensures var t := Table([[Wild, Numbered(Red, 1)], [Numbered(Blue, 2)]], [], [Numbered(Red, 5)]);
      var (after, r) := PlayAsWritten(t, 0, 0, None);
      && r == Failure(WildNeedsColor)
      && after.hands[0] == [Numbered(Red, 1)]
      && Wild !in TableCards(after)
  {
    var t := Table([[Wild, Numbered(Red, 1)], [Numbered(Blue, 2)]], [], [Numbered(Red, 5)]);
    var (after, r) := PlayAsWritten(t, 0, 0, None);
    var hs := [[Numbered(Red, 1)], [Numbered(Blue, 2)]];
    assert RemoveAt(t.hands[0], 0) == [Numbered(Red, 1)];
    assert after.hands == t.hands[0 := [Numbered(Red, 1)]] == hs;
    assert hs[..1] == [[Numbered(Red, 1)]] && hs[..1][..0] == [];
    assert HandsCards(hs) == multiset{Numbered(Red, 1)} + multiset{Numbered(Blue, 2)};
  }

  /** The table after `draw()` by player `p`: the front card goes to the hand, and a draw
      pile left empty is refilled from the discard pile. */
  function AfterDraw(t: Table, p: nat, shuffler: Shuffler): Table
    requires p < |t.hands| && t.drawPile != []
  {
    var rest := t.drawPile[1..];
    var (d, x) := if rest == [] then Reshuffled(rest, t.discardPile, shuffler) else (rest, t.discardPile);
    Table(t.hands[p := t.hands[p] + [t.drawPile[0]]], d, x)
  }

  /** A draw moves one card from the draw pile to the hand and loses none, and the discard
      pile keeps its top. */
  lemma AfterDrawConserves(t: Table, p: nat, shuffler: Shuffler)
    requires p < |t.hands| && t.drawPile != [] && Permutes(shuffler)
    ensures var r := AfterDraw(t, p, shuffler);
      && TableCards(r) == TableCards(t)
      && r.hands[p] == t.hands[p] + [t.drawPile[0]]
      && (t.discardPile != [] ==> r.discardPile != [] && r.discardPile[|r.discardPile| - 1] == t.discardPile[|t.discardPile| - 1])
  {
    var rest := t.drawPile[1..];
    var r := AfterDraw(t, p, shuffler);
    var H, c := HandsCards(t.hands), multiset{t.drawPile[0]};
    HandsCardsAppend(t.hands, p, [t.drawPile[0]]);
    assert HandsCards(r.hands) == H + c;
    assert t.drawPile == [t.drawPile[0]] + rest;
    assert multiset(t.drawPile) == c + multiset(rest);
    ReshuffledConserves(rest, t.discardPile, shuffler);
    assert multiset(r.drawPile) + multiset(r.discardPile) == multiset(rest) + multiset(t.discardPile);
    MultisetShift(H, c, multiset(r.drawPile), multiset(r.discardPile), multiset(rest), multiset(t.discardPile));
  }

  lemma MultisetShift(h: multiset<Card>, c: multiset<Card>, d: multiset<Card>, x: multiset<Card>, d0: multiset<Card>, x0: multiset<Card>)
    requires d + x == d0 + x0
    ensures h + c + d + x == h + (c + d0) + x0
  {
    assert h + c + d + x == h + c + (d + x);
    assert h + (c + d0) + x0 == h + c + (d0 + x0);
  }

  // Settled tables: a round in play keeps every hand non-empty and a top card on the
  // discard pile, and a play that empties a hand is the one that ends the round.

  /** Drawing into a hand keeps a round in play settled. */
  lemma DrawOutcomeSettled(t: Table, p: nat, count: nat, shuffler: Shuffler)
    requires p < |t.hands| && Permutes(shuffler)
    ensures SettledRound(t.hands, t.discardPile, false) ==>
      var r := DrawOutcome(t, p, count, shuffler);
      SettledRound(r.hands, r.discardPile, false)
  {
    if SettledRound(t.hands, t.discardPile, false) {
      var r := DrawOutcome(t, p, count, shuffler);
      CountEmptyZero(t.hands);
      DrawOutcomeConserves(t, p, count, shuffler);
      DrawOutcomeCount(t, p, count, shuffler);
      CountEmptyZero(r.hands);
    }
  }

  /** So does `draw()`. */
  lemma AfterDrawSettled(t: Table, p: nat, shuffler: Shuffler)
    requires p < |t.hands| && t.drawPile != [] && Permutes(shuffler)
    ensures SettledRound(t.hands, t.discardPile, false) ==>
      var r := AfterDraw(t, p, shuffler);
      SettledRound(r.hands, r.discardPile, false)
  {
    if SettledRound(t.hands, t.discardPile, false) {
      var r := AfterDraw(t, p, shuffler);
      CountEmptyZero(t.hands);
      AfterDrawConserves(t, p, shuffler);
      CountEmptyZero(r.hands);
    }
  }

  /** A play by `p` on a settled table of a round in play, its penalty drawn by another
      seat, leaves the table settled, with the round ended exactly when `p`'s hand is
      empty. */
  lemma PlaySettled(t: Table, p: nat, i: nat, victim: nat, shuffler: Shuffler)
    requires p < |t.hands| && i < |t.hands[p]| && victim < |t.hands| && victim != p && Permutes(shuffler)
    ensures SettledRound(t.hands, t.discardPile, false) ==>
      var r := AfterPenalty(Played(t, p, i), t.hands[p][i], victim, shuffler);
      SettledRound(r.hands, r.discardPile, RemoveAt(t.hands[p], i) == [])
  {
    if SettledRound(t.hands, t.discardPile, false) {
      var card := t.hands[p][i];
      var u := Played(t, p, i);
      var r := AfterPenalty(u, card, victim, shuffler);
      CountEmptyZero(t.hands);
      PlayConserves(t, p, i, victim, shuffler);
      if Penalty(card) > 0 {
        DrawOutcomeCount(u, victim, Penalty(card), shuffler);
      }
      assert r.hands[p] == RemoveAt(t.hands[p], i);
      CountEmptyAllBut(r.hands, p);
    }
  }

  /** The cards a hand receives when dealt `len` cards from position `from` of `deck`. */
  function Block(deck: seq<Card>, from: nat, len: nat): seq<Card> {
    deck[Min(from, |deck|)..Min(from + len, |deck|)]
  }

  /** Where seat `q`'s block starts when every seat receives `c` cards. */
  function Offset(q: nat, c: nat): nat {
    if q == 0 then 0 else Offset(q - 1, c) + c
  }

  lemma {:induction false} OffsetIsProduct(q: nat, c: nat)
    ensures Offset(q, c) == q * c
  {
    if q > 0 {
      OffsetIsProduct(q - 1, c);
      assert (q - 1) * c + c == q * c;
    }
  }

  /** Taking the card at `pos` moves it from the rest of the deck to the end of the block. */
  lemma SliceStep(s: seq<Card>, start: nat, pos: nat)
    requires start <= pos < |s|
    ensures s[start..pos] + [s[pos]] == s[start..pos + 1]
    ensures s[pos..] == [s[pos]] + s[pos + 1..]
  {
  }

  lemma BlockOfRest(deck: seq<Card>, from: nat, len: nat)
    ensures var rest := deck[Min(from, |deck|)..];
      var k := Min(len, |rest|);
      Block(deck, from, len) == rest[..k] && deck[Min(from + len, |deck|)..] == rest[k..]
  {
  }

  lemma SliceSplit(s: seq<Card>, start: nat, pos: nat)
    requires start <= pos <= |s|
    ensures multiset(s[start..]) == multiset(s[start..pos]) + multiset(s[pos..])
  {
    assert s[start..] == s[start..pos] + s[pos..];
  }

  /** The hands of seats `0 .. p - 1` once each was dealt its block of `c` cards. */
  function Dealt(deck: seq<Card>, c: nat, p: nat): (r: seq<seq<Card>>)
    ensures |r| == p
  {
    if p == 0 then [] else Dealt(deck, c, p - 1) + [Block(deck, Offset(p - 1, c), c)]
  }

  lemma {:induction false} DealtAt(deck: seq<Card>, c: nat, p: nat, q: nat)
    requires q < p
    ensures Dealt(deck, c, p)[q] == Block(deck, Offset(q, c), c)
  {
    if q < p - 1 {
      DealtAt(deck, c, p - 1, q);
    }
  }

  /** What is left of `deck` once `p` seats were dealt `c` cards each. */
  function Undealt(deck: seq<Card>, c: nat, p: nat): seq<Card> {
    deck[Min(Offset(p, c), |deck|)..]
  }

  /** Block dealing from seat 0: seat `q` receives cards `q * c .. (q + 1) * c - 1` of the
      deck (as many of them as it holds), and the rest of the deck, from `p * c` on, stays in
      the draw pile. */
  lemma DealtBlocks(deck: seq<Card>, c: nat, p: nat)
    ensures forall q :: 0 <= q < p ==> Dealt(deck, c, p)[q] == Block(deck, q * c, c)
    ensures Undealt(deck, c, p) == deck[Min(p * c, |deck|)..]
  {
    forall q | 0 <= q < p
      ensures Dealt(deck, c, p)[q] == Block(deck, q * c, c)
    {
      DealtBlockAt(deck, c, p, q);
    }
    OffsetIsProduct(p, c);
  }

  lemma DealtBlockAt(deck: seq<Card>, c: nat, p: nat, q: nat)
    requires q < p
    ensures Dealt(deck, c, p)[q] == Block(deck, q * c, c)
  {
    DealtAt(deck, c, p, q);
    OffsetIsProduct(q, c);
  }

  /** Dealing loses no card: the hands and the rest of the deck are the deck. */
  lemma {:induction false} DealtConserves(deck: seq<Card>, c: nat, p: nat)
    ensures HandsCards(Dealt(deck, c, p)) + multiset(Undealt(deck, c, p)) == multiset(deck)
  {
    if p == 0 {
      assert deck[0..] == deck;
    } else {
      DealtConserves(deck, c, p - 1);
      var block := DealtStep(deck, c, p);
      assert multiset(Undealt(deck, c, p - 1)) == multiset(block) + multiset(Undealt(deck, c, p));
    }
  }

  /** Seat `p - 1`'s block is the front of what the earlier seats left. */
  lemma DealtStep(deck: seq<Card>, c: nat, p: nat) returns (block: seq<Card>)
    requires p > 0
    ensures HandsCards(Dealt(deck, c, p)) == HandsCards(Dealt(deck, c, p - 1)) + multiset(block)
    ensures Undealt(deck, c, p - 1) == block + Undealt(deck, c, p)
  {
    var prev := Dealt(deck, c, p - 1);
    var o := Offset(p - 1, c);
    assert Offset(p, c) == o + c;
    var a, b := Min(o, |deck|), Min(o + c, |deck|);
    block := deck[a..b];
    assert Dealt(deck, c, p) == prev + [block];
    assert (prev + [block])[..p - 1] == prev;
    assert deck[a..] == deck[a..b] + deck[b..];
  }

  lemma {:induction false} HandsCardsNone(hs: seq<seq<Card>>)
    requires forall q :: 0 <= q < |hs| ==> hs[q] == []
    ensures HandsCards(hs) == multiset{}
  {
    if hs != [] {
      HandsCardsNone(hs[..|hs| - 1]);
    }
  }

  /** The constructor's `((dealer % n) + n) % n` with JavaScript's remainder: the seat
      `dealer` stands for, counting round the table in either direction. */
  function NormalizedDealer(dealer: int, n: nat): (d: nat)
    requires n > 0
    ensures d < n && d == dealer % n
  {
    NormalizedDealerMod(dealer, n);
    JsRem(JsRem(dealer, n) + n, n)
  }

  lemma NormalizedDealerMod(dealer: int, n: nat)
    requires n > 0
    ensures JsRem(JsRem(dealer, n) + n, n) == dealer % n
  {
    JsRemShift(dealer, n);
    var r := JsRem(dealer, n);
    if r >= 0 {
      ModUnique(r + n, n, 1, r);
    } else {
      ModUnique(r + n, n, 0, r + n);
    }
  }

  /** The source constructor's dealing: a fresh initial deck handed to the shuffler, then
      `c` cards to each of `n` seats in turn from the front of it. */
  method DealInitialHands(shuffler: Shuffler, c: nat, n: nat) returns (deck: DeckImpl, hands: seq<seq<Card>>)
    requires Permutes(shuffler)
    ensures fresh(deck)
    ensures hands == Dealt(shuffler(CanonicalDeck()), c, n)
    ensures deck.cards == Undealt(shuffler(CanonicalDeck()), c, n)
  {
    var initial := CreateInitialDeck();
    var cards := shuffler(initial.cards);
    deck := new DeckImpl(cards);
    hands := DealHands(deck, c, n);
  }

  /** The opening deal loses and invents no card: hands and draw pile together are the
      108 cards of a full deck. */
  lemma InitialDealConserves(shuffler: Shuffler, c: nat, n: nat)
    requires Permutes(shuffler)
    ensures var deck := shuffler(CanonicalDeck());
      HandsCards(Dealt(deck, c, n)) + multiset(Undealt(deck, c, n)) == multiset(CanonicalDeck())
  {
    DealtConserves(shuffler(CanonicalDeck()), c, n);
  }

  /** Deals `c` cards from the front of `deck` to each of `n` seats in turn, starting at
      seat 0. */
  method DealHands(deck: DeckImpl, c: nat, n: nat) returns (hands: seq<seq<Card>>)
    modifies deck
    ensures hands == Dealt(old(deck.cards), c, n)
    ensures deck.cards == Undealt(old(deck.cards), c, n)
  {
    ghost var cards := deck.cards;
    hands := [];
    ghost var base: nat := 0;
    for p := 0 to n
      invariant base == Offset(p, c)
      invariant hands == Dealt(cards, c, p)
      invariant deck.cards == Undealt(cards, c, p)
    {
      var hand := DealCards(deck, c);
      BlockOfRest(cards, base, c);
      assert Dealt(cards, c, p + 1) == hands + [hand];
      hands := hands + [hand];
      base := base + c;
    }
  }

  /** Deals up to `c` cards from the front of `deck`. */
  method DealCards(deck: DeckImpl, c: nat) returns (hand: seq<Card>)
    modifies deck
    ensures var k := Min(c, |old(deck.cards)|);
      hand == old(deck.cards)[..k] && deck.cards == old(deck.cards)[k..]
  {
    ghost var cards := deck.cards;
    hand := [];
    for i := 0 to c
      invariant hand == cards[..Min(i, |cards|)]
      invariant deck.cards == cards[Min(i, |cards|)..]
    {
      var card := deck.Deal();
      if card.Some? {
        SliceStep(cards, 0, Min(i, |cards|));
        hand := hand + [card.value];
      }
    }
  }

  /** A discard pile's cards rebuilt from its records: all but the top, and the top. */
  method SplitPile(pile: DiscardPileImpl) returns (moved: seq<Card>, top: Card)
    requires |pile.cards| > 1
    ensures moved == pile.cards[..|pile.cards| - 1] && top == pile.cards[|pile.cards| - 1]
  {
    var records := pile.ToMemento();
    var k := |records| - 1;
    forall i | 0 <= i <= k
      ensures CardShaped(records[i]) && CreateCardFromMemento(records[i]) == pile.cards[i]
    {
      CreateCardRoundTrip(pile.cards[i]);
    }
    moved := CreateCards(records[..k]);
    top := CreateCardFromMemento(records[k]);
    assert forall i :: 0 <= i < k ==> moved[i] == pile.cards[..k][i];
  }

  /** Adds `cards` at the bottom of `deck`, one at a time. */
  method AddAll(deck: DeckImpl, cards: seq<Card>)
    modifies deck
    ensures deck.cards == old(deck.cards) + cards
  {
    ghost var cards0 := deck.cards;
    for j := 0 to |cards|
      invariant deck.cards == cards0 + cards[..j]
    {
      assert cards[..j + 1] == cards[..j] + [cards[j]];
      deck.Add(cards[j]);
    }
    assert cards[..|cards|] == cards;
  }

  /** The fresh discard pile that holds only the old top after a reshuffle: a coloured top
      names its own colour and a wild top keeps the colour that was in force. */
  method RestartPile(top: Card, prevColor: Option<Color>) returns (pile: DiscardPileImpl)
    ensures fresh(pile) && pile.cards == [top]
    ensures pile.currentColor == if top.IsWild() then prevColor else Some(top.color)
  {
    pile := new DiscardPileImpl();
    if prevColor.Some? && !top.IsWild() {
      pile.Add(top, None);
    } else if prevColor.Some? {
      pile.Add(top, prevColor);
    } else {
      pile.Add(top, None);
    }
  }

  function Pile(top: Option<Card>, rest: seq<Card>): seq<Card> {
    if top.Some? then [top.value] + rest else rest
  }

  /** The opening `do ... while`, with at most `MaxRedraws` redraws: deals from `deck` until
      the card dealt is not wild, putting each wild card back under the pile and shuffling
      the pile into a new deck. `ok` is false when the redraws ran out. */
  method DrawOpeningCard(deck: DeckImpl, shuffler: Shuffler) returns (ok: bool, pile: DeckImpl, top: Option<Card>)
    modifies deck
    ensures var o := OpenFrom(old(deck.cards), shuffler, MaxRedraws);
      && (ok <==> o.Success?)
      && (ok ==> o.value == Opened(pile.cards, top))
    ensures pile == deck || fresh(pile)
  {
    pile := deck;
    ghost var cards0 := deck.cards;
    var redraws: nat := 0;
    top := pile.Deal();
    while top.Some? && top.value.IsWild()
      invariant redraws <= MaxRedraws
      invariant top.None? ==> pile.cards == []
      invariant OpenFrom(cards0, shuffler, MaxRedraws) == OpenFrom(Pile(top, pile.cards), shuffler, MaxRedraws - redraws)
      invariant pile == deck || fresh(pile)
      decreases MaxRedraws - redraws
    {
      if redraws == MaxRedraws {
        return false, pile, top;
      }
      pile, top := Redraw(pile, top.value, shuffler);
      redraws := redraws + 1;
    }
    assert Pile(top, pile.cards) != [] ==> Pile(top, pile.cards)[1..] == pile.cards;
    return true, pile, top;
  }

  /** One pass of the opening loop: the wild card `wild` dealt from `pile` goes back under
      it, the pile is shuffled into a new deck, and its front card is dealt. */
  method Redraw(pile: DeckImpl, wild: Card, shuffler: Shuffler) returns (next: DeckImpl, top: Option<Card>)
    modifies pile
    ensures fresh(next)
    ensures Pile(top, next.cards) == RedrawStep([wild] + old(pile.cards), shuffler)
    ensures top.None? ==> next.cards == []
  {
    ghost var before := [wild] + pile.cards;
    pile.Add(wild);
    assert pile.cards == before[1..] + [before[0]];
    var all := pile.GetAllCards();
    next := new DeckImpl(shuffler(all));
    top := next.Deal();
  }

  // ---------------------------------------------------------------------------
  // The round

  class RoundImpl {
    const players: seq<string>
    const dealer: nat
    const shuffler: Shuffler
    var hands: seq<seq<Card>>
    var currentPlayer: nat
    var direction: int
    var drawPile: DeckImpl
    var discardPile: DiscardPileImpl
    var finished: bool
    var roundScore: Option<nat>
    var actionCounter: nat
    var pendingUno: Option<UnoWindow>
    var preUnoByAction: Option<UnoWindow>

    /** The first part of the source's constructor: the dealer normalised, the shuffled
        initial deck, and `cardsPerPlayer` cards dealt to each seat in turn, starting at seat
        0, as a block from the front of the deck. */
    constructor (players: seq<string>, dealer: int, shuffler: Shuffler, cardsPerPlayer: int)
      requires MinPlayers <= |players| <= MaxPlayers && Permutes(shuffler)
      ensures Valid()
      ensures this.players == players && this.shuffler == shuffler
      ensures this.dealer == NormalizedDealer(dealer, |players|)
      ensures currentPlayer == NextSeat(this.dealer, 1, |players|) && direction == 1
      ensures discardPile.cards == [] && !finished
      ensures actionCounter == 0 && pendingUno.None? && preUnoByAction.None?
      ensures State() == DealtState(players, dealer, shuffler, if cardsPerPlayer > 0 then cardsPerPlayer else 0)
      ensures fresh(drawPile) && fresh(discardPile)
    {
      var n := |players|;
      var d := NormalizedDealer(dealer, n);
      this.players := players;
      this.dealer := d;
      this.shuffler := shuffler;
      currentPlayer := NextSeat(d, 1, n);
      direction := 1;
      var c := if cardsPerPlayer > 0 then cardsPerPlayer else 0;
      var deck, dealt := DealInitialHands(shuffler, c, n);
      hands := dealt;
      drawPile := deck;
      discardPile := new DiscardPileImpl();
      finished := false;
      roundScore := None;
      actionCounter := 0;
      pendingUno := None;
      preUnoByAction := None;
    }

    /** The round `createRoundFromMemento` assembles from the parts of a memento; a finished
        round gets its score. */
    constructor Restored(players: seq<string>, dealer: nat, shuffler: Shuffler, hands: seq<seq<Card>>,
                         currentPlayer: nat, direction: int, drawPile: DeckImpl, discardPile: DiscardPileImpl,
                         finished: bool)
      requires MinPlayers <= |players| <= MaxPlayers && |hands| == |players|
      requires dealer < |players| && currentPlayer < |players| && (direction == 1 || direction == -1)
      requires Permutes(shuffler) && discardPile.ColorConsistent()
      requires finished ==> FirstEmpty(hands).Some?
      ensures Valid()
      ensures State() == RoundState(players, dealer, hands, currentPlayer, direction, drawPile.cards,
        discardPile.cards, discardPile.currentColor, finished, if finished then Some(TotalScore(hands)) else None)
      ensures this.shuffler == shuffler && this.drawPile == drawPile && this.discardPile == discardPile
      ensures actionCounter == 0 && pendingUno.None? && preUnoByAction.None?
    {
      this.players := players;
      this.dealer := dealer;
      this.shuffler := shuffler;
      this.hands := hands;
      this.currentPlayer := currentPlayer;
      this.direction := direction;
      this.drawPile := drawPile;
      this.discardPile := discardPile;
      this.finished := finished;
      roundScore := None;
      actionCounter := 0;
      pendingUno := None;
      preUnoByAction := None;
      new;
      if finished {
        var score := CalculateScore();
        roundScore := Some(score);
      }
    }

    /** The round's invariant: a seat for every hand, the dealer and the player in turn at
        the table, a direction, a discard pile whose colour fits its top card, and a score
        exactly when the round has ended with an empty hand. */
    ghost predicate Valid()
      reads this, drawPile, discardPile
    {
      && MinPlayers <= |players| <= MaxPlayers
      && |hands| == |players|
      && dealer < |players|
      && currentPlayer < |players|
      && (direction == 1 || direction == -1)
      && Permutes(shuffler)
      && discardPile.ColorConsistent()
      && (finished ==> FirstEmpty(hands).Some? && roundScore == Some(TotalScore(hands)))
      && (!finished ==> roundScore.None?)
      && (pendingUno.Some? ==> pendingUno.value.player < |players|)
      && (preUnoByAction.Some? ==> preUnoByAction.value.player < |players|)
    }

    function OnTable(): Table
      reads this, drawPile, discardPile
    {
      Table(hands, drawPile.cards, discardPile.cards)
    }

    /** The state a memento carries. */
    function State(): RoundState
      reads this, drawPile, discardPile
    {
      RoundState(players, dealer, hands, currentPlayer, direction, drawPile.cards,
        discardPile.cards, discardPile.currentColor, finished, roundScore)
    }

    /** At most one hand is empty, the round has ended exactly when one is, and the discard
        pile has a top card. */
    predicate Settled()
      reads this, discardPile
    {
      SettledRound(hands, discardPile.cards, finished)
    }

    method NextPlayer()
      requires Valid()
      modifies this`currentPlayer
      ensures Valid()
      ensures currentPlayer == NextSeat(old(currentPlayer), direction, |players|)
    {
      currentPlayer := NextSeat(currentPlayer, direction, |players|);
    }

    /** Every action closes an open Uno window of another player and gets a new number. */
    method StartAction(actor: nat)
      requires Valid()
      modifies this`pendingUno, this`actionCounter
      ensures Valid()
      ensures pendingUno == AfterStartAction(old(pendingUno), actor)
      ensures actionCounter == old(actionCounter) + 1
    {
      if pendingUno.Some? && actor != pendingUno.value.player {
        pendingUno := None;
      }
      actionCounter := actionCounter + 1;
    }

    /** Shuffles all but the top of the discard pile under the draw pile; the colour in force
        is kept. */
    method ReshuffleDiscardPile()
      requires Valid()
      modifies this`discardPile, drawPile
      ensures Valid()
      ensures (drawPile.cards, discardPile.cards) == Reshuffled(old(drawPile.cards), old(discardPile.cards), shuffler)
      ensures |old(discardPile.cards)| <= 1 ==> discardPile == old(discardPile)
      ensures |old(discardPile.cards)| > 1 ==> fresh(discardPile)
      ensures discardPile.currentColor == old(discardPile.currentColor)
      ensures old(Settled()) ==> Settled()
    {
      var pile0 := discardPile;
      if pile0.Size() <= 1 {
        return;
      }
      var moved, top := SplitPile(pile0);
      AddAll(drawPile, shuffler(moved));
      var prevColor := pile0.GetCurrentColor();
      discardPile := RestartPile(top, prevColor);
    }

    /** `drawCardsForPlayer`: player `p` draws `count` cards one at a time, the discard pile
        being reshuffled into the draw pile whenever the draw pile runs out. */
    method DrawCardsForPlayer(p: nat, count: nat)
      requires Valid() && !finished && p < |hands|
      modifies this`hands, this`discardPile, drawPile
      ensures Valid()
      ensures OnTable() == DrawOutcome(old(OnTable()), p, count, shuffler)
      ensures discardPile == old(discardPile) || fresh(discardPile)
      ensures discardPile.currentColor == old(discardPile.currentColor)
      ensures old(Settled()) ==> Settled()
    {
      ghost var t := OnTable();
      for i := 0 to count
        invariant Valid() && !finished && |hands| == |t.hands|
        invariant OnTable() == DrawRepeated(t, p, i, shuffler)
        invariant discardPile == old(discardPile) || fresh(discardPile)
        invariant discardPile.currentColor == old(discardPile.currentColor)
      {
        DrawOne(p);
      }
      DrawRepeatedOutcome(t, p, count, shuffler);
      DrawOutcomeSettled(t, p, count, shuffler);
    }

    /** One turn of `drawCardsForPlayer`'s loop. */
    method DrawOne(p: nat)
      requires Valid() && !finished && p < |hands|
      modifies this`hands, this`discardPile, drawPile
      ensures Valid()
      ensures OnTable() == DrawStep(old(OnTable()), p, shuffler)
      ensures discardPile == old(discardPile) || fresh(discardPile)
      ensures discardPile.currentColor == old(discardPile.currentColor)
    {
      if drawPile.Size() == 0 {
        ReshuffleDiscardPile();
      }
      var c := drawPile.Deal();
      if c.Some? {
        hands := hands[p := hands[p] + [c.value]];
      }
    }

    // -------------------------------------------------------------------------
    // Queries

    function PlayerCount(): (n: nat)
      ensures n == |players|
    {
      |players|
    }

    /** `player(index)`: the name at a seat, or an error outside the table. */
    function Player(index: int): (r: Result<string, RoundError>)
      ensures r.Success? <==> 0 <= index < |players|
      ensures r.Success? ==> r.value == players[index]
      ensures r.Failure? ==> r.error == PlayerOutOfBounds
    {
      if index < 0 || index >= |players| then Failure(PlayerOutOfBounds) else Success(players[index])
    }

    /** `playerHand(index)`: a seat's hand; `None` stands for the source's `undefined`. */
    function PlayerHand(index: int): (h: Option<seq<Card>>)
      reads this
      ensures h.Some? <==> 0 <= index < |hands|
      ensures h.Some? ==> h.value == hands[index]
    {
      if 0 <= index < |hands| then Some(hands[index]) else None
    }

    /** `playerInTurn()`: nobody once the round has ended. */
    function PlayerInTurn(): (p: Option<nat>)
      reads this, drawPile, discardPile
      ensures p.Some? <==> !finished
      ensures Valid() && p.Some? ==> p.value < |players|
    {
      if finished then None else Some(currentPlayer)
    }

    /** `score()`: present exactly once the round has ended, and then the round's score. */
    function Score(): (s: Option<nat>)
      reads this, drawPile, discardPile
      ensures Valid() ==> (s.Some? <==> finished)
      ensures Valid() && finished ==> s == Some(TotalScore(hands))
    {
      roundScore
    }

    function HasEnded(): (e: bool)
      reads this, drawPile, discardPile
      ensures e == finished
      ensures Valid() && e ==> FirstEmpty(hands).Some?
    {
      finished
    }

    /** `canPlay(i)`: whether the player in turn may play card `i` now. */
    function CanPlay(i: int): (b: bool)
      requires Valid()
      reads this, drawPile, discardPile
      ensures b ==> !finished && 0 <= i < |hands[currentPlayer]| && discardPile.cards != []
      ensures !finished && 0 <= i < |hands[currentPlayer]| && discardPile.cards != [] && hands[currentPlayer][i].Wild? ==> b
      ensures b <==> !finished && Legal(hands[currentPlayer], i, discardPile.Top(), discardPile.currentColor)
    {
      !finished && Legal(hands[currentPlayer], i, discardPile.Top(), discardPile.currentColor)
    }

    /** `canPlayAny()`: whether some card of the player in turn may be played. */
    function CanPlayAny(): (b: bool)
      requires Valid()
      reads this, drawPile, discardPile
      ensures b <==> exists i :: 0 <= i < |hands[currentPlayer]| && CanPlay(i)
      ensures b ==> !finished && discardPile.cards != []
    {
      !finished && exists i :: 0 <= i < |hands[currentPlayer]| && CanPlay(i)
    }

    /** `canDraw()`: a live round with cards left to draw. */
    function CanDraw(): (b: bool)
      reads this, drawPile
      ensures b <==> !finished && |drawPile.cards| > 0
    {
      !finished && drawPile.Size() > 0
    }

    /** `calculateScore()`: the points left in every non-empty hand. */
    method CalculateScore() returns (score: nat)
      ensures score == TotalScore(hands)
    {
      score := 0;
      for i := 0 to |hands|
        invariant score == TotalScore(hands[..i])
      {
        assert hands[..i + 1][..i] == hands[..i];
        if |hands[i]| > 0 {
          var hand := hands[i];
          for j := 0 to |hand|
            invariant score == TotalScore(hands[..i]) + HandScore(hand[..j])
          {
            assert hand[..j + 1][..j] == hand[..j];
            score := score + CardScore(hand[j]);
          }
          assert hand[..|hand|] == hand;
        }
      }
      assert hands[..|hands|] == hands;
    }

    /** `getWinner()`: the first seat with an empty hand, or -1. */
    method GetWinner() returns (w: int)
      ensures w == if FirstEmpty(hands).Some? then FirstEmpty(hands).value else -1
    {
      for i := 0 to |hands|
        invariant forall j :: 0 <= j < i ==> hands[j] != []
      {
        if |hands[i]| == 0 {
          return i;
        }
      }
      return -1;
    }

    /** `winner()`: the first seat with an empty hand, if any. */
    method Winner() returns (w: Option<nat>)
      ensures w == FirstEmpty(hands)
    {
      var i := GetWinner();
      w := if i == -1 then None else Some(i);
    }

    /** `toMemento()`: the round as plain data; a settled round comes back from
        `createRoundFromMemento` as it was, except that an ended round names no player in
        turn. */
    function ToMemento(): (m: RoundMemento)
      reads this, drawPile, discardPile
      ensures m.players == players && m.hands == hands && m.drawPile == drawPile.cards
      ensures m.discardPile == Reversed(discardPile.cards)
      ensures (m.playerInTurn.Some? <==> !finished) && (m.playerInTurn.Some? ==> m.playerInTurn.value == currentPlayer)
      ensures Valid() && Settled() ==> Restore(m) == Success(if finished then State().(currentPlayer := 0) else State())
    {
      RestoreMementoOfAny(State());
      MementoOf(State())
    }

    // -------------------------------------------------------------------------
    // Actions

    /** `finishRound()`: the round ends and its score is fixed. */
    method FinishRound()
      requires Valid() && FirstEmpty(hands).Some?
      modifies this`finished, this`roundScore
      ensures Valid() && finished && roundScore == Some(TotalScore(hands))
    {
      finished := true;
      var score := CalculateScore();
      roundScore := Some(score);
    }

    /** `handleSpecialCard(card)`: a skip passes over the next seat, a reverse turns the table
        round (and passes over the only other player of two), a draw or wild draw makes the
        next seat draw two or four and passes over it. */
    method HandleSpecialCard(card: Card)
      requires Valid() && !finished
      modifies this`currentPlayer, this`direction, this`hands, this`discardPile, drawPile
      ensures Valid()
      ensures currentPlayer == EffectSeat(card, old(currentPlayer), old(direction), |players|)
      ensures direction == EffectDirection(card, old(direction))
      ensures OnTable() == AfterPenalty(old(OnTable()), card, NextSeat(old(currentPlayer), old(direction), |players|), shuffler)
      ensures discardPile == old(discardPile) || fresh(discardPile)
      ensures discardPile.currentColor == old(discardPile.currentColor)
      ensures actionCounter == old(actionCounter) && pendingUno == old(pendingUno) && preUnoByAction == old(preUnoByAction)
    {
      match card
      case Skip(_) =>
        NextPlayer();
      case Reverse(_) =>
        direction := -direction;
        if |players| == 2 {
          NextPlayer();
        }
      case Draw(_) =>
        Penalise(2);
      case WildDraw =>
        Penalise(4);
      case _ =>
    }

    /** The next seat becomes the player in turn and draws `count` cards. */
    method Penalise(count: nat)
      requires Valid() && !finished
      modifies this`currentPlayer, this`hands, this`discardPile, drawPile
      ensures Valid()
      ensures currentPlayer == NextSeat(old(currentPlayer), direction, |players|)
      ensures OnTable() == DrawOutcome(old(OnTable()), currentPlayer, count, shuffler)
      ensures discardPile == old(discardPile) || fresh(discardPile)
      ensures discardPile.currentColor == old(discardPile.currentColor)
    {
      NextPlayer();
      DrawCardsForPlayer(currentPlayer, count);
    }

    /** Takes card `i` from the hand of the player in turn onto the discard pile, with the
        named colour for a wild card, and updates the Uno windows for the hand left. */
    method PutOnPile(i: nat, color: Option<Color>)
      requires Valid() && !finished && i < |hands[currentPlayer]|
      requires hands[currentPlayer][i].IsWild() <==> color.Some?
      modifies this`hands, discardPile, this`pendingUno, this`preUnoByAction
      ensures Valid()
      ensures var cur := currentPlayer; var card := old(hands[cur][i]);
        && hands == old(hands)[cur := RemoveAt(old(hands[cur]), i)]
        && discardPile.cards == old(discardPile.cards) + [card]
        && discardPile.currentColor == (if card.IsWild() then color else Some(card.color))
        && (pendingUno, preUnoByAction) == AfterPlayWindows(old(pendingUno), old(preUnoByAction), actionCounter, cur, |hands[cur]|)
      ensures actionCounter == old(actionCounter) && currentPlayer == old(currentPlayer) && direction == old(direction)
    {
      var cur := currentPlayer;
      var card := hands[cur][i];
      hands := hands[cur := RemoveAt(hands[cur], i)];
      if card.IsWild() {
        discardPile.Add(card, color);
      } else {
        discardPile.Add(card, None);
      }
      if |hands[cur]| == 1 {
        if preUnoByAction == Some(UnoWindow(cur, actionCounter)) {
          preUnoByAction := None;
        } else {
          pendingUno := Some(UnoWindow(cur, actionCounter));
        }
      }
    }

    /** `play(i, color)`: the player in turn plays card `i`, naming `color` for a wild card.
        The play is checked completely before anything moves, so a refused play leaves the
        table as it was. */
    method Play(i: int, color: Option<Color>) returns (r: Result<Card, RoundError>)
      requires Valid()
      modifies this, drawPile, discardPile
      ensures Valid()
      ensures actionCounter == old(actionCounter) + 1
      ensures var hand := old(hands[currentPlayer]);
        var legal := !old(finished) && Legal(hand, i, old(discardPile.Top()), old(discardPile.currentColor));
        && (r.Success? <==> legal && (hand[i].IsWild() <==> color.Some?))
        && (r.Failure? ==> r.error == if !legal then IllegalPlay else if hand[i].IsWild() then WildNeedsColor else ColorOnNonWild)
      ensures r.Failure? ==>
        && OnTable() == old(OnTable()) && discardPile.currentColor == old(discardPile.currentColor)
        && currentPlayer == old(currentPlayer) && direction == old(direction) && finished == old(finished)
        && pendingUno == AfterStartAction(old(pendingUno), old(currentPlayer)) && preUnoByAction == old(preUnoByAction)
      ensures r.Success? ==>
        var cur := old(currentPlayer);
        var card := old(hands[cur][i]);
        var left := RemoveAt(old(hands[cur]), i);
        && r.value == card
        && OnTable() == AfterPenalty(Played(old(OnTable()), cur, i), card, NextSeat(cur, old(direction), |players|), shuffler)
        && (currentPlayer, direction) == TurnAfter(card, cur, old(direction), |players|)
        && discardPile.currentColor == (if card.IsWild() then color else Some(card.color))
        && (pendingUno, preUnoByAction) ==
             AfterPlayWindows(AfterStartAction(old(pendingUno), cur), old(preUnoByAction), actionCounter, cur, |left|)
        && finished == (left == [])
      ensures discardPile == old(discardPile) || fresh(discardPile)
      ensures old(Settled()) ==> Settled()
    {
      var cur := currentPlayer;
      ghost var t, dir := OnTable(), direction;
      StartAction(cur);
      var legal := CanPlay(i);
      if !legal {
        return Failure(IllegalPlay);
      }
      var card := hands[cur][i];
      if card.IsWild() && color.None? {
        return Failure(WildNeedsColor);
      }
      if !card.IsWild() && color.Some? {
        return Failure(ColorOnNonWild);
      }
      PlayChecked(i, color);
      PlaySettled(t, cur, i, NextSeat(cur, dir, |players|), shuffler);
      return Success(card);
    }

    /** The rest of `play` once the play is known to be legal and its colour right. */
    method PlayChecked(i: nat, color: Option<Color>)
      requires Valid() && !finished && Legal(hands[currentPlayer], i, discardPile.Top(), discardPile.currentColor)
      requires hands[currentPlayer][i].IsWild() <==> color.Some?
      modifies this, drawPile, discardPile
      ensures Valid()
      ensures actionCounter == old(actionCounter)
      ensures var cur := old(currentPlayer);
        var card := old(hands[cur][i]);
        var left := RemoveAt(old(hands[cur]), i);
        && OnTable() == AfterPenalty(Played(old(OnTable()), cur, i), card, NextSeat(cur, old(direction), |players|), shuffler)
        && (currentPlayer, direction) == TurnAfter(card, cur, old(direction), |players|)
        && discardPile.currentColor == (if card.IsWild() then color else Some(card.color))
        && (pendingUno, preUnoByAction) == AfterPlayWindows(old(pendingUno), old(preUnoByAction), actionCounter, cur, |left|)
        && finished == (left == [])
      ensures discardPile == old(discardPile) || fresh(discardPile)
    {
      var cur := currentPlayer;
      var dir := direction;
      var card := hands[cur][i];
      PlaceAndApply(i, color);
      EndTurn(cur);
      TurnAfterSteps(card, cur, dir, |players|);
    }

    /** The card goes on the pile and its effect is applied; the turn has not passed yet. */
    method PlaceAndApply(i: nat, color: Option<Color>)
      requires Valid() && !finished && i < |hands[currentPlayer]|
      requires hands[currentPlayer][i].IsWild() <==> color.Some?
      modifies this`hands, this`currentPlayer, this`direction, this`discardPile, this`pendingUno, this`preUnoByAction
      modifies drawPile, discardPile
      ensures Valid() && !finished
      ensures var cur := old(currentPlayer);
        var card := old(hands[cur][i]);
        var left := RemoveAt(old(hands[cur]), i);
        && OnTable() == AfterPenalty(Played(old(OnTable()), cur, i), card, NextSeat(cur, old(direction), |players|), shuffler)
        && hands[cur] == left
        && currentPlayer == EffectSeat(card, cur, old(direction), |players|)
        && direction == EffectDirection(card, old(direction))
        && discardPile.currentColor == (if card.IsWild() then color else Some(card.color))
        && (pendingUno, preUnoByAction) == AfterPlayWindows(old(pendingUno), old(preUnoByAction), actionCounter, cur, |left|)
      ensures actionCounter == old(actionCounter)
      ensures discardPile == old(discardPile) || fresh(discardPile)
    {
      var cur := currentPlayer;
      var card := hands[cur][i];
      ghost var left := RemoveAt(hands[cur], i);
      ghost var played := Table(hands[cur := left], drawPile.cards, discardPile.cards + [card]);
      PutOnPile(i, color);
      assert OnTable() == played;
      HandleSpecialCard(card);
      assert hands[cur] == left;
    }

    /** The end of a play: the turn passes on, and the round ends if the hand of `cur`, the
        player who played, is empty. */
    method EndTurn(cur: nat)
      requires Valid() && !finished && cur < |hands|
      modifies this`currentPlayer, this`finished, this`roundScore
      ensures Valid()
      ensures currentPlayer == NextSeat(old(currentPlayer), direction, |players|)
      ensures finished == (hands[cur] == [])
      ensures actionCounter == old(actionCounter) && pendingUno == old(pendingUno) && preUnoByAction == old(preUnoByAction)
    {
      NextPlayer();
      if |hands[cur]| == 0 {
        FinishRound();
      }
    }

    /** `draw()`: the player in turn takes the front card of the draw pile, keeps the turn if
        that card can be played at once, and the discard pile is reshuffled if the draw
        pile is left empty. */
    method Draw() returns (r: Result<Card, RoundError>)
      requires Valid()
      modifies this, drawPile, discardPile
      ensures Valid()
      ensures actionCounter == old(actionCounter) + 1
      ensures pendingUno == AfterStartAction(old(pendingUno), old(currentPlayer)) && preUnoByAction == old(preUnoByAction)
      ensures finished == old(finished) && roundScore == old(roundScore) && direction == old(direction)
      ensures discardPile.currentColor == old(discardPile.currentColor)
      ensures r.Success? <==> !old(finished) && old(drawPile.cards) != []
      ensures r.Failure? ==> r.error == CannotDraw && OnTable() == old(OnTable()) && currentPlayer == old(currentPlayer)
      ensures r.Failure? ==> discardPile == old(discardPile)
      ensures r.Success? ==>
        var cur := old(currentPlayer);
        var card := old(drawPile.cards[0]);
        var hand := old(hands[cur]) + [card];
        && r.value == card
        && OnTable() == AfterDraw(old(OnTable()), cur, shuffler)
        && currentPlayer == (if Legal(hand, |hand| - 1, old(discardPile.Top()), old(discardPile.currentColor)) then cur
                             else NextSeat(cur, direction, |players|))
      ensures discardPile == old(discardPile) || fresh(discardPile)
      ensures old(Settled()) ==> Settled()
    {
      var cur := currentPlayer;
      ghost var t := OnTable();
      StartAction(cur);
      var drawable := CanDraw();
      if !drawable {
        return Failure(CannotDraw);
      }
      var card := DrawChecked();
      AfterDrawSettled(t, cur, shuffler);
      return Success(card);
    }

    /** The rest of `draw` once a card is known to be there. */
    method DrawChecked() returns (card: Card)
      requires Valid() && !finished && drawPile.cards != []
      modifies this`hands, this`currentPlayer, this`discardPile, drawPile
      ensures Valid()
      ensures discardPile.currentColor == old(discardPile.currentColor)
      ensures var cur := old(currentPlayer);
        var hand := old(hands[cur]) + [card];
        && card == old(drawPile.cards[0])
        && OnTable() == AfterDraw(old(OnTable()), cur, shuffler)
        && currentPlayer == (if Legal(hand, |hand| - 1, old(discardPile.Top()), old(discardPile.currentColor)) then cur
                             else NextSeat(cur, direction, |players|))
      ensures discardPile == old(discardPile) || fresh(discardPile)
    {
      var cur := currentPlayer;
      var dealt := drawPile.Deal();
      card := dealt.value;
      hands := hands[cur := hands[cur] + [card]];
      var playable := CanPlay(|hands[cur]| - 1);
      if !playable {
        NextPlayer();
      }
      ghost var hs, turn := hands, currentPlayer;
      if drawPile.Size() == 0 {
        ReshuffleDiscardPile();
      }
      assert hands == hs && currentPlayer == turn;
    }

    /** `sayUno(p)`: player `p` calls Uno, which answers a window just opened on them or,
        during their own turn, announces the call for the coming play. */
    method SayUno(p: int) returns (r: Outcome<RoundError>)
      requires Valid()
      modifies this`pendingUno, this`preUnoByAction
      ensures Valid()
      ensures finished ==> r == Fail(RoundEnded)
      ensures !finished && !(0 <= p < |players|) ==> r == Fail(PlayerOutOfBounds)
      ensures r.Pass? <==> !finished && 0 <= p < |players|
      ensures r.Pass? ==>
        (pendingUno, preUnoByAction) == AfterSayUno(old(pendingUno), old(preUnoByAction), actionCounter, p, currentPlayer)
      ensures r.Fail? ==> pendingUno == old(pendingUno) && preUnoByAction == old(preUnoByAction)
      ensures old(Settled()) ==> Settled()
    {
      if finished {
        return Fail(RoundEnded);
      }
      if p < 0 || p >= |players| {
        return Fail(PlayerOutOfBounds);
      }
      if pendingUno == Some(UnoWindow(p, actionCounter)) {
        pendingUno := None;
        return Pass;
      }
      if p == currentPlayer {
        preUnoByAction := Some(UnoWindow(p, actionCounter + 1));
      }
      return Pass;
    }

    /** `catchUnoFailure(accuser, accused)`: an accusation against a player with an open
        window and one card left makes them draw four and closes the window. */
    method CatchUnoFailure(accuser: int, accused: int) returns (r: Result<bool, RoundError>)
      requires Valid()
      modifies this`hands, this`discardPile, drawPile, this`pendingUno
      ensures Valid()
      ensures old(finished) ==> r == Success(false)
      ensures !old(finished) && !(0 <= accused < |players|) ==> r == Failure(AccusedOutOfBounds)
      ensures !old(finished) && 0 <= accused < |players| && !(0 <= accuser < |players|) ==> r == Failure(AccuserOutOfBounds)
      ensures r == Success(true) <==>
        && !old(finished) && 0 <= accused < |players| && 0 <= accuser < |players|
        && CanCatch(old(pendingUno), accused, old(hands[accused]))
      ensures r == Success(true) ==> OnTable() == DrawOutcome(old(OnTable()), accused, 4, shuffler) && pendingUno.None?
      ensures r != Success(true) ==> OnTable() == old(OnTable()) && pendingUno == old(pendingUno)
      ensures r != Success(true) ==> discardPile == old(discardPile)
      ensures discardPile == old(discardPile) || fresh(discardPile)
      ensures discardPile.currentColor == old(discardPile.currentColor)
      ensures old(Settled()) ==> Settled()
    {
      if finished {
        return Success(false);
      }
      if accused < 0 || accused >= |players| {
        return Failure(AccusedOutOfBounds);
      }
      if accuser < 0 || accuser >= |players| {
        return Failure(AccuserOutOfBounds);
      }
      if !CanCatch(pendingUno, accused, hands[accused]) {
        return Success(false);
      }
      DrawCardsForPlayer(accused, 4);
      pendingUno := None;
      return Success(true);
    }

    /** The end of the source constructor: the first card that is not wild opens the discard
        pile and acts on the first turn. `RedrawLimitReached` when only wild cards came up
        `MaxRedraws` times in a row. */
    method OpenDiscard() returns (r: Outcome<RoundError>)
      requires Valid() && !finished && discardPile.cards == []
      requires currentPlayer == NextSeat(dealer, 1, |players|) && direction == 1
      modifies this`drawPile, this`currentPlayer, this`direction, this`hands, this`discardPile, drawPile, discardPile
      ensures Valid()
      ensures var o := Opening(old(State()), shuffler);
        && (r.Pass? <==> o.Success?)
        && (r.Fail? ==> r.error == RedrawLimitReached)
        && (r.Pass? ==> State() == o.value)
    {
      var ok, pile, top := DrawOpeningCard(drawPile, shuffler);
      if !ok {
        return Fail(RedrawLimitReached);
      }
      OpenFromFacts(old(drawPile.cards), shuffler, MaxRedraws);
      drawPile := pile;
      if top.None? {
        return Pass;
      }
      OpenWith(top.value);
      return Pass;
    }

    /** The opening card `card` goes on the empty discard pile and takes effect. */
    method OpenWith(card: Card)
      requires Valid() && !finished && discardPile.cards == [] && !card.IsWild()
      requires currentPlayer == NextSeat(dealer, 1, |players|) && direction == 1
      modifies this`currentPlayer, this`direction, this`hands, this`discardPile, drawPile, discardPile
      ensures Valid()
      ensures State() == LayOpening(old(State()), card, shuffler)
    {
      var n := |players|;
      DealerLeft(dealer, n);
      discardPile.Add(card, None);
      if card.Reverse? {
        direction := -1;
        currentPlayer := (dealer - 1 + n) % n;
      } else if card.Skip? {
        currentPlayer := (dealer + 2) % n;
      } else if card.Draw? {
        OpeningDraw();
      }
    }

    /** An opening draw card: the dealer's left draws two and is passed over. */
    method OpeningDraw()
      requires Valid() && !finished && currentPlayer == NextSeat(dealer, 1, |players|)
      modifies this`currentPlayer, this`hands, this`discardPile, drawPile
      ensures Valid()
      ensures OnTable() == DrawOutcome(old(OnTable()), NextSeat(dealer, 1, |players|), 2, shuffler)
      ensures currentPlayer == (dealer + 2) % |players|
      ensures discardPile.currentColor == old(discardPile.currentColor)
    {
      var n := |players|;
      DealerLeft(dealer, n);
      DrawCardsForPlayer((dealer + 1) % n, 2);
      currentPlayer := (dealer + 2) % n;
    }
  }

  // ---------------------------------------------------------------------------
  // Creating a round

  /** The cards each seat is dealt: `cardsPerPlayer`, 7 when it is not given, none when it
      is not positive. */
  function CardsToDeal(cardsPerPlayer: Option<int>): nat {
    if cardsPerPlayer.None? then DefaultCardsPerPlayer
    else if cardsPerPlayer.value > 0 then cardsPerPlayer.value
    else 0
  }

  /** The state right after dealing: `c` cards to each seat, the rest in the draw pile, and
      the discard pile still empty. */
  function DealtState(players: seq<string>, dealer: int, shuffler: Shuffler, c: nat): RoundState
    requires MinPlayers <= |players| <= MaxPlayers
  {
    var n := |players|;
    var d := NormalizedDealer(dealer, n);
    var deck := shuffler(CanonicalDeck());
    RoundState(players, d, Dealt(deck, c, n), NextSeat(d, 1, n), 1, Undealt(deck, c, n), [], None, false, None)
  }

  /** The opening of the discard pile on state `s`: the first card that is not wild is laid,
      and a reverse, skip or draw acts on the first turn. */
  function Opening(s: RoundState, shuffler: Shuffler): Result<RoundState, RoundError>
    requires s.dealer < |s.players| && |s.hands| == |s.players|
  {
    match OpenFrom(s.drawPile, shuffler, MaxRedraws)
    case Failure(e) => Failure(e)
    case Success(o) =>
      if o.top.None? then Success(s.(drawPile := o.drawPile))
      else Success(LayOpening(s.(drawPile := o.drawPile), o.top.value, shuffler))
  }

  /** Opening card `top` laid on the discard pile of `s`, with its effect on the first turn. */
  function LayOpening(s: RoundState, top: Card, shuffler: Shuffler): RoundState
    requires s.dealer < |s.players| && |s.hands| == |s.players| && !top.IsWild()
  {
    var n := |s.players|;
    var laid := Table(s.hands, s.drawPile, s.discardPile + [top]);
    var t := if top.Draw? then DrawOutcome(laid, NextSeat(s.dealer, 1, n), 2, shuffler) else laid;
    var turn := OpeningTurn(top, s.dealer, n);
    s.(hands := t.hands, currentPlayer := turn.0, direction := turn.1, drawPile := t.drawPile,
      discardPile := t.discardPile, currentColor := Some(top.color))
  }

  /** The opening keeps every card, lays a card that is not wild with its colour in force,
      and leaves the discard pile empty only when there was nothing left to open with. */
  lemma OpeningFacts(s: RoundState, shuffler: Shuffler)
    requires s.dealer < |s.players| && |s.hands| == |s.players| && s.discardPile == [] && Permutes(shuffler)
    ensures var r := Opening(s, shuffler);
      r.Success? ==>
        var u := r.value;
        && HandsCards(u.hands) + multiset(u.drawPile) + multiset(u.discardPile) == HandsCards(s.hands) + multiset(s.drawPile)
        && |u.hands| == |s.hands| && u.finished == s.finished && u.roundScore == s.roundScore
        && (u.discardPile != [] ==>
              !u.discardPile[|u.discardPile| - 1].IsWild() && u.currentColor == Some(u.discardPile[|u.discardPile| - 1].color))
        && (u.discardPile == [] <==> s.drawPile == [])
  {
    OpenFromFacts(s.drawPile, shuffler, MaxRedraws);
    var r := OpenFrom(s.drawPile, shuffler, MaxRedraws);
    if r.Success? && r.value.top.Some? {
      var rest := s.(drawPile := r.value.drawPile);
      var top := r.value.top.value;
      LayOpeningFacts(rest, top, shuffler);
      assert Opening(s, shuffler) == Success(LayOpening(rest, top, shuffler));
      assert HandsCards(rest.hands) + multiset(rest.drawPile) + multiset{top} == HandsCards(s.hands) + multiset(s.drawPile);
    } else if r.Success? {
      assert Opening(s, shuffler) == Success(s.(drawPile := r.value.drawPile));
    }
  }

  /** Laying the opening card on an empty discard pile keeps every card and puts that card,
      with its colour in force, on top. */
  lemma LayOpeningFacts(s: RoundState, top: Card, shuffler: Shuffler)
    requires s.dealer < |s.players| && |s.hands| == |s.players| && !top.IsWild()
    requires s.discardPile == [] && Permutes(shuffler)
    ensures var u := LayOpening(s, top, shuffler);
      && HandsCards(u.hands) + multiset(u.drawPile) + multiset(u.discardPile)
         == HandsCards(s.hands) + multiset(s.drawPile) + multiset{top}
      && |u.hands| == |s.hands| && u.finished == s.finished && u.roundScore == s.roundScore
      && u.discardPile != [] && u.discardPile[|u.discardPile| - 1] == top && u.currentColor == Some(top.color)
  {
    var laid := Table(s.hands, s.drawPile, [top]);
    assert s.discardPile + [top] == [top];
    if top.Draw? {
      DrawOutcomeConserves(laid, NextSeat(s.dealer, 1, |s.players|), 2, shuffler);
    }
  }

  /** The state of a newly created round. */
  function InitialState(players: seq<string>, dealer: int, shuffler: Shuffler, c: nat): Result<RoundState, RoundError>
    requires MinPlayers <= |players| <= MaxPlayers
  {
    Opening(DealtState(players, dealer, shuffler, c), shuffler)
  }

  /** A new round holds exactly the cards of a deck, a hand per player, and a discard pile
      that, when there is one, has a card that is not wild on top, whose colour is in force. */
  lemma InitialStateFacts(players: seq<string>, dealer: int, shuffler: Shuffler, c: nat)
    requires MinPlayers <= |players| <= MaxPlayers && Permutes(shuffler)
    ensures var r := InitialState(players, dealer, shuffler, c);
      r.Success? ==>
        var s := r.value;
        && HandsCards(s.hands) + multiset(s.drawPile) + multiset(s.discardPile) == multiset(CanonicalDeck())
        && |s.hands| == |players| && !s.finished
        && (s.discardPile != [] ==>
              !s.discardPile[|s.discardPile| - 1].IsWild() && s.currentColor == Some(s.discardPile[|s.discardPile| - 1].color))
        && (s.discardPile == [] <==> Undealt(shuffler(CanonicalDeck()), c, |players|) == [])
  {
    InitialDealConserves(shuffler, c, |players|);
    OpeningFacts(DealtState(players, dealer, shuffler, c), shuffler);
  }

  /** When the deck covers the deal, every seat receives all `c` of its cards. */
  lemma {:induction false} DealtFull(deck: seq<Card>, c: nat, p: nat)
    requires Offset(p, c) <= |deck|
    ensures forall q :: 0 <= q < p ==> |Dealt(deck, c, p)[q]| == c
  {
    if p > 0 {
      DealtFull(deck, c, p - 1);
      assert Dealt(deck, c, p) == Dealt(deck, c, p - 1) + [Block(deck, Offset(p - 1, c), c)];
    }
  }

  /** The opening only adds cards to hands: to the dealer's left for a draw, to nobody
      otherwise; the players and the dealer stay. */
  lemma OpeningHands(s: RoundState, shuffler: Shuffler)
    requires s.dealer < |s.players| && |s.hands| == |s.players| && Permutes(shuffler)
    ensures var r := Opening(s, shuffler);
      r.Success? ==>
        var u := r.value;
        && u.players == s.players && u.dealer == s.dealer && |u.hands| == |s.hands|
        && (forall q :: 0 <= q < |s.hands| ==> |u.hands[q]| >= |s.hands[q]|)
        && (forall q :: 0 <= q < |s.hands| && q != NextSeat(s.dealer, 1, |s.players|) ==> u.hands[q] == s.hands[q])
  {
    var o := OpenFrom(s.drawPile, shuffler, MaxRedraws);
    if o.Success? && o.value.top.Some? {
      var rest := s.(drawPile := o.value.drawPile);
      var top := o.value.top.value;
      var laid := Table(rest.hands, rest.drawPile, rest.discardPile + [top]);
      if top.Draw? {
        DrawOutcomeCount(laid, NextSeat(s.dealer, 1, |s.players|), 2, shuffler);
      }
      assert Opening(s, shuffler) == Success(LayOpening(rest, top, shuffler));
    }
  }

  /** A deal of at least one card a seat that leaves cards over opens a settled round: no
      hand is empty and a card lies on the discard pile. */
  lemma InitialStateSettled(players: seq<string>, dealer: int, shuffler: Shuffler, c: nat)
    requires MinPlayers <= |players| <= MaxPlayers && Permutes(shuffler)
    ensures var r := InitialState(players, dealer, shuffler, c);
      r.Success? && 1 <= c && |players| * c < |CanonicalDeck()| ==>
        && SettledRound(r.value.hands, r.value.discardPile, r.value.finished)
        && r.value.dealer == NormalizedDealer(dealer, |players|)
  {
    var r := InitialState(players, dealer, shuffler, c);
    if r.Success? && 1 <= c && |players| * c < |CanonicalDeck()| {
      var n := |players|;
      var deck := shuffler(CanonicalDeck());
      var s := DealtState(players, dealer, shuffler, c);
      assert |deck| == |CanonicalDeck()| by {
        assert |multiset(deck)| == |multiset(CanonicalDeck())|;
      }
      OffsetIsProduct(n, c);
      DealtFull(deck, c, n);
      DealtBlocks(deck, c, n);
      InitialStateFacts(players, dealer, shuffler, c);
      OpeningHands(s, shuffler);
      CountEmptyZero(r.value.hands);
    }
  }

  /** A deal the deck cannot cover is accepted all the same: the round opens with nothing to
      draw and no discard pile, and once `(n - 1) * c` cards exhaust the deck the last seat
      holds no card although the round has not ended. */
  lemma OverdealtRound(players: seq<string>, dealer: int, shuffler: Shuffler, c: nat)
    requires MinPlayers <= |players| <= MaxPlayers && Permutes(shuffler)
    requires |players| * c >= |CanonicalDeck()|
    ensures var r := InitialState(players, dealer, shuffler, c);
      && r.Success? && r.value.drawPile == [] && r.value.discardPile == [] && !r.value.finished
      && ((|players| - 1) * c >= |CanonicalDeck()| ==> r.value.hands[|players| - 1] == [])
  {
    var n := |players|;
    var deck := shuffler(CanonicalDeck());
    assert |deck| == |CanonicalDeck()| by {
      assert |multiset(deck)| == |multiset(CanonicalDeck())|;
    }
    DealtBlocks(deck, c, n);
    assert Undealt(deck, c, n) == [];
    var s := DealtState(players, dealer, shuffler, c);
    assert OpenFrom(s.drawPile, shuffler, MaxRedraws) == Success(Opened([], None));
  }

  /** A round dealt no cards opens with the dealer's hand empty although the round has not
      ended. */
  lemma EmptyDealRound(players: seq<string>, dealer: int, shuffler: Shuffler)
    requires MinPlayers <= |players| <= MaxPlayers && Permutes(shuffler)
    ensures var r := InitialState(players, dealer, shuffler, 0);
      r.Success? ==> !r.value.finished && r.value.hands[NormalizedDealer(dealer, |players|)] == []
  {
    var n := |players|;
    var d := NormalizedDealer(dealer, n);
    var deck := shuffler(CanonicalDeck());
    DealtBlocks(deck, 0, n);
    var s := DealtState(players, dealer, shuffler, 0);
    assert s.hands[d] == Block(deck, d * 0, 0);
    OpeningHands(s, shuffler);
    InitialStateFacts(players, dealer, shuffler, 0);
  }

  /** The shuffler used when none is given: it leaves the cards as they are. */
  function KeepOrder(cards: seq<Card>): seq<Card> {
    cards
  }

  /** The source's `RoundImpl` constructor as a whole: two to ten players, the deal, then
      the opening card. */
  method NewRound(players: seq<string>, dealer: int, shuffler: Shuffler, cardsPerPlayer: int)
    returns (r: Result<RoundImpl, RoundError>)
    requires Permutes(shuffler)
    ensures |players| < MinPlayers ==> r == Failure(TooFewPlayers)
    ensures |players| > MaxPlayers ==> r == Failure(RoundError.TooManyPlayers)
    ensures MinPlayers <= |players| <= MaxPlayers ==>
      var s := InitialState(players, dealer, shuffler, if cardsPerPlayer > 0 then cardsPerPlayer else 0);
      && (r.Success? <==> s.Success?)
      && (r.Failure? ==> r.error == RedrawLimitReached)
      && (r.Success? ==>
            && fresh(r.value) && r.value.Valid() && r.value.State() == s.value && r.value.shuffler == shuffler
            && r.value.actionCounter == 0 && r.value.pendingUno.None? && r.value.preUnoByAction.None?)
      && (r.Success? && 1 <= cardsPerPlayer && |players| * cardsPerPlayer < |CanonicalDeck()| ==> r.value.Settled())
  {
    if |players| < MinPlayers {
      return Failure(TooFewPlayers);
    }
    if |players| > MaxPlayers {
      return Failure(RoundError.TooManyPlayers);
    }
    r := DealRound(players, dealer, shuffler, cardsPerPlayer);
    InitialStateSettled(players, dealer, shuffler, if cardsPerPlayer > 0 then cardsPerPlayer else 0);
  }

  /** The deal and the opening card for two to ten players. */
  method DealRound(players: seq<string>, dealer: int, shuffler: Shuffler, cardsPerPlayer: int)
    returns (r: Result<RoundImpl, RoundError>)
    requires MinPlayers <= |players| <= MaxPlayers && Permutes(shuffler)
    ensures var s := InitialState(players, dealer, shuffler, if cardsPerPlayer > 0 then cardsPerPlayer else 0);
      && (r.Success? <==> s.Success?)
      && (r.Failure? ==> r.error == RedrawLimitReached)
      && (r.Success? ==>
            && fresh(r.value) && r.value.Valid() && r.value.State() == s.value && r.value.shuffler == shuffler
            && r.value.actionCounter == 0 && r.value.pendingUno.None? && r.value.preUnoByAction.None?)
  {
    var round := new RoundImpl(players, dealer, shuffler, cardsPerPlayer);
    ghost var s := InitialState(players, dealer, shuffler, if cardsPerPlayer > 0 then cardsPerPlayer else 0);
    assert s == Opening(round.State(), shuffler);
    var opening := round.OpenDiscard();
    if opening.Fail? {
      return Failure(opening.error);
    }
    assert s == Success(round.State());
    return Success(round);
  }

  /** `createRound`: a round with the given players and dealer; without a shuffler the deck
      keeps its order. */
  method CreateRound(players: seq<string>, dealer: int, shuffler: Option<Shuffler>, cardsPerPlayer: Option<int>)
    returns (r: Result<RoundImpl, RoundError>)
    requires shuffler.Some? ==> Permutes(shuffler.value)
    ensures |players| < MinPlayers ==> r == Failure(TooFewPlayers)
    ensures |players| > MaxPlayers ==> r == Failure(RoundError.TooManyPlayers)
    ensures MinPlayers <= |players| <= MaxPlayers ==>
      var sh := if shuffler.Some? then shuffler.value else KeepOrder;
      var s := InitialState(players, dealer, sh, CardsToDeal(cardsPerPlayer));
      && (r.Success? <==> s.Success?)
      && (r.Failure? ==> r.error == RedrawLimitReached)
      && (r.Success? ==>
            && fresh(r.value) && r.value.Valid() && r.value.State() == s.value && r.value.shuffler == sh
            && r.value.actionCounter == 0 && r.value.pendingUno.None? && r.value.preUnoByAction.None?)
      && (r.Success? && 1 <= CardsToDeal(cardsPerPlayer) && |players| * CardsToDeal(cardsPerPlayer) < |CanonicalDeck()| ==>
            r.value.Settled())
  {
    var sh := if shuffler.Some? then shuffler.value else KeepOrder;
    r := NewRound(players, dealer, sh, if cardsPerPlayer.Some? then cardsPerPlayer.value else DefaultCardsPerPlayer);
  }

  /** The discard pile of a memento, which lists it top first, rebuilt by adding its cards
      from the bottom up without naming a colour. */
  method RebuildDiscard(topFirst: seq<Card>) returns (pile: DiscardPileImpl)
    ensures fresh(pile) && pile.cards == Reversed(topFirst) && pile.currentColor == PileColor(pile.cards)
  {
    pile := new DiscardPileImpl();
    var i := |topFirst|;
    while i > 0
      invariant 0 <= i <= |topFirst|
      invariant fresh(pile)
      invariant pile.cards == Reversed(topFirst[i..]) && pile.currentColor == PileColor(pile.cards)
    {
      i := i - 1;
      ghost var below := pile.cards;
      pile.Add(topFirst[i], None);
      ReversedCons(topFirst[i], topFirst[i + 1..]);
      assert topFirst[i..] == [topFirst[i]] + topFirst[i + 1..];
      assert pile.cards[..|below|] == below;
    }
    assert topFirst[0..] == topFirst;
  }

  lemma ReversedCons(x: Card, s: seq<Card>)
    ensures Reversed([x] + s) == Reversed(s) + [x]
  {
    var a, b := Reversed([x] + s), Reversed(s) + [x];
    assert |a| == |b|;
    forall j | 0 <= j < |a|
      ensures a[j] == b[j]
    {
      if j < |s| {
        assert a[j] == ([x] + s)[|s| - j];
      }
    }
  }

  /** `createRoundFromMemento`: a round in the state a memento describes, after the checks of
      `ValidateMemento`; without a shuffler, later reshuffles keep the cards in order. */
  method CreateRoundFromMemento(m: RoundMemento, shuffler: Option<Shuffler>) returns (r: Result<RoundImpl, RestoreError>)
    requires shuffler.Some? ==> Permutes(shuffler.value)
    ensures r.Success? <==> Restore(m).Success?
    ensures r.Failure? ==> Restore(m) == Failure(r.error)
    ensures r.Success? ==>
      && fresh(r.value) && r.value.Valid() && r.value.State() == Restore(m).value
      && r.value.shuffler == (if shuffler.Some? then shuffler.value else KeepOrder)
      && r.value.actionCounter == 0 && r.value.pendingUno.None? && r.value.preUnoByAction.None?
    ensures r.Success? ==> r.value.Settled()
  {
    var checked := ValidateMemento(m);
    if checked.Fail? {
      return Failure(checked.error);
    }
    var sh := if shuffler.Some? then shuffler.value else KeepOrder;
    var pile := RebuildDiscard(m.discardPile);
    var given := GivenColor(m);
    if given.Some? {
      pile.currentColor := ParseColor(given.value);
    }
    RestoredColorConsistent(m, pile.cards, pile.currentColor);
    var deck := new DeckImpl(m.drawPile);
    var turn: nat := if m.playerInTurn.Some? then m.playerInTurn.value else 0;
    var finished := CountEmpty(m.hands) == 1;
    CountEmptyZero(m.hands);
    var round := new RoundImpl.Restored(m.players, m.dealer, sh, m.hands, turn, DirectionOf(m.currentDirection), deck, pile, finished);
    return Success(round);
  }

  /** The colour a restored discard pile ends with fits its top card. */
  lemma RestoredColorConsistent(m: RoundMemento, cards: seq<Card>, color: Option<Color>)
    requires ValidateMemento(m).Pass? && cards == Reversed(m.discardPile)
    requires color == if GivenColor(m).Some? then ParseColor(GivenColor(m).value) else PileColor(cards)
    ensures cards != [] && color.Some?
    ensures !cards[|cards| - 1].IsWild() ==> color == Some(cards[|cards| - 1].color)
  {
    var top := cards[|cards| - 1];
    assert top == m.discardPile[0];
    if GivenColor(m).Some? && !top.IsWild() {
      ParseColorName(top.color);
    }
  }
}
