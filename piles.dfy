/**
 * The pieces of src/model/round.ts below the round itself: card scores, rebuilding a
 * card from its record, the round's draw pile (`DeckImpl`) and its discard pile
 * (`DiscardPileImpl`), which remembers the colour in force.
 */
module Piles {
  import opened Common
  import opened Deck

  /** The points a card still held at round end is worth. */
  function CardScore(c: Card): (s: nat)
    ensures c.Numbered? ==> s == c.number
    ensures c.IsAction() ==> s == 20
    ensures c.IsWild() ==> s == 50
    ensures s <= 50 && (s < 20 <==> c.Numbered?)
  {
    match c
    case Numbered(_, n) => n
    case Skip(_) => 20
    case Reverse(_) => 20
    case Draw(_) => 20
    case Wild => 50
    case WildDraw => 50
  }

  /** A record that names a card type and carries the fields that type needs. */
  predicate CardShaped(r: CardRecord) {
    ParseCard(r, 0).Success?
  }

  /** Rebuilds a card from its record by copying the type and the fields it needs. */
  function CreateCardFromMemento(r: CardRecord): (c: Card)
    requires CardShaped(r)
    ensures Some(TypeName(c)) == r.kind
    ensures !c.IsWild() ==> Some(c.color) == r.color
    ensures c.Numbered? ==> Some(c.number as int) == r.number
  {
    if r.kind == Some(NumberedName) then Numbered(r.color.value, r.number.value)
    else if r.kind == Some(SkipName) then Skip(r.color.value)
    else if r.kind == Some(ReverseName) then Reverse(r.color.value)
    else if r.kind == Some(DrawName) then Draw(r.color.value)
    else if r.kind == Some(WildName) then Wild
    else WildDraw
  }

  /** A card survives the trip through its own record unchanged. */
  lemma CreateCardRoundTrip(c: Card)
    ensures CardShaped(ToRecord(c)) && CreateCardFromMemento(ToRecord(c)) == c
  {
    ParseToRecord(c, 0);
  }

  /** The cards of records that all parse, rebuilt one by one (the `map` over a memento). */
  function CreateCards(rs: seq<CardRecord>): (cs: seq<Card>)
    requires forall i :: 0 <= i < |rs| ==> CardShaped(rs[i])
    ensures |cs| == |rs|
    ensures forall i :: 0 <= i < |rs| ==> cs[i] == CreateCardFromMemento(rs[i])
  {
    if rs == [] then [] else CreateCards(rs[..|rs| - 1]) + [CreateCardFromMemento(rs[|rs| - 1])]
  }

  /** Rebuilding the records of a card sequence gives the sequence back. */
  lemma CreateCardsRecords(cards: seq<Card>)
    ensures forall i :: 0 <= i < |cards| ==> CardShaped(Records(cards)[i])
    ensures CreateCards(Records(cards)) == cards
  {
    var rs := Records(cards);
    forall i | 0 <= i < |cards|
      ensures CardShaped(rs[i]) && CreateCardFromMemento(rs[i]) == cards[i]
    {
      CreateCardRoundTrip(cards[i]);
    }
  }

  /** The round's draw pile: dealt from the front, added to at the back. */
  class DeckImpl {
    var cards: seq<Card>

    constructor (cards: seq<Card>)
      ensures this.cards == cards
    {
      this.cards := cards;
    }

    function Size(): nat
      reads this
    {
      |cards|
    }

    /** Removes and returns the front card; an empty pile stays empty. */
    method Deal() returns (c: Option<Card>)
      modifies this
      ensures old(cards) == [] ==> c.None? && cards == []
      ensures old(cards) != [] ==> c == Some(old(cards)[0]) && cards == old(cards)[1..]
    {
      if cards == [] {
        c := None;
      } else {
        c := Some(cards[0]);
        cards := cards[1..];
      }
    }

    /** The front card, if any, without removing it. */
    function Peek(): (c: Option<Card>)
      reads this
      ensures c.Some? <==> |cards| > 0
      ensures c.Some? ==> c.value == cards[0] && c.value in multiset(cards)
    {
      if cards == [] then None else Some(cards[0])
    }

    method Add(card: Card)
      modifies this
      ensures cards == old(cards) + [card]
    {
      cards := cards + [card];
    }

    /** A new pile of the matching cards, in their order; this pile is left as it is. */
    method Filter(pred: Card -> bool) returns (d: DeckImpl)
      ensures fresh(d) && d.cards == FilterCards(cards, pred)
    {
      d := new DeckImpl(FilterCards(cards, pred));
    }

    /** Hands the cards to the shuffler, which rearranges them in place. */
    method Shuffle(shuffler: Shuffler)
      modifies this
      ensures cards == shuffler(old(cards))
      ensures Permutes(shuffler) ==> multiset(cards) == multiset(old(cards))
    {
      cards := shuffler(cards);
    }

    function ToMemento(): (m: seq<CardRecord>)
      reads this
      ensures |m| == |cards|
      ensures ParseRecords(m) == Success(cards)
    {
      ParseRecordsRoundTrip(cards);
      Records(cards)
    }

    function GetAllCards(): seq<Card>
      reads this
    {
      cards
    }
  }

  /** The discard pile: the top is the last card added; `currentColor` is the colour in force. */
  class DiscardPileImpl {
    var cards: seq<Card>
    var currentColor: Option<Color>

    constructor ()
      ensures cards == [] && currentColor == None
    {
      cards := [];
      currentColor := None;
    }

    function Size(): nat
      reads this
    {
      |cards|
    }

    function Top(): (c: Option<Card>)
      reads this
      ensures c.Some? <==> |cards| > 0
      ensures c.Some? ==> c.value == cards[|cards| - 1]
    {
      if |cards| > 0 then Some(cards[|cards| - 1]) else None
    }

    /** The colour in force agrees with the top card: a coloured top imposes its own colour,
        a wild top carries a named one, and an empty pile has none. */
    predicate ColorConsistent()
      reads this
    {
      && (cards == [] ==> currentColor.None?)
      && (cards != [] && !cards[|cards| - 1].IsWild() ==> currentColor == Some(cards[|cards| - 1].color))
      && (cards != [] && cards[|cards| - 1].IsWild() ==> currentColor.Some?)
    }

    /** Puts `card` on top; a named colour wins, otherwise a coloured card sets its own and a
        wild card leaves the colour as it was. */
    method Add(card: Card, color: Option<Color>)
      modifies this
      ensures cards == old(cards) + [card]
      ensures currentColor ==
        if color.Some? then color else if !card.IsWild() then Some(card.color) else old(currentColor)
      ensures old(ColorConsistent()) && (color.Some? <==> card.IsWild()) ==> ColorConsistent()
    {
      cards := cards + [card];
      if color.Some? {
        currentColor := color;
      } else if !card.IsWild() {
        currentColor := Some(card.color);
      }
    }

    function GetCurrentColor(): Option<Color>
      reads this
    {
      currentColor
    }

    /** The records of the pile, bottom first. */
    function ToMemento(): (m: seq<CardRecord>)
      reads this
      ensures |m| == |cards|
      ensures ParseRecords(m) == Success(cards)
    {
      ParseRecordsRoundTrip(cards);
      Records(cards)
    }

    function IsEmpty(): (b: bool)
      reads this
      ensures b <==> |cards| == 0
    {
      |cards| == 0
    }
  }
}
