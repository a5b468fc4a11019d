/**
 * Cards, colours, the canonical 108-card deck, the plain-record memento of a
 * card sequence, and the `ArrayDeck` class (src/model/deck.ts).
 */
module Deck {
  import opened Common

  datatype Color = Blue | Green | Red | Yellow

  /** The colours in the order the canonical deck lists them. */
  const Colors: seq<Color> := [Blue, Green, Red, Yellow]

  type Digit = n: int | 0 <= n <= 9

  /** The six card kinds; wild cards carry no colour. */
  datatype Card =
    | Numbered(color: Color, number: Digit)
    | Skip(color: Color)
    | Reverse(color: Color)
    | Draw(color: Color)
    | Wild
    | WildDraw
  {
    predicate IsWild() { Wild? || WildDraw? }
    predicate IsAction() { Skip? || Reverse? || Draw? }
  }

  /** An injected, in-place shuffling function, seen as the sequence it leaves behind. */
  type Shuffler = seq<Card> -> seq<Card>

  /** The contract a shuffler must keep: it only rearranges the cards it is given. */
  ghost predicate Permutes(f: Shuffler) {
    forall s: seq<Card> :: multiset(f(s)) == multiset(s)
  }

  ghost predicate IsIdentity(f: Shuffler) {
    forall s: seq<Card> :: f(s) == s
  }

  function HasColor(card: Card, color: Color): (r: bool)
    ensures card.IsWild() ==> !r
    ensures !card.IsWild() ==> (r <==> card.color == color)
  {
    !card.IsWild() && card.color == color
  }

  function HasNumber(card: Card, n: int): (r: bool)
    ensures r ==> card.Numbered?
    ensures card.Numbered? ==> (r <==> card.number == n)
  {
    card.Numbered? && card.number == n
  }

  // ---------------------------------------------------------------------------
  // The canonical deck

  /** `count` copies of `card`. */
  function Repeat(card: Card, count: nat): (r: seq<Card>)
    ensures |r| == count
    ensures forall i :: 0 <= i < count ==> r[i] == card
  {
    if count == 0 then [] else Repeat(card, count - 1) + [card]
  }

  /** The card at position `j` of one colour's block of 25: one 0, two each of 1-9,
      then two SKIP, two REVERSE and two DRAW. */
  function BlockCard(color: Color, j: nat): (c: Card)
    requires j < 25
    ensures HasColor(c, color)
  {
    if j == 0 then Numbered(color, 0)
    else if j <= 18 then Numbered(color, (j + 1) / 2)
    else if j <= 20 then Skip(color)
    else if j <= 22 then Reverse(color)
    else Draw(color)
  }

  /** How many copies of each card a full deck holds. */
  function Copies(c: Card): nat {
    match c
    case Numbered(_, n) => if n == 0 then 1 else 2
    case Skip(_) => 2
    case Reverse(_) => 2
    case Draw(_) => 2
    case Wild => 4
    case WildDraw => 4
  }

  function ColorIndex(color: Color): (i: nat)
    ensures i < |Colors| && Colors[i] == color
  {
    match color
    case Blue => 0
    case Green => 1
    case Red => 2
    case Yellow => 3
  }

  /** The card at position `i` of the canonical deck: four colour blocks of 25 in the
      order of `Colors`, then four WILD and four WILD DRAW. */
  function CanonicalCard(i: nat): (c: Card)
    requires i < 108
    ensures i < 100 <==> !c.IsWild()
  {
    if i >= 104 then WildDraw
    else if i >= 100 then Wild
    else if i >= 75 then BlockCard(Colors[3], i - 75)
    else if i >= 50 then BlockCard(Colors[2], i - 50)
    else if i >= 25 then BlockCard(Colors[1], i - 25)
    else BlockCard(Colors[0], i)
  }

  /** The first `k` cards of the canonical deck. */
  function DeckPrefix(k: nat): (r: seq<Card>)
    requires k <= 108
    ensures |r| == k
  {
    if k == 0 then [] else DeckPrefix(k - 1) + [CanonicalCard(k - 1)]
  }

  /** The number of cards in a full deck. */
  function DeckSize(): nat {
    108
  }

  function CanonicalDeck(): seq<Card> {
    DeckPrefix(DeckSize())
  }

  lemma {:induction false} DeckPrefixAt(k: nat, i: nat)
    requires i < k <= 108
    ensures DeckPrefix(k)[i] == CanonicalCard(i)
  {
    if i < k - 1 {
      DeckPrefixAt(k - 1, i);
    }
  }

  /** The deck holds 108 cards, laid out as `CanonicalCard` says. */
  lemma CanonicalDeckLayout()
    ensures |CanonicalDeck()| == 108
    ensures forall i :: 0 <= i < 108 ==> CanonicalDeck()[i] == CanonicalCard(i)
  {
    forall i | 0 <= i < 108
      ensures CanonicalDeck()[i] == CanonicalCard(i)
    {
      DeckPrefixAt(108, i);
    }
  }

  /** Position `j` of colour block `ci` is card `25 * ci + j` of the deck. */
  lemma DeckCardInBlock(ci: nat, j: nat)
    requires ci < 4 && j < 25
    ensures CanonicalCard(25 * ci + j) == BlockCard(Colors[ci], j)
  {
  }

  /** How many of the two positions `lo` and `lo + 1` lie below `k`. */
  function PairBelow(lo: int, k: int): int {
    if k <= lo then 0 else if k == lo + 1 then 1 else 2
  }

  /** `x` cut to the range `[0, hi]`. */
  function Clamp(x: int, hi: nat): nat {
    if x <= 0 then 0 else if x >= hi then hi else x
  }

  /** The copies of `c` among the first `k` cards of `color`'s block, in closed form. */
  function BlockCountBelow(color: Color, k: nat, c: Card): int {
    if c.IsWild() || c.color != color then 0
    else
      match c
      case Numbered(_, n) => if n == 0 then (if k >= 1 then 1 else 0) else PairBelow(2 * n - 1, k)
      case Skip(_) => PairBelow(19, k)
      case Reverse(_) => PairBelow(21, k)
      case _ => PairBelow(23, k)
  }

  /** The copies of `c` among the first `k` cards of the deck, in closed form. */
  function DeckCountBelow(k: nat, c: Card): int {
    match c
    case Wild => Clamp(k - 100, 4)
    case WildDraw => Clamp(k - 104, 4)
    case _ => BlockCountBelow(c.color, Clamp(k - 25 * ColorIndex(c.color), 25), c)
  }

  lemma BlockCountStep(color: Color, k: nat, c: Card)
    requires k < 25
    ensures BlockCountBelow(color, k + 1, c) == BlockCountBelow(color, k, c) + if BlockCard(color, k) == c then 1 else 0
  {
    if 1 <= k <= 18 {
      assert BlockCard(color, k) == Numbered(color, (k + 1) / 2);
      assert k == 2 * ((k + 1) / 2) - 1 || k == 2 * ((k + 1) / 2);
    }
  }

  lemma DeckCountStep(k: nat, c: Card)
    requires k < 108
    ensures DeckCountBelow(k + 1, c) == DeckCountBelow(k, c) + if CanonicalCard(k) == c then 1 else 0
  {
    if !c.IsWild() {
      var cc := ColorIndex(c.color);
      if k < 100 {
        var ci := if k < 25 then 0 else if k < 50 then 1 else if k < 75 then 2 else 3;
        var j := k - 25 * ci;
        DeckCardInBlock(ci, j);
        if cc == ci {
          assert Clamp(k - 25 * cc, 25) == j && Clamp(k + 1 - 25 * cc, 25) == j + 1;
          BlockCountStep(c.color, j, c);
        } else {
          assert Colors[ci] != c.color;
          assert HasColor(CanonicalCard(k), Colors[ci]);
          if cc < ci {
            assert Clamp(k - 25 * cc, 25) == 25 && Clamp(k + 1 - 25 * cc, 25) == 25;
          } else {
            assert Clamp(k - 25 * cc, 25) == 0 && Clamp(k + 1 - 25 * cc, 25) == 0;
          }
        }
      } else {
        assert Clamp(k - 25 * cc, 25) == 25 && Clamp(k + 1 - 25 * cc, 25) == 25;
      }
    }
  }

  lemma {:induction false} DeckPrefixCount(k: nat, c: Card)
    requires k <= 108
    ensures multiset(DeckPrefix(k))[c] == DeckCountBelow(k, c)
  {
    if k > 0 {
      DeckPrefixCount(k - 1, c);
      DeckCountStep(k - 1, c);
    }
  }

  /** Per card, the deck holds exactly the copies the rules prescribe. */
  lemma CanonicalDeckCounts(c: Card)
    ensures multiset(CanonicalDeck())[c] == Copies(c)
  {
    DeckPrefixCount(108, c);
    DeckCountFull(c);
  }

  lemma DeckCountFull(c: Card)
    ensures DeckCountBelow(108, c) == Copies(c)
  {
    if !c.IsWild() {
      assert Clamp(108 - 25 * ColorIndex(c.color), 25) == 25;
    }
  }

  /** Pushes `count` copies of `card` onto `list`. */
  method AddMultipleCards(list: seq<Card>, card: Card, count: nat) returns (r: seq<Card>)
    ensures r == list + Repeat(card, count)
  {
    r := list;
    for i := 0 to count
      invariant r == list + Repeat(card, i)
    {
      r := r + [card];
    }
  }

  /** A run of `count` equal cards of the deck extends its prefix by the same run. */
  lemma {:induction false} DeckPrefixRun(k: nat, card: Card, count: nat)
    requires k + count <= 108
    requires forall i :: k <= i < k + count ==> CanonicalCard(i) == card
    ensures DeckPrefix(k) + Repeat(card, count) == DeckPrefix(k + count)
  {
    if count > 0 {
      DeckPrefixRun(k, card, count - 1);
      assert DeckPrefix(k) + Repeat(card, count) == DeckPrefix(k) + Repeat(card, count - 1) + [card];
    }
  }

  lemma DeckPrefixPush(k: nat, card: Card)
    requires k < 108 && CanonicalCard(k) == card
    ensures DeckPrefix(k) + [card] == DeckPrefix(k + 1)
  {
  }

  /** Pushes one colour's block: one 0, two each of 1-9, two SKIP, two REVERSE, two DRAW. */
  method AddColorBlock(list: seq<Card>, ci: nat) returns (r: seq<Card>)
    requires ci < 4 && list == DeckPrefix(25 * ci)
    ensures r == DeckPrefix(25 * ci + 25)
  {
    var color := Colors[ci];
    DeckCardInBlock(ci, 0);
    DeckPrefixPush(25 * ci, Numbered(color, 0));
    r := list + [Numbered(color, 0)];
    r := AddNumberPairs(r, ci);
    AddActionPair(ci, 19, Skip(color));
    r := AddMultipleCards(r, Skip(color), 2);
    AddActionPair(ci, 21, Reverse(color));
    r := AddMultipleCards(r, Reverse(color), 2);
    AddActionPair(ci, 23, Draw(color));
    r := AddMultipleCards(r, Draw(color), 2);
  }

  /** The inner loop of the deck builder: two of each number 1-9 of one colour. */
  method AddNumberPairs(list: seq<Card>, ci: nat) returns (r: seq<Card>)
    requires ci < 4 && list == DeckPrefix(25 * ci + 1)
    ensures r == DeckPrefix(25 * ci + 19)
  {
    var color := Colors[ci];
    r := list;
    for n := 1 to 10
      invariant r == DeckPrefix(25 * ci + 2 * n - 1)
    {
      NumberPairStep(ci, n);
      r := r + [Numbered(color, n)];
      r := r + [Numbered(color, n)];
    }
  }

  lemma NumberPairStep(ci: nat, n: nat)
    requires ci < 4 && 1 <= n <= 9
    ensures DeckPrefix(25 * ci + 2 * n - 1) + [Numbered(Colors[ci], n)] + [Numbered(Colors[ci], n)]
      == DeckPrefix(25 * ci + 2 * n + 1)
  {
    var card := Numbered(Colors[ci], n);
    assert BlockCard(Colors[ci], 2 * n - 1) == card && BlockCard(Colors[ci], 2 * n) == card;
    BlockPush(ci, 2 * n - 1, card);
    BlockPush(ci, 2 * n, card);
  }

  lemma AddActionPair(ci: nat, j: nat, card: Card)
    requires ci < 4 && j + 1 < 25
    requires BlockCard(Colors[ci], j) == card && BlockCard(Colors[ci], j + 1) == card
    ensures DeckPrefix(25 * ci + j) + Repeat(card, 2) == DeckPrefix(25 * ci + j + 2)
  {
    BlockPush(ci, j, card);
    BlockPush(ci, j + 1, card);
    assert Repeat(card, 2) == [card] + [card];
    AppendAssoc(DeckPrefix(25 * ci + j), [card], [card]);
  }

  /** Card `j` of colour block `ci` extends the deck prefix that ends just before it. */
  lemma BlockPush(ci: nat, j: nat, card: Card)
    requires ci < 4 && j < 25 && BlockCard(Colors[ci], j) == card
    ensures DeckPrefix(25 * ci + j) + [card] == DeckPrefix(25 * ci + j + 1)
  {
    DeckCardInBlock(ci, j);
    DeckPrefixPush(25 * ci + j, card);
  }

  method CreateInitialDeck() returns (d: ArrayDeck)
    ensures fresh(d) && d.cards == CanonicalDeck()
  {
    var list: seq<Card> := [];
    for ci := 0 to |Colors|
      invariant list == DeckPrefix(25 * ci)
    {
      list := AddColorBlock(list, ci);
    }
    DeckPrefixRun(100, Wild, 4);
    list := AddMultipleCards(list, Wild, 4);
    DeckPrefixRun(104, WildDraw, 4);
    list := AddMultipleCards(list, WildDraw, 4);
    d := new ArrayDeck(list);
  }

  // ---------------------------------------------------------------------------
  // Memento records

  const NumberedName: string := "NUMBERED"
  const SkipName: string := "SKIP"
  const ReverseName: string := "REVERSE"
  const DrawName: string := "DRAW"
  const WildName: string := "WILD"
  const WildDrawName: string := "WILD DRAW"

  function TypeName(c: Card): string {
    match c
    case Numbered(_, _) => NumberedName
    case Skip(_) => SkipName
    case Reverse(_) => ReverseName
    case Draw(_) => DrawName
    case Wild => WildName
    case WildDraw => WildDrawName
  }

  /** A plain `{type?, color?, number?}` record; an absent field is `None`. */
  datatype CardRecord = CardRecord(kind: Option<string>, color: Option<Color>, number: Option<int>)

  /** A shallow copy `{ ...card }` of a card. */
  function ToRecord(c: Card): CardRecord {
    match c
    case Numbered(color, n) => CardRecord(Some(NumberedName), Some(color), Some(n))
    case Skip(color) => CardRecord(Some(SkipName), Some(color), None)
    case Reverse(color) => CardRecord(Some(ReverseName), Some(color), None)
    case Draw(color) => CardRecord(Some(DrawName), Some(color), None)
    case Wild => CardRecord(Some(WildName), None, None)
    case WildDraw => CardRecord(Some(WildDrawName), None, None)
  }

  function Records(cards: seq<Card>): (r: seq<CardRecord>)
    ensures |r| == |cards|
    ensures forall i :: 0 <= i < |cards| ==> r[i] == ToRecord(cards[i])
  {
    if cards == [] then [] else [ToRecord(cards[0])] + Records(cards[1..])
  }

  /** Why a record was refused; `at` is its position in the memento. */
  datatype DeckError =
    | MissingColor(kind: string, at: int)
    | InvalidNumbered(at: int)
    | IllegalNumber(number: int, at: int)
    | UnknownType(at: int)

  predicate IsColoredName(kind: string) {
    kind == NumberedName || kind == SkipName || kind == ReverseName || kind == DrawName
  }

  predicate IsTypeName(kind: string) {
    IsColoredName(kind) || kind == WildName || kind == WildDrawName
  }

  function ValidateColor(raw: CardRecord, kind: string, index: int): (r: Result<Color, DeckError>)
    ensures r == if raw.color.Some? then Success(raw.color.value) else Failure(MissingColor(kind, index))
  {
    match raw.color
    case None => Failure(MissingColor(kind, index))
    case Some(color) => Success(color)
  }

  /** One step of the memento `map`: the card a record stands for, or why it is refused. */
  function ParseCard(raw: CardRecord, index: int): (r: Result<Card, DeckError>)
    ensures r.Failure? ==> r.error.at == index
  {
    if raw.kind == Some(NumberedName) then
      match ValidateColor(raw, NumberedName, index)
      case Failure(e) => Failure(e)
      case Success(color) =>
        if raw.number.None? then Failure(InvalidNumbered(index))
        else if raw.number.value < 0 || raw.number.value > 9 then Failure(IllegalNumber(raw.number.value, index))
        else Success(Numbered(color, raw.number.value))
    else if raw.kind == Some(SkipName) || raw.kind == Some(ReverseName) || raw.kind == Some(DrawName) then
      match ValidateColor(raw, raw.kind.value, index)
      case Failure(e) => Failure(e)
      case Success(color) =>
        if raw.kind == Some(SkipName) then Success(Skip(color))
        else if raw.kind == Some(ReverseName) then Success(Reverse(color))
        else Success(Draw(color))
    else if raw.kind == Some(WildName) then Success(Wild)
    else if raw.kind == Some(WildDrawName) then Success(WildDraw)
    else Failure(UnknownType(index))
  }

  /** A record is refused exactly when its type is missing or unknown, a coloured type lacks
      its colour, or a NUMBERED record lacks a number in 0..9; an accepted record yields the
      card with the record's type, colour and number. */
  lemma ParseCardSpec(raw: CardRecord, index: int)
    ensures ParseCard(raw, index).Failure? <==>
      || raw.kind.None? || !IsTypeName(raw.kind.value)
      || (IsColoredName(raw.kind.value) && raw.color.None?)
      || (raw.kind.value == NumberedName && (raw.number.None? || !(0 <= raw.number.value <= 9)))
    ensures ParseCard(raw, index).Success? ==> Some(TypeName(ParseCard(raw, index).value)) == raw.kind
    ensures ParseCard(raw, index).Success? && !ParseCard(raw, index).value.IsWild() ==>
      Some(ParseCard(raw, index).value.color) == raw.color
    ensures ParseCard(raw, index).Success? && ParseCard(raw, index).value.Numbered? ==>
      Some(ParseCard(raw, index).value.number as int) == raw.number
  {
  }

  /** The memento `map` from position `from` on: all cards, or the first refusal. */
  function ParseFrom(m: seq<CardRecord>, from: nat): (r: Result<seq<Card>, DeckError>)
    requires from <= |m|
    decreases |m| - from
    ensures r.Success? <==> forall j :: from <= j < |m| ==> ParseCard(m[j], j).Success?
    ensures r.Success? ==> |r.value| == |m| - from
    ensures r.Success? ==> forall j :: from <= j < |m| ==> ParseCard(m[j], j) == Success(r.value[j - from])
    ensures r.Failure? ==> from <= r.error.at < |m| && ParseCard(m[r.error.at], r.error.at) == Failure(r.error)
    ensures r.Failure? ==> forall j :: from <= j < r.error.at ==> ParseCard(m[j], j).Success?
  {
    if from == |m| then Success([])
    else
      match ParseCard(m[from], from)
      case Failure(e) => Failure(e)
      case Success(c) =>
        match ParseFrom(m, from + 1)
        case Failure(e) => Failure(e)
        case Success(rest) => Success([c] + rest)
  }

  function ParseRecords(m: seq<CardRecord>): (r: Result<seq<Card>, DeckError>)
    ensures r.Success? ==> |r.value| == |m|
    ensures r.Success? ==> forall j :: 0 <= j < |m| ==> ParseCard(m[j], j) == Success(r.value[j])
    ensures r.Failure? ==> 0 <= r.error.at < |m| && ParseCard(m[r.error.at], r.error.at) == Failure(r.error)
    ensures r.Failure? ==> forall j :: 0 <= j < r.error.at ==> ParseCard(m[j], j).Success?
  {
    ParseFrom(m, 0)
  }

  lemma ParseToRecord(c: Card, index: int)
    ensures ParseCard(ToRecord(c), index) == Success(c)
  {
  }

  /** Importing a deck's own memento gives back its cards, in order. */
  lemma ParseRecordsRoundTrip(cards: seq<Card>)
    ensures ParseRecords(Records(cards)) == Success(cards)
  {
    var m := Records(cards);
    forall j | 0 <= j < |m|
      ensures ParseCard(m[j], j) == Success(cards[j])
    {
      ParseToRecord(cards[j], j);
    }
    var r := ParseRecords(m);
    assert r.Success?;
    assert r.value == cards;
  }

  /** Builds a deck from a memento, refusing the first bad record. */
  method FromMemento(m: seq<CardRecord>) returns (r: Result<ArrayDeck, DeckError>)
    ensures r.Success? <==> ParseRecords(m).Success?
    ensures r.Success? ==> fresh(r.value) && r.value.cards == ParseRecords(m).value
    ensures r.Failure? ==> r.error == ParseRecords(m).error
  {
    match ParseRecords(m)
    case Failure(e) =>
      r := Failure(e);
    case Success(cards) =>
      var d := new ArrayDeck(cards);
      r := Success(d);
  }

  // ---------------------------------------------------------------------------
  // Filtering

  function FilterCards(s: seq<Card>, pred: Card -> bool): (r: seq<Card>)
    ensures |r| <= |s|
  {
    if s == [] then []
    else (if pred(s[0]) then [s[0]] else []) + FilterCards(s[1..], pred)
  }

  /** `filter` keeps exactly the cards that satisfy `pred`, each as often as it occurs. */
  lemma {:induction false} FilterCardsKeeps(s: seq<Card>, pred: Card -> bool)
    ensures var r := FilterCards(s, pred);
      && (forall i :: 0 <= i < |r| ==> pred(r[i]))
      && (forall c :: multiset(r)[c] == if pred(c) then multiset(s)[c] else 0)
  {
    if s != [] {
      assert s == [s[0]] + s[1..];
      FilterCardsKeeps(s[1..], pred);
    }
  }

  /** Filtering distributes over concatenation, so the kept cards stay in their order. */
  lemma {:induction false} FilterCardsAppend(a: seq<Card>, b: seq<Card>, pred: Card -> bool)
    ensures FilterCards(a + b, pred) == FilterCards(a, pred) + FilterCards(b, pred)
  {
    if a == [] {
      assert a + b == b;
      assert FilterCards(a, pred) == [];
    } else {
      var x, rest := a[0], a[1..];
      var head := if pred(x) then [x] else [];
      assert a == [x] + rest && a + b == [x] + (rest + b);
      FilterCardsCons(x, rest + b, pred);
      FilterCardsCons(x, rest, pred);
      FilterCardsAppend(rest, b, pred);
      var l, r := FilterCards(rest, pred), FilterCards(b, pred);
      assert FilterCards(a + b, pred) == head + (l + r);
      assert FilterCards(a, pred) == head + l;
      AppendAssoc(head, l, r);
    }
  }

  /** Filtering a sequence that starts with `x`. */
  lemma FilterCardsCons(x: Card, s: seq<Card>, pred: Card -> bool)
    ensures FilterCards([x] + s, pred) == (if pred(x) then [x] else []) + FilterCards(s, pred)
  {
    assert ([x] + s)[0] == x && ([x] + s)[1..] == s;
  }

  class ArrayDeck {
    var cards: seq<Card>

    constructor (cards: seq<Card>)
      ensures this.cards == cards
    {
      this.cards := cards;
    }

    function Size(): nat
      reads this
    {
      |cards|
    }

    /** Removes and returns the front card; an empty deck stays empty. */
    method Deal() returns (c: Option<Card>)
      modifies this
      ensures old(cards) == [] ==> c.None? && cards == []
      ensures old(cards) != [] ==> c == Some(old(cards)[0]) && cards == old(cards)[1..]
      ensures old(cards) != [] ==> |cards| == |old(cards)| - 1
    {
      if cards == [] {
        c := None;
      } else {
        c := Some(cards[0]);
        cards := cards[1..];
      }
    }

    /** Hands the cards to the shuffler, which rearranges them in place. */
    method Shuffle(shuffler: Shuffler)
      modifies this
      ensures cards == shuffler(old(cards))
      ensures Permutes(shuffler) ==> multiset(cards) == multiset(old(cards)) && |cards| == |old(cards)|
    {
      cards := shuffler(cards);
      assert Permutes(shuffler) ==> multiset(cards) == multiset(old(cards));
      assert |multiset(cards)| == |cards|;
    }

    /** A new deck of the matching cards; this deck is left as it is. */
    method Filter(pred: Card -> bool) returns (d: ArrayDeck)
      ensures fresh(d) && d.cards == FilterCards(cards, pred)
    {
      d := new ArrayDeck(FilterCards(cards, pred));
    }

    function ToMemento(): (m: seq<CardRecord>)
      reads this
      ensures ParseRecords(m) == Success(cards)
    {
      ParseRecordsRoundTrip(cards);
      Records(cards)
    }
  }
}
