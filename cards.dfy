/** Cards, the rank and suit order tables, and the placement rule of move_card. */
module Cards {

  datatype Option<T> = None | Some(value: T)

  /** The order tables: ten is written '0'; the suit order puts the red suits
      (diamonds, hearts) at even positions and the black ones at odd positions. */
  const RankOrder: seq<char> := "A234567890JQK"
  const SuitOrder: seq<char> := "DCHS"

  /** A card as the program stores it: rank letter, suit letter, face flag. */
  datatype CardType = CardType(rank: char, suit: char, faceup: bool)

  /** The letters of the two tables. */
  predicate IsRank(ch: char) {
    ch == 'A' || ch == '2' || ch == '3' || ch == '4' || ch == '5' || ch == '6' || ch == '7'
    || ch == '8' || ch == '9' || ch == '0' || ch == 'J' || ch == 'Q' || ch == 'K'
  }

  predicate IsSuit(ch: char) {
    ch == 'D' || ch == 'C' || ch == 'H' || ch == 'S'
  }

  /** Every card the program ever places in a pile has a rank and a suit from the tables. */
  type Card = c: CardType | IsRank(c.rank) && IsSuit(c.suit)
    witness CardType('A', 'D', false)

  /** The value get_rank_value gives a card: its position in the rank table,
      A is 0, ten is 9, K is 12. */
  function RankValue(c: Card): (r: nat)
    ensures r < |RankOrder| && RankOrder[r] == c.rank
  {
    match c.rank
    case 'A' => 0 case '2' => 1 case '3' => 2 case '4' => 3 case '5' => 4
    case '6' => 5 case '7' => 6 case '8' => 7 case '9' => 8 case '0' => 9
    case 'J' => 10 case 'Q' => 11 case _ => 12
  }

  /** The value get_suit_value gives a card: D 0, C 1, H 2, S 3. */
  function SuitValue(c: Card): (r: nat)
    ensures r < |SuitOrder| && SuitOrder[r] == c.suit
  {
    match c.suit
    case 'D' => 0 case 'C' => 1 case 'H' => 2 case _ => 3
  }

  predicate IsRed(c: Card) {
    c.suit == 'D' || c.suit == 'H'
  }

  function FaceUp(c: Card, up: bool): (r: Card)
    ensures r.rank == c.rank && r.suit == c.suit && r.faceup == up
  {
    c.(faceup := up)
  }

  /** get_rank_value: a linear scan of the rank table. The source's bound is
      13 inclusive; the scan always stops at a table entry because every card
      has a rank from the table. */
  method GetRankValue(card: Card) returns (r: int)
    ensures 0 <= r < 13 && RankOrder[r] == card.rank
    ensures r == RankValue(card)
  {
    TablesDistinct();
    var i := 0;
    while i <= 13
      invariant 0 <= i < 13
      invariant forall j :: 0 <= j < i ==> RankOrder[j] != card.rank
      invariant card.rank in RankOrder[i..]
    {
      if card.rank == RankOrder[i] {
        return i;
      }
      i := i + 1;
    }
    assert false;
  }

  /** get_suit_value: a linear scan of the suit table. */
  method GetSuitValue(card: Card) returns (r: int)
    ensures 0 <= r < 4 && SuitOrder[r] == card.suit
    ensures r == SuitValue(card)
  {
    TablesDistinct();
    var i := 0;
    while i < 4
      invariant 0 <= i < 4
      invariant forall j :: 0 <= j < i ==> SuitOrder[j] != card.suit
      invariant card.suit in SuitOrder[i..]
    {
      if card.suit == SuitOrder[i] {
        return i;
      }
      i := i + 1;
    }
    assert false;
  }

  /** The tables hold each letter once. */
  lemma {:induction false} TablesDistinct()
    ensures forall i, j :: 0 <= i < j < |RankOrder| ==> RankOrder[i] != RankOrder[j]
    ensures forall i, j :: 0 <= i < j < |SuitOrder| ==> SuitOrder[i] != SuitOrder[j]
  {
  }

  /** The two rank values the rules name: an Ace is 0 and a King is 12. */
  lemma {:induction false} AceAndKing(c: Card)
    ensures c.rank == 'A' <==> RankValue(c) == 0
    ensures c.rank == 'K' <==> RankValue(c) == 12
  {
    var r := RankValue(c);
    assert RankOrder[0] == 'A' && RankOrder[12] == 'K';
    TablesDistinct();
  }

  /** Equal suit values mean equal suits. */
  lemma {:induction false} SuitValueInjective(a: Card, b: Card)
    ensures SuitValue(a) == SuitValue(b) <==> a.suit == b.suit
  {
    TablesDistinct();
  }

  /** The parity of a suit value is its colour. */
  lemma {:induction false} SuitParity(c: Card)
    ensures SuitValue(c) % 2 == 0 <==> IsRed(c)
  {
    var v := SuitValue(c);
    assert SuitOrder[v] == c.suit;
    assert v == 0 || v == 1 || v == 2 || v == 3;
  }

  /** The parity trick of move_card: the sum of two suit values is odd exactly
      when one card is red and the other black. */
  lemma {:induction false} ParityIsColour(a: Card, b: Card)
    ensures (SuitValue(a) + SuitValue(b)) % 2 != 0 <==> IsRed(a) != IsRed(b)
  {
    SuitParity(a);
    SuitParity(b);
  }

  /** The placement rule of move_card. `src` is the top card of the source,
      `fromStack` says whether the source is the stack, `dest` is the top card
      of the destination (None when it is empty) and `destc` the destination
      letter. The comparisons with a destination top card are false when the
      destination is empty. */
  predicate Legal(src: Card, fromStack: bool, dest: Option<Card>, destc: char): (r: bool)
    ensures r ==> (fromStack || src.faceup) && (destc == 't' || destc == 'f' || destc == 'w')
    ensures r && dest.None? && destc == 't' ==> src.rank == 'K'
    ensures r && dest.None? && destc == 'f' ==> src.rank == 'A'
  {
    AceAndKing(src);
    (fromStack || src.faceup) &&
    if destc == 't' then
      (dest.Some? && RankValue(src) == RankValue(dest.value) - 1
                  && (SuitValue(src) + SuitValue(dest.value)) % 2 != 0)
      || (RankValue(src) == 12 && dest.None?)
    else if destc == 'f' then
      (RankValue(src) == 0 && dest.None?)
      || (dest.Some? && RankValue(src) == RankValue(dest.value) + 1
                     && SuitValue(src) == SuitValue(dest.value))
    else
      destc == 'w'
  }

  /** Tableau destination: build down by one rank in the other colour, or a
      King on an empty pile; a face-down card moves only from the stack. */
  lemma {:induction false} TableauRule(src: Card, fromStack: bool, dest: Option<Card>)
    ensures Legal(src, fromStack, dest, 't') <==>
      (fromStack || src.faceup) &&
      ((dest.Some? && RankValue(src) + 1 == RankValue(dest.value) && IsRed(src) != IsRed(dest.value))
       || (src.rank == 'K' && dest.None?))
  {
    AceAndKing(src);
    var onTop := dest.Some? && RankValue(src) == RankValue(dest.value) - 1
                 && (SuitValue(src) + SuitValue(dest.value)) % 2 != 0;
    if dest.Some? {
      ParityIsColour(src, dest.value);
      assert onTop <==> RankValue(src) + 1 == RankValue(dest.value) && IsRed(src) != IsRed(dest.value);
    }
    assert Legal(src, fromStack, dest, 't') <==>
      (fromStack || src.faceup) && (onTop || (RankValue(src) == 12 && dest.None?));
  }

  /** Foundation destination: an Ace on an empty pile, or the next rank of the
      same suit. */
  lemma {:induction false} FoundationRule(src: Card, fromStack: bool, dest: Option<Card>)
    ensures Legal(src, fromStack, dest, 'f') <==>
      (fromStack || src.faceup) &&
      ((src.rank == 'A' && dest.None?)
       || (dest.Some? && RankValue(src) == RankValue(dest.value) + 1 && src.suit == dest.value.suit))
  {
    AceAndKing(src);
    if dest.Some? {
      SuitValueInjective(src, dest.value);
    }
  }

  /** Waste letter: no placement test at all; any other letter: never legal. */
  lemma {:induction false} OtherLetters(src: Card, fromStack: bool, dest: Option<Card>, destc: char)
    ensures Legal(src, fromStack, dest, 'w') <==> (fromStack || src.faceup)
    ensures destc != 't' && destc != 'f' && destc != 'w' ==> !Legal(src, fromStack, dest, destc)
  {
  }
}
