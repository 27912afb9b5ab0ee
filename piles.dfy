/** struct pile_type: a fixed buffer of 52 cards and the index of the first
    free slot. Slots at and above `pointer` keep whatever they last held. */
module Piles {
  import opened Cards

  const Capacity: nat := 52

  /** A placeholder for the zero bytes of a slot nothing has written yet;
      zero bytes are no card. No command reads a slot before writing it: the
      stack reads only slots init_deal filled, the other piles only slots
      below their pointers. */
  const Blank: Card := CardType('A', 'D', false)

  class Pile {
    const cards: array<Card>
    var pointer: int

    ghost predicate Valid()
      reads this
    {
      cards.Length == Capacity && 0 <= pointer <= Capacity
    }

    /** The cards in play, bottom to top. */
    ghost function Contents(): (s: seq<Card>)
      reads this, cards
      requires Valid()
      ensures |s| == pointer
    {
      cards[..pointer]
    }

    /** The top card, None for an empty pile. */
    function Top(): (t: Option<Card>)
      reads this, cards
      requires Valid()
      ensures t.None? <==> pointer == 0
      ensures t.Some? ==> t.value == Contents()[pointer - 1]
    {
      if pointer == 0 then None else Some(cards[pointer - 1])
    }

    /** An empty pile. The C globals start as zero bytes; here every slot
        holds the placeholder Blank instead. */
    constructor ()
      ensures Valid() && pointer == 0 && fresh(cards)
    {
      cards := new Card[Capacity](_ => Blank);
      pointer := 0;
    }

    /** push: write the card into the first free slot and advance. */
    method Push(card: Card)
      requires Valid() && pointer < Capacity
      modifies this, cards
      ensures Valid()
      ensures pointer == old(pointer) + 1
      ensures cards[..] == old(cards[..])[old(pointer) := card]
      ensures Contents() == old(Contents()) + [card]
    {
      cards[pointer] := card;
      pointer := pointer + 1;
    }

    /** pop: step back and return the card there; the slot keeps the card. */
    method Pop() returns (card: Card)
      requires Valid() && pointer > 0
      modifies this
      ensures Valid()
      ensures pointer == old(pointer) - 1
      ensures card == old(Contents())[pointer]
      ensures Contents() == old(Contents())[..pointer]
    {
      pointer := pointer - 1;
      card := cards[pointer];
    }
  }
}
