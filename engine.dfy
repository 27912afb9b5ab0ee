/** The game state of solitaire.c (the global piles and the deck) and the
    engine that changes it: move_card, exec_input with its four command
    kinds, init_deal, the swap pass of shuffle and the win test of main.
    Each method is proved against the layout functions of Play: the layout
    the piles show afterwards is the one Play computes from the layout
    before. */
module Engine {
  import opened Cards
  import opened Piles
  import opened Rules
  import opened Command
  import opened Dealing
  import opened Play

  class Game {
    /** piles[0] is stack, piles[1] waste, piles[2 .. 9] tab[0 .. 6],
        piles[9 .. 13] fnd[0 .. 3], piles[13] temppile. */
    const piles: seq<Pile>
    const deck: array<Card>

    /** The piles and their buffers. */
    ghost const Repr: set<object>

    /** Fourteen distinct piles over fourteen distinct buffers, none of them the deck. */
    ghost predicate Valid()
      reads Repr
    {
      |piles| == 14 && deck.Length == 52 && deck !in Repr &&
      (forall i :: 0 <= i < 14 ==> piles[i] in Repr && piles[i].cards in Repr && piles[i].Valid()) &&
      (forall i, j :: 0 <= i < 14 && 0 <= j < 14 && i != j ==> piles[i] != piles[j] && piles[i].cards != piles[j].cards)
    }

    /** What the piles hold, bottom to top, in layout order. */
    ghost function View(): (v: seq<seq<Card>>)
      reads Repr
      requires Valid()
      ensures Shaped(v) && forall i :: 0 <= i < 14 ==> v[i] == piles[i].Contents()
    {
      seq(14, i requires 0 <= i < 14 && Valid() reads Repr => piles[i].Contents())
    }

    /** A game in progress as the code plays it (see Play.Running): the
        first 24 slots of the stack's buffer still hold the stack init_deal
        dealt from the deck, and the piles keep what Running asks. */
    ghost predicate Playing()
      reads Repr, deck
    {
      Valid() && piles[0].cards[..24] == StackDealt(deck[..]) && Running(View(), piles[0].cards[..])
    }

    /** The C globals start zeroed: every pile empty; the deck as its
        initialiser lists it. */
    constructor ()
      ensures Valid() && fresh(Repr) && fresh(deck)
      ensures View() == seq(14, i => []) && deck[..] == InitialDeck()
    {
      var ps: seq<Pile> := [];
      ghost var r: set<object> := {};
      while |ps| < 14
        invariant |ps| <= 14 && fresh(r)
        invariant forall i :: 0 <= i < |ps| ==> ps[i] in r && ps[i].cards in r
        invariant forall i :: 0 <= i < |ps| ==> ps[i].Valid() && ps[i].pointer == 0
        invariant forall i, j :: 0 <= i < |ps| && 0 <= j < |ps| && i != j ==> ps[i] != ps[j] && ps[i].cards != ps[j].cards
      {
        var p := new Pile();
        ps := ps + [p];
        r := r + {p, p.cards};
      }
      piles := ps;
      Repr := r;
      var d := InitialDeck();
      deck := new Card[52](i requires 0 <= i < 52 => d[i]);
    }

    /** move_card: the top card of pile a goes to pile b when the placement
        rule for destc accepts it. The push happens only then, so a full
        destination is allowed when the rule refuses. */
    method MoveCard(a: nat, b: nat, destc: char) returns (moved: bool)
      requires Valid() && a < 14 && b < 14 && a != b && piles[a].pointer > 0
      requires piles[b].pointer < Capacity ||
               !Legal(piles[a].Contents()[piles[a].pointer - 1], a == 0, piles[b].Top(), destc)
      modifies piles[a], piles[b], piles[b].cards
      ensures Valid()
      ensures (moved, View()) == MoveTop(old(View()), a, b, destc)
      ensures moved ==> piles[b].cards[..] == Placed(old(piles[b].cards[..]), old(piles[b].pointer),
                                                     old(piles[a].Contents())[old(piles[a].pointer) - 1], destc)
      ensures !moved ==> piles[b].cards[..] == old(piles[b].cards[..])
    {
      var src, dest := piles[a], piles[b];
      ghost var v := View();
      var cardSrc := src.cards[src.pointer - 1];
      moved := Allows(cardSrc, a == 0, dest.Top(), destc);
      if moved {
        ghost var buf, p := dest.cards[..], dest.pointer;
        Transfer(a, b, destc);
        PlacedIsPut(buf, p, cardSrc, destc);
        assert buf[..p] == v[b];
        assert piles[a].Contents() == v[a][..|v[a]| - 1];
        assert piles[b].Contents() == Put(v[b], cardSrc, destc);
      }
      assert forall i :: 0 <= i < 14 && i != a && i != b ==> View()[i] == v[i];
      Frame(v, View(), a, b);
      assert !moved ==> v[a := v[a]][b := v[b]] == v;
    }

    /** The tests of move_card, on the rank and suit values: a face-down
        card moves only from the stack; onto a tableau a card one rank lower
        and of the other colour, or a King onto an empty one; onto a
        foundation an Ace onto an empty one, or the next rank of the same
        suit; onto the waste anything. A comparison with the top card of an
        empty destination is false. */
    method Allows(cardSrc: Card, fromStack: bool, destTop: Option<Card>, destc: char) returns (ok: bool)
      ensures ok == Legal(cardSrc, fromStack, destTop, destc)
    {
      ok := false;
      if !fromStack && !cardSrc.faceup {
        return;
      }
      var rs := GetRankValue(cardSrc);
      var ss := GetSuitValue(cardSrc);
      var rd, sd := 0, 0;
      if destTop.Some? {
        rd := GetRankValue(destTop.value);
        sd := GetSuitValue(destTop.value);
      }
      if destc == 't' {
        if (destTop.Some? && rs == rd - 1 && (ss + sd) % 2 != 0) || (rs == 12 && destTop.None?) {
          ok := true;
        }
      } else if destc == 'f' {
        if rs == 0 && destTop.None? {
          ok := true;
        } else if destTop.Some? && rs == rd + 1 && ss == sd {
          ok := true;
        }
      } else if destc == 'w' {
        ok := true;
      }
    }

    /** push(pop(srcp), destp), and for the waste letter the card below the
        placed one turned face-down, if there is one, and the placed one
        face-up. */
    method Transfer(a: nat, b: nat, destc: char)
      requires Valid() && a < 14 && b < 14 && a != b
      requires piles[a].pointer > 0 && piles[b].pointer < Capacity
      modifies piles[a], piles[b], piles[b].cards
      ensures Valid()
      ensures piles[a].Contents() == old(piles[a].Contents())[..old(piles[a].pointer) - 1]
      ensures piles[b].pointer == old(piles[b].pointer) + 1
      ensures piles[b].cards[..] == Placed(old(piles[b].cards[..]), old(piles[b].pointer),
                                           old(piles[a].Contents())[old(piles[a].pointer) - 1], destc)
    {
      PushPop(a, b);
      var dest := piles[b];
      if destc == 'w' {
        if dest.pointer >= 2 {
          dest.cards[dest.pointer - 2] := FaceUp(dest.cards[dest.pointer - 2], false);
        }
        dest.cards[dest.pointer - 1] := FaceUp(dest.cards[dest.pointer - 1], true);
      }
    }

    /** push(pop(srcp), destp): the top card of pile a is written into the
        first free slot of pile b; the slot it came from keeps it. */
    method PushPop(a: nat, b: nat)
      requires Valid() && a < 14 && b < 14 && a != b
      requires piles[a].pointer > 0 && piles[b].pointer < Capacity
      modifies piles[a], piles[b], piles[b].cards
      ensures Valid()
      ensures piles[a].pointer == old(piles[a].pointer) - 1
      ensures piles[a].Contents() == old(piles[a].Contents())[..piles[a].pointer]
      ensures piles[b].pointer == old(piles[b].pointer) + 1
      ensures piles[b].cards[..] == old(piles[b].cards[..])[old(piles[b].pointer) := old(piles[a].Contents())[piles[a].pointer]]
      ensures View() == Moved(old(View()), a, b)
    {
      ghost var v := View();
      var card := piles[a].Pop();
      piles[b].Push(card);
      assert forall i :: 0 <= i < 14 && i != a && i != b ==> View()[i] == v[i];
      Frame(v, View(), a, b);
    }

    /** The stack taking the waste back, as exec_input writes it:
        `stack.pointer = waste.pointer; waste.pointer = 0`. No card moves:
        the stack shows again the bottom slots of its own buffer, as many as
        the waste held. */
    method Recycle()
      requires Valid() && piles[0].pointer == 0
      modifies piles[0], piles[1]
      ensures Valid()
      ensures View() == old(View())[0 := RecycledAsWritten(piles[0].cards[..], |old(View())[1]|)][1 := []]
    {
      piles[0].pointer := piles[1].pointer;
      piles[1].pointer := 0;
      assert piles[0].Contents() == RecycledAsWritten(piles[0].cards[..], |old(View())[1]|);
      assert forall i :: 2 <= i < 14 ==> View()[i] == old(View())[i];
      Frame(old(View()), View(), 0, 1);
    }

    /** exec_input's deal (code 1): when the stack is empty its pointer
        takes the waste's (Recycle); then move_card deals the stack's top
        card onto the waste with the waste letter. */
    method DealCard()
      requires Valid() && (piles[0].pointer > 0 || piles[1].pointer > 0)
      requires piles[0].pointer == 0 || piles[1].pointer < Capacity
      modifies piles[0], piles[1], piles[1].cards
      ensures Valid()
      ensures View() == Deal(old(View()), piles[0].cards[..])
    {
      if piles[0].pointer == 0 {
        Recycle();
      }
      var moved := MoveCard(0, 1, 'w');
    }

    /** exec_input's waste move (code 2): move_card from the waste, and when
        it moved, the new top card of the waste is turned face-up. */
    method MoveFromWaste(b: nat, destc: char) returns (moved: bool)
      requires Valid() && 2 <= b < 13 && piles[1].pointer > 0
      requires piles[b].pointer < Capacity ||
               !Legal(piles[1].Contents()[piles[1].pointer - 1], false, piles[b].Top(), destc)
      modifies piles[1], piles[1].cards, piles[b], piles[b].cards
      ensures Valid()
      ensures (moved, View()) == Play.WasteMove(old(View()), b, destc)
    {
      moved := MoveCard(1, b, destc);
      if moved {
        ShowTop(1);
      }
    }

    /** exec_input's turn-up (code 4): the top card of tableau j is turned
        face-up. */
    method TurnUp(j: nat)
      requires Valid() && j < 7
      modifies piles[2 + j].cards
      ensures Valid()
      ensures View() == TurnOver(old(View()), j)
    {
      ShowTop(2 + j);
    }

    /** `pile[pointer - 1].faceup = true` as exec_input writes it for the
        waste and for a tableau; on an empty pile it is left out, where the
        source writes before the buffer (see Rules.TurnedUp). */
    method ShowTop(p: nat)
      requires Valid() && p < 14
      modifies piles[p].cards
      ensures Valid()
      ensures View() == old(View())[p := TurnedUp(old(View())[p], |old(View())[p]|)]
    {
      var pile := piles[p];
      ghost var t := pile.Contents();
      if pile.pointer > 0 {
        pile.cards[pile.pointer - 1] := FaceUp(pile.cards[pile.pointer - 1], true);
      }
      assert pile.Contents() == TurnedUp(t, |t|);
      assert forall i :: 0 <= i < 14 && i != p ==> View()[i] == old(View())[i];
      Frame(old(View()), View(), p, p);
    }

    /** The first loop of exec_input's pile move: m times push(pop(srcp),
        &temppile), so that temppile ends with the block reversed. The
        source's buffer keeps the cards popped off it. */
    method Lift(a: nat, m: nat)
      requires Valid() && 2 <= a < 13 && m <= piles[a].pointer && piles[13].pointer + m <= Capacity
      modifies piles[a], piles[13], piles[13].cards
      ensures Valid() && piles[a].cards[..] == old(piles[a].cards[..])
      ensures piles[a].pointer == old(piles[a].pointer) - m
      ensures View() == Lifting(old(View()), a, m)
    {
      ghost var v := View();
      LiftingNone(v, a);
      var k := 0;
      while k < m
        invariant Valid() && k <= m
        invariant piles[a].cards[..] == old(piles[a].cards[..])
        invariant View() == Lifting(v, a, k)
      {
        PushPop(a, 13);
        LiftStep(v, a, k);
        k := k + 1;
      }
    }

    /** The second loop of exec_input's pile move: up to m times
        move_card(&temppile, destp, destc), leaving the loop at the first
        refusal. k is how many cards were placed; the destination's buffer
        is untouched from the slot after the last placed card. */
    method Place(b: nat, destc: char, m: nat, ghost block: seq<Card>) returns (k: nat)
      requires Valid() && |block| == m && PlaceFits(View(), b, block, destc)
      modifies piles[b], piles[b].cards, piles[13]
      ensures Valid() && k == Accepted(block, TopOf(old(View())[b]), destc)
      ensures View() == Placing(old(View()), b, block, destc, k)
      ensures piles[b].pointer == old(piles[b].pointer) + k
      ensures forall j :: old(piles[b].pointer) + k <= j < Capacity ==> piles[b].cards[j] == old(piles[b].cards[j])
    {
      ghost var v := View();
      ghost var p := piles[b].pointer;
      PlacingNone(v, b, block, destc);
      k := 0;
      while k < m
        invariant Valid() && k <= Accepted(block, TopOf(v[b]), destc)
        invariant View() == Placing(v, b, block, destc, k)
        invariant piles[b].pointer == p + k
        invariant forall j :: p + k <= j < Capacity ==> piles[b].cards[j] == old(piles[b].cards[j])
      {
        PlaceStep(v, b, block, destc, k);
        var moved := MoveCard(13, b, destc);
        if !moved {
          break;
        }
        k := k + 1;
      }
    }

    /** exec_input's pile move (code 3): Lift, then Place, and when a card
        was refused, the source pointer raised by m and the destination
        pointer lowered by the count placed. */
    method MultiMove(a: nat, b: nat, destc: char, m: nat) returns (taken: nat)
      requires Valid() && MultiFits(View(), a, b, destc, m)
      modifies piles[a], piles[b], piles[b].cards, piles[13], piles[13].cards
      ensures Valid()
      ensures (taken, View()) == Multi(old(View()), a, b, destc, m)
    {
      ghost var v := View();
      ghost var bufA := piles[a].cards[..];
      taken := LiftAndPlace(a, b, destc, m);
      if taken == m {
        PlacedAll(v, a, b, destc, m);
      } else {
        Restore(a, b, destc, m, taken, v, bufA);
      }
    }

    /** The two loops of the pile move, before any rollback. The source's
        buffer is untouched from the slot after the last card placed. */
    method LiftAndPlace(a: nat, b: nat, destc: char, m: nat) returns (taken: nat)
      requires Valid() && MultiFits(View(), a, b, destc, m)
      modifies piles[a], piles[b], piles[b].cards, piles[13], piles[13].cards
      ensures Valid() && taken == Taken(old(View()), a, b, destc, m)
      ensures View() == Placing(Lifting(old(View()), a, m), b, Block(old(View()), a, m), destc, taken)
      ensures a != b ==> piles[a].cards[..] == old(piles[a].cards[..]) && piles[a].pointer == old(piles[a].pointer) - m
      ensures a != b ==> piles[b].pointer == old(piles[b].pointer) + taken
      ensures a == b ==> piles[a].pointer == old(piles[a].pointer) - m + taken
      ensures a == b ==> forall j :: piles[a].pointer <= j < Capacity ==> piles[a].cards[j] == old(piles[a].cards[j])
    {
      ghost var v := View();
      LiftedFits(v, a, b, destc, m);
      Lift(a, m);
      taken := Place(b, destc, m, Block(v, a, m));
    }

    /** The rollback after card k of the block was refused. */
    method Restore(a: nat, b: nat, destc: char, m: nat, k: nat, ghost v: seq<seq<Card>>, ghost bufA: seq<Card>)
      requires Valid() && MultiFits(v, a, b, destc, m) && k == Taken(v, a, b, destc, m) < m
      requires View() == Placing(Lifting(v, a, m), b, Block(v, a, m), destc, k)
      requires |bufA| == Capacity && bufA[..|v[a]|] == v[a]
      requires a != b ==> piles[a].cards[..] == bufA
      requires a == b ==> piles[a].pointer == |v[a]| - m + k
      requires a == b ==> forall j :: piles[a].pointer <= j < Capacity ==> piles[a].cards[j] == bufA[j]
      modifies piles[a], piles[b]
      ensures Valid() && View() == Refused(v, a, b, destc, m)
    {
      if a != b {
        RestoreApart(a, b, destc, m, k, v);
      } else {
        RestoreSame(a, destc, m, k, v, bufA);
      }
    }

    /** The rollback when the source is the destination. */
    method RestoreSame(a: nat, destc: char, m: nat, k: nat, ghost v: seq<seq<Card>>, ghost bufA: seq<Card>)
      requires Valid() && MultiFits(v, a, a, destc, m) && k == Taken(v, a, a, destc, m) < m
      requires View() == Placing(Lifting(v, a, m), a, Block(v, a, m), destc, k)
      requires |bufA| == Capacity && bufA[..|v[a]|] == v[a]
      requires piles[a].pointer == |v[a]| - m + k
      requires forall j :: piles[a].pointer <= j < Capacity ==> piles[a].cards[j] == bufA[j]
      modifies piles[a]
      ensures Valid() && View() == Refused(v, a, a, destc, m)
    {
      ghost var block := Block(v, a, m);
      assert bufA[|v[a]| - m..|v[a]|] == block by {
        assert v[a][|v[a]| - m..] == block;
      }
      RefusedInPlace(v, a, destc, m);
      RestoreInPlace(a, m, k, block, bufA);
    }

    /** The rollback after card k of the block was refused, source and
        destination apart, leaves the layout Play.Refused describes. */
    method RestoreApart(a: nat, b: nat, destc: char, m: nat, k: nat, ghost v: seq<seq<Card>>)
      requires Valid() && MultiFits(v, a, b, destc, m) && k == Taken(v, a, b, destc, m) < m && a != b
      requires View() == Placing(Lifting(v, a, m), b, Block(v, a, m), destc, k)
      requires piles[a].cards[..|v[a]|] == v[a]
      modifies piles[a], piles[b]
      ensures Valid() && View() == Refused(v, a, b, destc, m)
    {
      ghost var w, buf := View(), piles[a].cards[..];
      assert buf[..|v[a]|] == v[a];
      assert piles[a].pointer + m == |v[a]| && piles[b].pointer == |v[b]| + k;
      RollBack(a, b, m, k);
      assert View() == w[a := v[a]][b := w[b][..|v[b]|]];
      RefusedApart(v, a, b, destc, m);
    }

    /** The same when the source is the destination: raising the pointer
        by m - k shows, above the k cards placed, the rest of the block
        the buffer still holds from before the move. */
    method RestoreInPlace(a: nat, m: nat, k: nat, ghost block: seq<Card>, ghost bufA: seq<Card>)
      requires Valid() && 2 <= a < 13 && k <= m == |block| && k <= piles[a].pointer
      requires piles[a].pointer + m - k <= Capacity && |bufA| == Capacity
      requires bufA[piles[a].pointer - k..piles[a].pointer - k + m] == block
      requires forall j :: piles[a].pointer <= j < Capacity ==> piles[a].cards[j] == bufA[j]
      modifies piles[a]
      ensures Valid() && View() == old(View())[a := old(View())[a] + block[k..]]
    {
      ghost var w, buf, p := View(), piles[a].cards[..], piles[a].pointer;
      RollBackSame(a, m, k);
      KeptAbove(buf, bufA, w[a], p - k, block, k);
    }

    /** The rollback of a refused pile move: `srcp->pointer += mult` and
        `destp->pointer -= k`. */
    method RollBack(a: nat, b: nat, m: nat, k: nat)
      requires Valid() && a < 14 && b < 14 && a != b
      requires piles[a].pointer + m <= Capacity && k <= piles[b].pointer
      modifies piles[a], piles[b]
      ensures Valid()
      ensures View() == old(View())[a := old(piles[a].cards[..])[..old(piles[a].pointer) + m]]
                                   [b := old(View())[b][..old(piles[b].pointer) - k]]
    {
      ghost var v, c := View(), piles[a].cards[..];
      ghost var p, q := piles[a].pointer, piles[b].pointer;
      piles[a].pointer := piles[a].pointer + m;
      piles[b].pointer := piles[b].pointer - k;
      assert forall i :: 0 <= i < 14 && i != a && i != b ==> View()[i] == v[i];
      assert View()[a] == c[..p + m];
      assert View()[b] == v[b][..q - k];
      Frame(v, View(), a, b);
    }

    /** The same two statements when the source is the destination: they
        act on one pile, whose pointer can pass the end of the buffer in
        between. */
    method RollBackSame(a: nat, m: nat, k: nat)
      requires Valid() && a < 14 && k <= piles[a].pointer + m <= Capacity + k
      modifies piles[a]
      ensures Valid()
      ensures View() == old(View())[a := old(piles[a].cards[..])[..old(piles[a].pointer) + m - k]]
    {
      ghost var v, c := View(), piles[a].cards[..];
      ghost var p := piles[a].pointer;
      piles[a].pointer := piles[a].pointer + m;
      piles[a].pointer := piles[a].pointer - k;
      assert forall i :: 0 <= i < 14 && i != a ==> View()[i] == v[i];
      assert View()[a] == c[..p + m - k];
      Frame(v, View(), a, a);
    }

    /** main's start of a game: shuffle, then init_deal. Whatever rand()
        returns, the game starts in progress with the shuffled deck dealt. */
    method Start(r: seq<int>)
      requires Valid() && multiset(deck[..]) == multiset(InitialDeck())
      requires |r| == 52 && forall m :: 0 <= m < 52 ==> 0 <= r[m] < 52
      modifies Repr, deck
      ensures Playing() && InPlay(View(), FullDeck())
      ensures deck[..] == Swapped(old(deck[..]), r, 52) && View() == DealtLayout(deck[..])
    {
      Shuffle(r);
      MultisetNames(deck[..], InitialDeck());
      InitDeal();
    }

    /** shuffle's swap pass: for i from 0 to 51 deck[i] and deck[r[i]] are
        exchanged, r[i] standing for `rand() % 52`. */
    method Shuffle(r: seq<int>)
      requires Valid() && |r| == 52 && forall m :: 0 <= m < 52 ==> 0 <= r[m] < 52
      modifies deck
      ensures Valid() && View() == old(View())
      ensures deck[..] == Swapped(old(deck[..]), r, 52)
      ensures multiset(deck[..]) == multiset(old(deck[..]))
    {
      for i := 0 to 52
        invariant deck[..] == Swapped(old(deck[..]), r, i)
      {
        var t := deck[r[i]];
        deck[r[i]] := deck[i];
        deck[i] := t;
      }
      SwapsPermute(old(deck[..]), r, 52);
    }

    /** init_deal: tableau i gets i + 1 cards counted down from deck[51],
        only its top card face-up; the stack the remaining 24, face-down;
        the foundations, the waste and temppile are emptied. */
    method InitDeal()
      requires Valid()
      modifies Repr
      ensures Valid() && View() == DealtLayout(deck[..]) && Playing()
      ensures Names(deck[..]) == FullDeck() ==> InPlay(View(), FullDeck())
    {
      ghost var d := deck[..];
      var deckp := DealTableaux();
      DealStack(deckp);
      EmptyRest();
      assert forall t :: 0 <= t < 14 ==> View()[t] == DealtPile(d, t);
      LayoutOfPiles(View(), d);
      assert piles[0].cards[..24] == StackDealt(d) by {
        assert View()[0] == StackDealt(d) == piles[0].cards[..piles[0].pointer];
      }
      DealtRunning(d, piles[0].cards[..]);
      DealtLayoutInPlay(d);
    }

    /** The end of init_deal: the foundations, the waste and temppile
        emptied. */
    method EmptyRest()
      requires Valid()
      modifies Repr
      ensures Valid()
      ensures forall t :: 0 <= t < 14 ==> View()[t] == if t == 1 || 9 <= t then [] else old(View())[t]
    {
      ghost var w := View();
      for f := 0 to 4
        invariant Valid()
        invariant forall t :: 0 <= t < 14 ==> View()[t] == if 9 <= t < 9 + f then [] else w[t]
      {
        Clear(9 + f);
      }
      Clear(1);
      Clear(13);
    }

    /** The outer loop of init_deal; deckp is left where the stack starts. */
    method DealTableaux() returns (deckp: int)
      requires Valid()
      modifies Repr
      ensures Valid() && deckp == 23
      ensures forall t :: 0 <= t < 14 ==> View()[t] == if 2 <= t < 9 then DealtPile(deck[..], t) else old(View())[t]
    {
      ghost var w := View();
      deckp := 51;
      for i := 0 to 7
        invariant Valid() && deckp == 51 - DealtBefore(i)
        invariant forall t :: 0 <= t < 14 ==> View()[t] == if 2 <= t < 2 + i then DealtPile(deck[..], t) else w[t]
      {
        deckp := DealTableau(i, deckp);
      }
      assert DealtBefore(7) == 28;
    }

    /** The inner loop of init_deal for tableau i, taking its cards from
        deck[deckp] downwards; next is where the following tableau starts. */
    method DealTableau(i: nat, deckp: int) returns (next: int)
      requires Valid() && i < 7 && deckp == 51 - DealtBefore(i)
      modifies piles[2 + i], piles[2 + i].cards
      ensures Valid() && next == 51 - DealtBefore(i + 1)
      ensures View() == old(View())[2 + i := TabDealt(deck[..], i)]
    {
      DealtBeforeBound(i);
      var pile := piles[2 + i];
      next := deckp;
      for j := 0 to i + 1
        invariant next == deckp - j
        invariant pile.cards[..j] == TabDealt(deck[..], i)[..j]
        modifies pile.cards
      {
        pile.cards[j] := FaceUp(deck[next], i == j);
        next := next - 1;
      }
      pile.pointer := i + 1;
      assert pile.Contents() == TabDealt(deck[..], i);
      assert forall t :: 0 <= t < 14 && t != 2 + i ==> View()[t] == old(View())[t];
      Frame(old(View()), View(), 2 + i, 2 + i);
    }

    /** The last loop of init_deal: the stack takes deck[23] down to
        deck[0], each face-down. */
    method DealStack(deckp: int)
      requires Valid() && deckp == 23
      modifies piles[0], piles[0].cards
      ensures Valid() && View() == old(View())[0 := StackDealt(deck[..])]
    {
      var stack := piles[0];
      var i, p := 0, deckp;
      while p >= 0
        invariant 0 <= i <= 24 && p == 23 - i
        invariant stack.cards[..i] == StackDealt(deck[..])[..i]
        modifies stack.cards
      {
        stack.cards[i] := FaceUp(deck[p], false);
        i, p := i + 1, p - 1;
      }
      stack.pointer := i;
      assert stack.Contents() == StackDealt(deck[..]);
      assert forall t :: 1 <= t < 14 ==> View()[t] == old(View())[t];
      Frame(old(View()), View(), 0, 0);
    }

    /** `pointer = 0` on pile p. */
    method Clear(p: nat)
      requires Valid() && p < 14
      modifies piles[p]
      ensures Valid() && View() == old(View())[p := []]
    {
      piles[p].pointer := 0;
      assert forall t :: 0 <= t < 14 && t != p ==> View()[t] == old(View())[t];
      Frame(old(View()), View(), p, p);
    }

    /** The test main makes after every command. */
    method IsWon() returns (won: bool)
      requires Valid()
      ensures won == Won(View())
    {
      won := piles[9].pointer == 13 && piles[10].pointer == 13 && piles[11].pointer == 13 && piles[12].pointer == 13;
    }

    /** exec_input: recognise the command, copy its leading digits into
        the two-character count buffer, then carry the command out. A second
        leading digit, or a command that would leave a pile's buffer, is
        refused as undefined, with nothing changed. */
    method ExecInput(s: seq<char>) returns (outcome: Outcome)
      requires Valid()
      modifies Repr - {piles[0].cards}
      ensures Valid() && piles[0].cards[..] == old(piles[0].cards[..])
      ensures (outcome, View()) == Exec(old(View()), piles[0].cards[..], s)
      ensures old(Playing()) ==> Playing()
    {
      ghost var v := View();
      ghost var playing := Playing();
      var code, src, dest, destc := VerifyInput(s);
      var i := 0;
      while IsDigit(At(s, i))
        invariant i <= LeadingDigits(s)
        invariant forall k :: 0 <= k < i ==> k < |s| && IsDigit(s[k])
        decreases |s| - i
      {
        i := i + 1;
      }
      assert i == LeadingDigits(s);
      if i > 1 {
        // multstr has room for one digit and its terminator
        return Undefined;
      }
      if code == 0 {
        outcome := Invalid;
      } else if code == 1 {
        outcome := DealCommand();
      } else if code == 2 {
        outcome := WasteCommand(dest, destc);
      } else if code == 3 {
        // atoi(multstr), and a count of 0 made 1
        var mult := if i == 1 then s[0] as int - '0' as int else 0;
        if mult == 0 {
          mult := 1;
        }
        outcome := PileCommand(src, dest, destc, mult);
      } else {
        outcome := TurnCommand(IndexOfDigit(At(s, i + 2)));
      }
      if playing {
        ExecKeepsRunning(v, piles[0].cards[..], s);
      }
    }

    /** Code 1 of exec_input. In a game in progress, a deal from an empty
        stack leaves in the stack the first cards init_deal dealt into it,
        face-down, as many as the waste held less one, and on the waste the
        next of them, face-up: whatever cards the waste held. */
    method DealCommand() returns (outcome: Outcome)
      requires Valid()
      modifies piles[0], piles[1], piles[1].cards
      ensures Valid()
      ensures (outcome, View()) == ExecDeal(old(View()), piles[0].cards[..])
      ensures old(Playing()) && old(piles[0].pointer) == 0 && outcome == Dealt ==>
        var w, dealt := old(piles[1].pointer), StackDealt(deck[..]);
        View()[0] == dealt[..w - 1] && View()[1] == [FaceUp(dealt[w - 1], true)]
    {
      ghost var v := View();
      if (piles[0].pointer == 0 && piles[1].pointer == 0) || (piles[0].pointer > 0 && piles[1].pointer == Capacity) {
        return Undefined;
      }
      ghost var playing := Playing();
      DealCard();
      outcome := Dealt;
      if playing && v[0] == [] {
        RecycledStackAsWritten(v, piles[0].cards[..], deck[..]);
      }
    }

    /** Code 2 of exec_input. */
    method WasteCommand(dest: Ref, destc: char) returns (outcome: Outcome)
      requires Valid()
      modifies Repr - {piles[0].cards}
      ensures Valid()
      ensures (outcome, View()) == ExecWaste(old(View()), dest, destc)
    {
      var slot := Slot(dest);
      if slot.None? || piles[1].pointer == 0 {
        return Undefined;
      }
      var b := slot.value;
      if piles[b].pointer == Capacity {
        var legal := Allows(piles[1].cards[piles[1].pointer - 1], false, piles[b].Top(), destc);
        if legal {
          return Undefined;
        }
      }
      var moved := MoveFromWaste(b, destc);
      outcome := WasteMoved(moved);
    }

    /** Code 3 of exec_input, with the count m already worked out. */
    method PileCommand(src: Ref, dest: Ref, destc: char, m: nat) returns (outcome: Outcome)
      requires Valid()
      modifies Repr - {piles[0].cards}
      ensures Valid()
      ensures (outcome, View()) == ExecPile(old(View()), src, dest, destc, m)
    {
      var sa, sb := Slot(src), Slot(dest);
      if sa.None? || sb.None? {
        return Undefined;
      }
      var a, b := sa.value, sb.value;
      ghost var v := View();
      var p := piles[a].pointer;
      if m > p || piles[13].pointer + m > Capacity {
        return Undefined;
      }
      if a != b {
        var k := Accepted(piles[a].cards[p - m..p], piles[b].Top(), destc);
        assert k == Taken(v, a, b, destc, m) by {
          assert piles[a].cards[p - m..p] == Block(v, a, m);
        }
        if piles[b].pointer + k > Capacity {
          return Undefined;
        }
      }
      assert MultiFits(v, a, b, destc, m);
      var taken := MultiMove(a, b, destc, m);
      outcome := BlockMoved(m, taken);
    }

    /** Code 4 of exec_input: `tab[j]` must exist. */
    method TurnCommand(j: int) returns (outcome: Outcome)
      requires Valid()
      modifies Repr - {piles[0].cards}
      ensures Valid()
      ensures (outcome, View()) == ExecTurn(old(View()), j)
    {
      if !(0 <= j < 7) {
        return Undefined;
      }
      TurnUp(j);
      outcome := TurnedOver;
    }
  }

  /** A layout whose piles are those init_deal deals is the dealt layout. */
  lemma {:induction false} LayoutOfPiles(v: seq<seq<Card>>, d: seq<Card>)
    requires |v| == 14 && |d| == 52 && forall t :: 0 <= t < 14 ==> v[t] == DealtPile(d, t)
    ensures v == DealtLayout(d)
  {
  }

  /** A buffer c that agrees with c0 from slot n on, where c0 holds the
      block from slot base on and n is base + k, reads as its first n slots
      followed by the block's last m - k cards. */
  lemma {:induction false} KeptAbove(c: seq<Card>, c0: seq<Card>, low: seq<Card>, base: nat, block: seq<Card>, k: nat)
    requires |c| == |c0| && k <= |block| && base + |block| <= |c0| && c[..base + k] == low
    requires forall j :: base + k <= j < |c| ==> c[j] == c0[j]
    requires c0[base..base + |block|] == block
    ensures c[..base + |block|] == low + block[k..]
  {
    var t := c[..base + |block|];
    forall j | base + k <= j < base + |block| ensures t[j] == block[j - base] {
      assert c0[base..base + |block|][j - base] == c0[j];
    }
  }

  /** A layout that agrees with v outside positions a and b is v with
      those two positions replaced. */
  lemma {:induction false} Frame(v: seq<seq<Card>>, w: seq<seq<Card>>, a: nat, b: nat)
    requires |v| == 14 && |w| == 14 && a < 14 && b < 14
    requires forall i :: 0 <= i < 14 && i != a && i != b ==> w[i] == v[i]
    ensures w == v[a := w[a]][b := w[b]]
  {
  }
}
