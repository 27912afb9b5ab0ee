/** Index arithmetic of init_deal and the swap pass of shuffle, as values. */
module Dealing {
  import opened Cards
  import opened Rules

  /** The order of the deck's initialiser: ranks 2 up to King and then the
      Ace, each in the suits H, D, C, S. */
  const DeckRanks: seq<char> := "234567890JQKA"
  const DeckSuits: seq<char> := "HDCS"

  /** Card i of the deck's initialiser; its face flag starts false. */
  function DeckCard(i: nat): (c: Card)
    requires i < 52
    ensures c.rank == DeckRanks[i / 4] && c.suit == DeckSuits[i % 4] && !c.faceup
  {
    var r, s := DeckRanks[i / 4], DeckSuits[i % 4];
    assert IsRank(r) && IsSuit(s);
    CardType(r, s, false)
  }

  /** The deck as its initialiser lists it. */
  function InitialDeck(): (d: seq<Card>)
    ensures |d| == 52 && forall i :: 0 <= i < 52 ==> d[i] == DeckCard(i)
  {
    seq(52, i requires 0 <= i < 52 => DeckCard(i))
  }

  /** No two cards of the deck's initialiser have the same rank and suit. */
  lemma {:induction false} DeckDistinct()
    ensures forall i, j :: 0 <= i < j < 52 ==>
      (InitialDeck()[i].rank, InitialDeck()[i].suit) != (InitialDeck()[j].rank, InitialDeck()[j].suit)
  {
    var d := InitialDeck();
    assert forall a, b :: 0 <= a < b < 13 ==> DeckRanks[a] != DeckRanks[b];
    assert forall a, b :: 0 <= a < b < 4 ==> DeckSuits[a] != DeckSuits[b];
    forall i, j | 0 <= i < j < 52 ensures (d[i].rank, d[i].suit) != (d[j].rank, d[j].suit) {
      assert i / 4 != j / 4 || i % 4 != j % 4;
    }
  }

  /** Every rank and suit is the name of a card of the deck's initialiser. */
  lemma {:induction false} DeckHasEveryCard(r: char, u: char)
    requires IsRank(r) && IsSuit(u)
    ensures exists i :: 0 <= i < 52 && InitialDeck()[i].rank == r && InitialDeck()[i].suit == u
  {
    var a := match r
      case '2' => 0 case '3' => 1 case '4' => 2 case '5' => 3 case '6' => 4 case '7' => 5
      case '8' => 6 case '9' => 7 case '0' => 8 case 'J' => 9 case 'Q' => 10 case 'K' => 11 case _ => 12;
    var b := match u case 'H' => 0 case 'D' => 1 case 'C' => 2 case _ => 3;
    var i := 4 * a + b;
    assert i / 4 == a && i % 4 == b;
    assert InitialDeck()[i] == DeckCard(i);
  }

  /** The names of cards no two of which share rank and suit each occur
      once. */
  lemma {:induction false} NamesOnce(s: seq<Card>)
    requires forall i, j :: 0 <= i < j < |s| ==> (s[i].rank, s[i].suit) != (s[j].rank, s[j].suit)
    ensures forall e :: Names(s)[e] <= 1
  {
    if s != [] {
      var n := |s|;
      var p, x := s[..n - 1], (s[n - 1].rank, s[n - 1].suit);
      assert forall i, j :: 0 <= i < j < |p| ==> (p[i].rank, p[i].suit) != (p[j].rank, p[j].suit) by {
        assert forall i :: 0 <= i < |p| ==> p[i] == s[i];
      }
      NamesOnce(p);
      NameNotIn(p, x);
    }
  }

  /** A name no card of s has is not in Names(s). */
  lemma {:induction false} NameNotIn(s: seq<Card>, e: (char, char))
    requires forall i :: 0 <= i < |s| ==> (s[i].rank, s[i].suit) != e
    ensures e !in Names(s)
  {
    if s != [] {
      var p := s[..|s| - 1];
      assert forall i :: 0 <= i < |p| ==> p[i] == s[i];
      NameNotIn(p, e);
    }
  }

  /** A name in Names(s) is the name of a card of s. */
  lemma {:induction false} NameIn(s: seq<Card>, e: (char, char))
    requires e in Names(s)
    ensures exists i :: 0 <= i < |s| && (s[i].rank, s[i].suit) == e
  {
    var n := |s|;
    var p := s[..n - 1];
    if e in Names(p) {
      NameIn(p, e);
      var i :| 0 <= i < |p| && (p[i].rank, p[i].suit) == e;
      assert p[i] == s[i];
    } else {
      assert (s[n - 1].rank, s[n - 1].suit) == e;
    }
  }

  /** The name of a card of s is in Names(s). */
  lemma {:induction false} NameOf(s: seq<Card>, i: nat)
    requires i < |s|
    ensures (s[i].rank, s[i].suit) in Names(s)
  {
    var n := |s|;
    if i < n - 1 {
      NameOf(s[..n - 1], i);
      assert s[..n - 1][i] == s[i];
    }
  }

  /** The cards dealt to tableaux 0 .. i-1: 0, 1, 3, 6, 10, 15, 21, 28. */
  function DealtBefore(i: nat): (n: nat)
    ensures 2 * n == i * (i + 1)
  {
    if i == 0 then 0 else DealtBefore(i - 1) + i
  }

  /** The deck index init_deal copies into slot j of tableau i (0-based):
      the deal counts down from deck[51]. */
  function TabSource(i: nat, j: nat): (d: int)
    ensures IsTabSlot(i, j) ==> 24 <= d < 52
  {
    51 - DealtBefore(i) - j
  }

  /** The deck index init_deal copies into slot k of the stack. */
  function StackSource(k: nat): (d: int)
    ensures k < 24 <==> 0 <= d < 24
  {
    23 - k
  }

  predicate IsTabSlot(i: nat, j: nat) {
    j <= i < 7
  }

  /** The tableau slot that receives deck index d, for 24 <= d < 52. */
  function TabSlotOf(d: int): (ij: (nat, nat))
    requires 24 <= d < 52
    ensures IsTabSlot(ij.0, ij.1) && TabSource(ij.0, ij.1) == d
  {
    var n := 51 - d;
    var i := if n < 1 then 0 else if n < 3 then 1 else if n < 6 then 2 else if n < 10 then 3
             else if n < 15 then 4 else if n < 21 then 5 else 6;
    assert DealtBefore(7) == 28;
    (i, n - DealtBefore(i))
  }

  /** The deck indices the tableau slots and the stack slots take. */
  function TabIndices(): set<int> {
    set i: nat, j: nat | j <= i < 7 :: TabSource(i, j)
  }

  function StackIndices(): set<int> {
    set k: nat | k < 24 :: StackSource(k)
  }

  /** Every deck index is used exactly once by init_deal: the 28 tableau
      slots take indices 51 down to 24, each from a single slot, and the 24
      stack slots take 23 down to 0. */
  lemma {:induction false} DealUsesEachCardOnce()
    ensures forall i, j, i', j' | IsTabSlot(i, j) && IsTabSlot(i', j') && TabSource(i, j) == TabSource(i', j') ::
      i == i' && j == j'
    ensures forall d :: d in TabIndices() <==> 24 <= d < 52
    ensures forall k: nat, k': nat | k < 24 && k' < 24 && StackSource(k) == StackSource(k') :: k == k'
    ensures forall d :: d in StackIndices() <==> 0 <= d < 24
  {
    assert DealtBefore(7) == 28;
    forall i: nat, j: nat | IsTabSlot(i, j) ensures DealtBefore(i) + j < DealtBefore(i + 1) {
    }
    forall a: nat, b: nat | a <= b <= 7 ensures DealtBefore(a) <= DealtBefore(b) {
      Rising(a, b);
    }
    var tabs := TabIndices();
    forall d | 24 <= d < 52 ensures d in tabs {
      var ij := TabSlotOf(d);
      assert TabSource(ij.0, ij.1) in tabs;
    }
    var stacks := StackIndices();
    forall d | 0 <= d < 24 ensures d in stacks {
      assert StackSource(23 - d) in stacks;
    }
  }

  /** DealtBefore never decreases. */
  lemma {:induction false} Rising(a: nat, b: nat)
    requires a <= b
    ensures DealtBefore(a) <= DealtBefore(b)
    decreases b - a
  {
    if a < b {
      Rising(a, b - 1);
    }
  }

  /** The deck after the first i swaps of shuffle: step m exchanges deck[m]
      with deck[r[m]], where r[m] stands for `rand() % 52`. */
  function Swapped(deck: seq<Card>, r: seq<int>, i: nat): (d: seq<Card>)
    requires i <= |r| && i <= |deck|
    requires forall m :: 0 <= m < |r| ==> 0 <= r[m] < |deck|
    ensures |d| == |deck|
  {
    if i == 0 then deck
    else
      var t := Swapped(deck, r, i - 1);
      t[r[i - 1] := t[i - 1]][i - 1 := t[r[i - 1]]]
  }

  /** Shuffling only reorders the deck. */
  lemma {:induction false} SwapsPermute(deck: seq<Card>, r: seq<int>, i: nat)
    requires i <= |r| && i <= |deck|
    requires forall m :: 0 <= m < |r| ==> 0 <= r[m] < |deck|
    ensures multiset(Swapped(deck, r, i)) == multiset(deck)
  {
    if i > 0 {
      var t := Swapped(deck, r, i - 1);
      var a, b := i - 1, r[i - 1];
      var u := t[b := t[a]][a := t[b]];
      assert Swapped(deck, r, i) == u;
      SwapsPermute(deck, r, i - 1);
      SwapPermutes(t, a, b);
    }
  }

  /** One exchange of two positions keeps the multiset of cards. */
  lemma {:induction false} SwapPermutes<T>(t: seq<T>, a: nat, b: nat)
    requires a < |t| && b < |t|
    ensures multiset(t[b := t[a]][a := t[b]]) == multiset(t)
  {
    if a == b {
      assert t[b := t[a]][a := t[b]] == t;
    } else {
      var u := t[b := t[a]];
      assert multiset(u) == multiset(t) - multiset{t[b]} + multiset{t[a]};
      assert u[a] == t[a];
      assert multiset(u[a := t[b]]) == multiset(u) - multiset{t[a]} + multiset{t[b]};
    }
  }

  /** DealtBefore(i + 1) cards go to tableaux 0 .. i; the last tableau ends at 28. */
  lemma {:induction false} DealtBeforeBound(i: nat)
    requires i < 7
    ensures DealtBefore(i) + i + 1 == DealtBefore(i + 1) <= 28
  {
    Rising(i + 1, 7);
    assert DealtBefore(7) == 28;
  }

  /** The stack init_deal builds: deck[23] down to deck[0], face-down. */
  function StackDealt(deck: seq<Card>): (s: seq<Card>)
    requires |deck| == 52
    ensures |s| == 24
    ensures forall k :: 0 <= k < 24 ==> s[k] == FaceUp(deck[StackSource(k)], false)
  {
    seq(24, k requires 0 <= k < 24 => FaceUp(deck[StackSource(k)], false))
  }

  /** Tableau i as init_deal builds it: i + 1 cards counted down from
      deck[51 - DealtBefore(i)], only the top one face-up. */
  function TabDealt(deck: seq<Card>, i: nat): (s: seq<Card>)
    requires |deck| == 52 && i < 7
    ensures |s| == i + 1
    ensures forall j :: 0 <= j <= i ==> 24 <= TabSource(i, j) < 52 && s[j] == FaceUp(deck[TabSource(i, j)], j == i)
  {
    DealtBeforeBound(i);
    seq(i + 1, j requires 0 <= j <= i => FaceUp(deck[TabSource(i, j)], j == i))
  }

  /** Tableau i holds the cards of the deck's slice just below the slices of
      the tableaux before it. */
  lemma {:induction false} TabDealtNames(deck: seq<Card>, i: nat)
    requires |deck| == 52 && i < 7
    ensures DealtBefore(i + 1) <= 28
    ensures Names(TabDealt(deck, i)) == Names(deck[52 - DealtBefore(i + 1)..52 - DealtBefore(i)])
  {
    DealtBeforeBound(i);
    var lo := 52 - DealtBefore(i + 1);
    assert lo + i == 51 - DealtBefore(i);
    var slice := deck[lo..52 - DealtBefore(i)];
    var t := TabDealt(deck, i);
    forall j | 0 <= j <= i ensures t[j].rank == Reversed(slice)[j].rank && t[j].suit == Reversed(slice)[j].suit {
      assert Reversed(slice)[j] == slice[i - j] == deck[TabSource(i, j)];
    }
    SameCardsNames(t, Reversed(slice));
    ReversedNames(slice);
  }

  /** The stack holds the cards of deck[0 .. 24]. */
  lemma {:induction false} StackDealtNames(deck: seq<Card>)
    requires |deck| == 52
    ensures Names(StackDealt(deck)) == Names(deck[..24])
  {
    var t := StackDealt(deck);
    forall k | 0 <= k < 24 ensures t[k].rank == Reversed(deck[..24])[k].rank && t[k].suit == Reversed(deck[..24])[k].suit {
    }
    SameCardsNames(t, Reversed(deck[..24]));
    ReversedNames(deck[..24]);
  }

  /** Two orderings of the same cards have the same names. */
  lemma {:induction false} MultisetNames(a: seq<Card>, b: seq<Card>)
    requires multiset(a) == multiset(b)
    ensures Names(a) == Names(b)
    decreases |a|
  {
    if a != [] {
      var n := |a| - 1;
      var x := a[n];
      assert a == a[..n] + [x];
      assert x in multiset(b);
      var j :| 0 <= j < |b| && b[j] == x;
      var b' := b[..j] + b[j + 1..];
      assert b == b[..j] + [x] + b[j + 1..];
      var l, r := multiset(b[..j]), multiset(b[j + 1..]);
      assert multiset(b) == l + multiset{x} + r;
      assert multiset(b') == l + r;
      assert multiset(a) == multiset(a[..n]) + multiset{x};
      forall e ensures multiset(b')[e] == multiset(a[..n])[e] {
        assert (l + multiset{x} + r)[e] == (multiset(a[..n]) + multiset{x})[e];
      }
      MultisetNames(a[..n], b');
      NamesRemove(b, j);
    }
  }

  /** Taking card j out of b takes its name out of the names of b. */
  lemma {:induction false} NamesRemove(b: seq<Card>, j: nat)
    requires j < |b|
    ensures Names(b) == Names(b[..j] + b[j + 1..]) + multiset{(b[j].rank, b[j].suit)}
  {
    var x, l, r := b[j], b[..j], b[j + 1..];
    var nx := Names([x]);
    assert Names(b) == Names(l) + (nx + Names(r)) by {
      assert b[j..] == [x] + r;
      assert b == l + ([x] + r);
      NamesAppend(l, [x] + r);
      NamesAppend([x], r);
    }
    assert Names(l + r) == Names(l) + Names(r) by {
      NamesAppend(l, r);
    }
    assert nx == multiset{(x.rank, x.suit)} by {
      assert [x][..0] == [];
    }
    forall e ensures Names(b)[e] == (Names(l + r) + nx)[e] {
    }
  }
}
