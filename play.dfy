/** The game as values: what the fourteen piles hold, bottom card first,
    in the order stack, waste, tab[0..6], fnd[0..3], temppile, and what each
    command of exec_input does to them. The class in the engine is proved
    to follow these functions. */
module Play {
  import opened Cards
  import opened Piles
  import opened Rules
  import opened Command
  import opened Dealing

  /** What exec_input did with a command. Undefined: the command would make
      the source read or write outside a buffer (or pop an empty pile); the
      model refuses it and changes nothing. */
  datatype Outcome =
    | Invalid
    | Undefined
    | Dealt
    | WasteMoved(moved: bool)
    | BlockMoved(count: nat, accepted: nat)
    | TurnedOver

  /** The names of the cards of the first n piles of a layout. */
  function Held(v: seq<seq<Card>>, n: nat): (m: multiset<(char, char)>)
    requires n <= |v|
  {
    if n == 0 then multiset{} else Held(v, n - 1) + Names(v[n - 1])
  }

  /** Piles that hold the same cards hold the same union. */
  lemma {:induction false} HeldFrame(v: seq<seq<Card>>, v': seq<seq<Card>>, n: nat)
    requires n <= |v| && n <= |v'|
    requires forall i :: 0 <= i < n ==> Names(v'[i]) == Names(v[i])
    ensures Held(v', n) == Held(v, n)
    decreases n
  {
    if n > 0 {
      HeldFrame(v, v', n - 1);
    }
  }

  /** Replacing one pile changes the union by exactly the difference. */
  lemma {:induction false} HeldUpdate(v: seq<seq<Card>>, i: nat, x: seq<Card>, n: nat)
    requires i < n <= |v|
    ensures Held(v[i := x], n) + Names(v[i]) == Held(v, n) + Names(x)
    decreases n
  {
    if i < n - 1 {
      HeldUpdate(v, i, x, n - 1);
      HeldUpdateStep(v, i, x, n);
    } else {
      HeldFrame(v, v[i := x], n - 1);
    }
  }

  /** One more pile below the replaced one adds the same names on both sides. */
  lemma {:induction false} HeldUpdateStep(v: seq<seq<Card>>, i: nat, x: seq<Card>, n: nat)
    requires i < n - 1 && n <= |v|
    requires Held(v[i := x], n - 1) + Names(v[i]) == Held(v, n - 1) + Names(x)
    ensures Held(v[i := x], n) + Names(v[i]) == Held(v, n) + Names(x)
  {
    var e := Names(v[n - 1]);
    assert v[i := x][n - 1] == v[n - 1];
    assert Held(v[i := x], n) == Held(v[i := x], n - 1) + e;
    assert Held(v, n) == Held(v, n - 1) + e;
    AddBoth(Held(v[i := x], n - 1), Names(v[i]), Held(v, n - 1), Names(x), e);
  }

  lemma {:induction false} AddBoth<T>(a: multiset<T>, b: multiset<T>, c: multiset<T>, d: multiset<T>, e: multiset<T>)
    requires a + b == c + d
    ensures a + e + b == c + e + d
  {
    assert a + e + b == (a + b) + e;
    assert c + e + d == (c + d) + e;
  }

  /** Two replacements whose differences cancel out leave the total. */
  lemma {:induction false} Cancel<T>(h: multiset<T>, hu: multiset<T>, hw: multiset<T>, a: multiset<T>, a': multiset<T>, b: multiset<T>, b': multiset<T>)
    requires hu + a == h + a' && hw + b == hu + b' && a' + b' == a + b
    ensures hw == h
  {
    forall e ensures hw[e] == h[e] {
      assert (hu + a)[e] == (h + a')[e];
      assert (hw + b)[e] == (hu + b')[e];
      assert (a' + b')[e] == (a + b)[e];
    }
  }

  /** The names of the 52 cards of the deck. */
  function FullDeck(): (m: multiset<(char, char)>)
    ensures |m| == 52
  {
    Names(InitialDeck())
  }

  /** The deck holds each of the 52 cards exactly once: every name is a
      rank and a suit, and every rank and suit occurs once. */
  lemma {:induction false} FullDeckOnce()
    ensures forall e :: e in FullDeck() ==> IsRank(e.0) && IsSuit(e.1)
    ensures forall r, u :: IsRank(r) && IsSuit(u) ==> FullDeck()[(r, u)] == 1
  {
    var d := InitialDeck();
    DeckDistinct();
    NamesOnce(d);
    forall e | e in FullDeck() ensures IsRank(e.0) && IsSuit(e.1) {
      NameIn(d, e);
    }
    forall r, u | IsRank(r) && IsSuit(u) ensures FullDeck()[(r, u)] == 1 {
      DeckHasEveryCard(r, u);
      var i :| 0 <= i < 52 && d[i].rank == r && d[i].suit == u;
      NameOf(d, i);
    }
  }

  /** A layout: fourteen piles, none above the buffer size. */
  predicate Shaped(v: seq<seq<Card>>) {
    |v| == 14 && forall i :: 0 <= i < 14 ==> |v[i]| <= Capacity
  }

  /** The invariant of a game in progress: the thirteen piles the player
      sees (all but the scratch pile temppile) hold the cards named by `deck`
      (52 of them; for the game, FullDeck()); the stack is face-down; of the
      waste only the top card is face-up; every foundation holds an
      Ace-upward run of one suit. */
  ghost predicate InPlay(v: seq<seq<Card>>, deck: multiset<(char, char)>) {
    Shaped(v) && |deck| == 52 && Held(v, 13) == deck &&
    forall i :: 0 <= i < 13 ==> PileOk(i, v[i])
  }

  /** What the invariant asks of the pile at position i by itself. */
  ghost predicate PileOk(i: nat, s: seq<Card>) {
    (i == 0 ==> Hidden(s)) && (i == 1 ==> ShowsTop(s)) && (9 <= i < 13 ==> FoundationRun(s))
  }

  /** Every card face-down, as on the stack. */
  predicate Hidden(s: seq<Card>) {
    forall k :: 0 <= k < |s| ==> !s[k].faceup
  }

  /** Only the top card face-up, as on the waste. */
  predicate ShowsTop(s: seq<Card>) {
    forall k :: 0 <= k < |s| ==> (s[k].faceup <==> k == |s| - 1)
  }

  /** Dealing a card onto the waste keeps only its top card shown. */
  lemma {:induction false} ShowsTopPut(s: seq<Card>, c: Card)
    requires ShowsTop(s)
    ensures ShowsTop(Put(s, c, 'w'))
  {
    var r := Put(s, c, 'w');
    forall k | 0 <= k < |r| ensures r[k].faceup <==> k == |r| - 1 {
      if k + 1 < |s| {
        assert r[k] == s[k];
      }
    }
  }

  /** Two visible piles replaced by piles that hold the same cards between
      them keep the union. */
  lemma {:induction false} HeldMove(v: seq<seq<Card>>, a: nat, b: nat, x: seq<Card>, y: seq<Card>)
    requires |v| == 14 && a < 13 && b < 13 && a != b
    requires Names(x) + Names(y) == Names(v[a]) + Names(v[b])
    ensures Held(v[a := x][b := y], 13) == Held(v, 13)
  {
    var u := v[a := x];
    HeldUpdate(v, a, x, 13);
    assert u[b] == v[b];
    HeldUpdate(u, b, y, 13);
    Cancel(Held(v, 13), Held(u, 13), Held(u[b := y], 13), Names(v[a]), Names(x), Names(v[b]), Names(y));
  }

  /** A visible pile that keeps the names of its cards keeps the union. */
  lemma {:induction false} HeldKeep(v: seq<seq<Card>>, a: nat, x: seq<Card>)
    requires |v| == 14 && a < 13 && Names(x) == Names(v[a])
    ensures Held(v[a := x], 13) == Held(v, 13)
  {
    HeldFrame(v, v[a := x], 13);
  }

  /** When the visible piles hold 52 cards, two different ones fit in one buffer. */
  lemma {:induction false} Fits(v: seq<seq<Card>>, a: nat, b: nat)
    requires Shaped(v) && |Held(v, 13)| == 52 && a < 13 && b < 13 && a != b
    ensures |v[a]| + |v[b]| <= Capacity
  {
    var u := v[a := []];
    var h, hu, hw := Held(v, 13), Held(u, 13), Held(u[b := []], 13);
    assert Names([]) == multiset{};
    HeldUpdate(v, a, [], 13);
    assert hu + Names(v[a]) == h;
    assert |hu| + |v[a]| == |h|;
    HeldUpdate(u, b, [], 13);
    assert u[b] == v[b];
    assert hw + Names(v[b]) == hu;
    assert |hw| + |v[b]| == |hu|;
  }

  /** move_card: the top card of pile a goes to pile b when the placement
      rule for destc accepts it; nothing changes otherwise. */
  function MoveTop(v: seq<seq<Card>>, a: nat, b: nat, destc: char): (r: (bool, seq<seq<Card>>))
    requires Shaped(v) && a < 14 && b < 14 && a != b && v[a] != []
    requires |v[b]| < Capacity || !Legal(v[a][|v[a]| - 1], a == 0, TopOf(v[b]), destc)
    ensures Shaped(r.1) && forall i :: 0 <= i < 14 && i != a && i != b ==> r.1[i] == v[i]
    ensures r.0 <==> Legal(v[a][|v[a]| - 1], a == 0, TopOf(v[b]), destc)
    ensures r.0 ==> |r.1[a]| + 1 == |v[a]| && |r.1[b]| == |v[b]| + 1
    ensures !r.0 ==> r.1 == v
  {
    var c := v[a][|v[a]| - 1];
    if Legal(c, a == 0, TopOf(v[b]), destc) then
      (true, v[a := v[a][..|v[a]| - 1]][b := Put(v[b], c, destc)])
    else
      (false, v)
  }

  /** A move by move_card keeps the names of the two piles' cards together. */
  lemma {:induction false} MoveTopKeepsCards(v: seq<seq<Card>>, a: nat, b: nat, destc: char)
    requires Shaped(v) && a < 14 && b < 14 && a != b && v[a] != []
    requires |v[b]| < Capacity || !Legal(v[a][|v[a]| - 1], a == 0, TopOf(v[b]), destc)
    ensures var r := MoveTop(v, a, b, destc).1;
      Names(r[a]) + Names(r[b]) == Names(v[a]) + Names(v[b])
  {
    var r := MoveTop(v, a, b, destc).1;
    if MoveTop(v, a, b, destc).0 {
      var n := |v[a]|;
      assert r[a] == v[a][..n - 1] && r[b] == Put(v[b], v[a][n - 1], destc);
      TopMoveNames(v[a], v[b], destc);
    }
  }

  /** Taking the top card off s and placing it on t keeps their names together. */
  lemma {:induction false} TopMoveNames(s: seq<Card>, t: seq<Card>, destc: char)
    requires s != []
    ensures Names(s[..|s| - 1]) + Names(Put(t, s[|s| - 1], destc)) == Names(s) + Names(t)
  {
    var n := |s|;
    PopNames(s, n);
    assert s[..n] == s;
    PutNames(t, s[n - 1], destc);
  }

  /** exec_input's deal (code 1) as the code does it. When the stack is
      empty, `stack.pointer = waste.pointer; waste.pointer = 0` moves no
      card: the stack shows again the bottom |waste| slots of its own buffer
      buf, whatever they hold, and the waste is empty. Then move_card deals
      the stack's top card onto the waste with the waste letter. */
  function Deal(v: seq<seq<Card>>, buf: seq<Card>): (r: seq<seq<Card>>)
    requires Shaped(v) && |buf| == Capacity && (v[0] != [] || v[1] != []) && (v[0] == [] || |v[1]| < Capacity)
    ensures Shaped(r) && forall i :: 2 <= i < 14 ==> r[i] == v[i]
  {
    var u := if v[0] == [] then v[0 := RecycledAsWritten(buf, |v[1]|)][1 := []] else v;
    MoveTop(u, 0, 1, 'w').1
  }

  /** The deal as the game means it: an empty stack takes the waste turned
      over, face-down (Rules.Recycled), before the top card is dealt. */
  function IntendedDeal(v: seq<seq<Card>>): (r: seq<seq<Card>>)
    requires Shaped(v) && (v[0] != [] || v[1] != []) && (v[0] == [] || |v[1]| < Capacity)
    ensures Shaped(r) && forall i :: 2 <= i < 14 ==> r[i] == v[i]
  {
    var u := if v[0] == [] then v[0 := Recycled(v[1])][1 := []] else v;
    MoveTop(u, 0, 1, 'w').1
  }

  /** The deal always moves a card: one card fewer in the stack than before
      (after the pointers moved), one more on the waste, shown face-up on
      top; from a stack that is not empty both deals are the same. */
  lemma {:induction false} DealMovesOne(v: seq<seq<Card>>, buf: seq<Card>)
    requires Shaped(v) && |buf| == Capacity && (v[0] != [] || v[1] != []) && (v[0] == [] || |v[1]| < Capacity)
    ensures var r := Deal(v, buf);
      (v[0] != [] ==> |r[0]| + 1 == |v[0]| && |r[1]| == |v[1]| + 1 && r == IntendedDeal(v)) &&
      (v[0] == [] ==> |r[0]| + 1 == |v[1]| && |r[1]| == 1) &&
      r[1][|r[1]| - 1].faceup
  {
    var u := if v[0] == [] then v[0 := RecycledAsWritten(buf, |v[1]|)][1 := []] else v;
    OtherLetters(u[0][|u[0]| - 1], true, TopOf(u[1]), 'w');
  }

  /** Dealing from an empty stack as written: the stack becomes the bottom
      |waste| - 1 slots of its buffer and the waste the card of the next
      slot, face-up. */
  lemma {:induction false} DealAfterPointersMove(v: seq<seq<Card>>, buf: seq<Card>)
    requires Shaped(v) && |buf| == Capacity && v[0] == [] && v[1] != []
    ensures var r, w := Deal(v, buf), |v[1]|;
      r[0] == buf[..w - 1] && r[1] == [FaceUp(buf[w - 1], true)]
  {
    var w := |v[1]|;
    var u := v[0 := RecycledAsWritten(buf, w)][1 := []];
    assert u[0] == buf[..w];
    OtherLetters(u[0][w - 1], true, TopOf(u[1]), 'w');
    assert u[0][..w - 1] == buf[..w - 1];
  }

  /** While the stack's buffer still holds the 24 cards init_deal put there,
      dealing from an empty stack as written brings back the first |waste|
      of them in the order init_deal dealt them, face-down, whatever cards
      the waste held: the stack keeps the first |waste| - 1 and the waste
      shows the next. */
  lemma {:induction false} RecycledStackAsWritten(v: seq<seq<Card>>, buf: seq<Card>, deck: seq<Card>)
    requires Shaped(v) && |buf| == Capacity && |deck| == 52 && buf[..24] == StackDealt(deck)
    requires v[0] == [] && v[1] != [] && |v[1]| <= 24
    ensures var r, w := Deal(v, buf), |v[1]|;
      r[0] == StackDealt(deck)[..w - 1] && Hidden(r[0]) &&
      r[1] == [FaceUp(StackDealt(deck)[w - 1], true)]
  {
    var w := |v[1]|;
    DealAfterPointersMove(v, buf);
    assert buf[..w - 1] == StackDealt(deck)[..w - 1] && buf[w - 1] == StackDealt(deck)[w - 1] by {
      assert buf[..w - 1] == buf[..24][..w - 1];
      assert buf[w - 1] == buf[..24][w - 1];
    }
  }

  /** Two visible piles replaced by piles that hold the same cards between
      them, each as the invariant asks of its position, keep a game in
      progress. */
  lemma {:induction false} PilesKeepPlay(v: seq<seq<Card>>, deck: multiset<(char, char)>, a: nat, b: nat, x: seq<Card>, y: seq<Card>)
    requires InPlay(v, deck) && a < 13 && b < 13 && a != b && |x| <= Capacity && |y| <= Capacity
    requires Names(x) + Names(y) == Names(v[a]) + Names(v[b])
    requires PileOk(a, x) && PileOk(b, y)
    ensures InPlay(v[a := x][b := y], deck)
  {
    HeldMove(v, a, b, x, y);
    PilesRest(v, deck, a, b, x, y);
  }

  lemma {:induction false} PilesRest(v: seq<seq<Card>>, deck: multiset<(char, char)>, a: nat, b: nat, x: seq<Card>, y: seq<Card>)
    requires InPlay(v, deck) && a < 13 && b < 13 && a != b && |x| <= Capacity && |y| <= Capacity
    requires Held(v[a := x][b := y], 13) == deck && PileOk(a, x) && PileOk(b, y)
    ensures InPlay(v[a := x][b := y], deck)
  {
    var v' := v[a := x][b := y];
    assert forall i :: 0 <= i < 13 && i != a && i != b ==> v'[i] == v[i];
  }

  /** One visible pile replaced by one with the same cards, as the invariant
      asks of its position, keeps a game in progress. */
  lemma {:induction false} PileKeepsPlay(v: seq<seq<Card>>, deck: multiset<(char, char)>, a: nat, x: seq<Card>)
    requires InPlay(v, deck) && a < 13 && |x| <= Capacity
    requires Names(x) == Names(v[a]) && PileOk(a, x)
    ensures InPlay(v[a := x], deck)
  {
    HeldKeep(v, a, x);
    PileRest(v, deck, a, x);
  }

  lemma {:induction false} PileRest(v: seq<seq<Card>>, deck: multiset<(char, char)>, a: nat, x: seq<Card>)
    requires InPlay(v, deck) && a < 13 && |x| <= Capacity
    requires Held(v[a := x], 13) == deck && PileOk(a, x)
    ensures InPlay(v[a := x], deck)
  {
  }

  /** Whatever temppile holds is no part of the invariant. */
  lemma {:induction false} TempKeepsPlay(v: seq<seq<Card>>, deck: multiset<(char, char)>, t: seq<Card>)
    requires InPlay(v, deck) && |t| <= Capacity
    ensures InPlay(v[13 := t], deck)
  {
    var v' := v[13 := t];
    forall i | 0 <= i < 13 ensures Names(v'[i]) == Names(v[i]) && PileOk(i, v'[i]) {
      assert v'[i] == v[i];
    }
    HeldFrame(v, v', 13);
  }

  /** Gathering up the waste into an empty stack keeps a game in progress. */
  lemma {:induction false} RecycleKeepsPlay(v: seq<seq<Card>>, deck: multiset<(char, char)>)
    requires InPlay(v, deck) && v[0] == []
    ensures InPlay(v[0 := Recycled(v[1])][1 := []], deck)
  {
    RecycledKeepsCards(v[1]);
    PilesKeepPlay(v, deck, 0, 1, Recycled(v[1]), []);
  }

  /** Dealing from a stack that is not empty keeps a game in progress. */
  lemma {:induction false} DealFromStackKeepsPlay(v: seq<seq<Card>>, deck: multiset<(char, char)>)
    requires InPlay(v, deck) && v[0] != []
    ensures |v[1]| < Capacity && InPlay(MoveTop(v, 0, 1, 'w').1, deck)
  {
    assert |v[1]| < Capacity by {
      Fits(v, 0, 1);
    }
    DealFromStack(v);
    DealtTopKeepsPlay(v, deck);
  }

  lemma {:induction false} DealtTopKeepsPlay(v: seq<seq<Card>>, deck: multiset<(char, char)>)
    requires InPlay(v, deck) && v[0] != [] && |v[1]| < Capacity
    ensures InPlay(v[0 := v[0][..|v[0]| - 1]][1 := Put(v[1], v[0][|v[0]| - 1], 'w')], deck)
  {
    var w, c := v[1], v[0][|v[0]| - 1];
    TopMoveNames(v[0], w, 'w');
    ShowsTopPut(w, c);
    PilesKeepPlay(v, deck, 0, 1, v[0][..|v[0]| - 1], Put(w, c, 'w'));
  }

  /** A deal from a stack that is not empty: its top card goes onto the waste. */
  lemma {:induction false} DealFromStack(v: seq<seq<Card>>)
    requires Shaped(v) && v[0] != [] && |v[1]| < Capacity
    ensures MoveTop(v, 0, 1, 'w').1 == v[0 := v[0][..|v[0]| - 1]][1 := Put(v[1], v[0][|v[0]| - 1], 'w')]
    ensures MoveTop(v, 0, 1, 'w').0
  {
    OtherLetters(v[0][|v[0]| - 1], true, TopOf(v[1]), 'w');
  }

  /** The deal as the game means it keeps a game in progress. */
  lemma {:induction false} DealKeepsPlay(v: seq<seq<Card>>, deck: multiset<(char, char)>)
    requires InPlay(v, deck) && (v[0] != [] || v[1] != [])
    ensures v[0] == [] || |v[1]| < Capacity
    ensures InPlay(IntendedDeal(v), deck)
  {
    if v[0] == [] {
      var u := v[0 := Recycled(v[1])][1 := []];
      RecycleKeepsPlay(v, deck);
      DealFromStackKeepsPlay(u, deck);
    } else {
      DealFromStackKeepsPlay(v, deck);
    }
  }

  /** What a game keeps while the waste is recycled as the code does it:
      the layout InPlay asks for, except that the thirteen visible piles
      hold some 52 cards, not necessarily each card of the deck once; the
      first 24 slots of the stack's buffer buf, where init_deal put the
      stack, are face-down; the stack shows the bottom slots of that buffer;
      and the stack and the waste hold no more than those 24 cards. */
  ghost predicate Running(v: seq<seq<Card>>, buf: seq<Card>) {
    Shaped(v) && InPlay(v, Held(v, 13)) && |buf| == Capacity && Hidden(buf[..24]) &&
    |v[0]| + |v[1]| <= 24 && v[0] == buf[..|v[0]|]
  }

  /** Moving the pointers to gather up the waste keeps a running game: the
      piles hold as many cards as before, and the stack shows bottom slots
      of its buffer. */
  lemma {:induction false} PointersMoveKeepsRunning(v: seq<seq<Card>>, buf: seq<Card>)
    requires Running(v, buf) && v[0] == []
    ensures Running(v[0 := RecycledAsWritten(buf, |v[1]|)][1 := []], buf)
  {
    var w := |v[1]|;
    var x := RecycledAsWritten(buf, w);
    var u := v[0 := x][1 := []];
    assert x == buf[..w];
    assert Hidden(x) by {
      assert forall k :: 0 <= k < w ==> x[k] == buf[..24][k];
    }
    HeldGathered(v, x);
    forall i | 0 <= i < 13 ensures PileOk(i, u[i]) {
      if 2 <= i {
        assert u[i] == v[i] && PileOk(i, v[i]);
      }
    }
  }

  /** Replacing the stack and the waste by piles as large between them
      keeps the number of visible cards. */
  lemma {:induction false} HeldGathered(v: seq<seq<Card>>, x: seq<Card>)
    requires |v| == 14 && |x| == |v[0]| + |v[1]|
    ensures |Held(v[0 := x][1 := []], 13)| == |Held(v, 13)|
  {
    var u0 := v[0 := x];
    var u := u0[1 := []];
    HeldUpdate(v, 0, x, 13);
    assert |Held(u0, 13)| + |v[0]| == |Held(v, 13)| + |x| by {
      assert |Held(u0, 13) + Names(v[0])| == |Held(v, 13) + Names(x)|;
    }
    HeldUpdate(u0, 1, [], 13);
    assert u0[1] == v[1];
    assert |Held(u, 13)| + |v[1]| == |Held(u0, 13)| + 0 by {
      assert |Held(u, 13) + Names(u0[1])| == |Held(u0, 13) + Names([])|;
    }
  }

  /** Both deals keep a running game. */
  lemma {:induction false} DealKeepsRunning(v: seq<seq<Card>>, buf: seq<Card>)
    requires Running(v, buf) && (v[0] != [] || v[1] != [])
    ensures v[0] == [] || |v[1]| < Capacity
    ensures Running(Deal(v, buf), buf)
  {
    var u := if v[0] == [] then v[0 := RecycledAsWritten(buf, |v[1]|)][1 := []] else v;
    if v[0] == [] {
      PointersMoveKeepsRunning(v, buf);
    }
    DealFromStackKeepsPlay(u, Held(u, 13));
    DealFromStack(u);
    var r := MoveTop(u, 0, 1, 'w').1;
    assert r[0] == buf[..|u[0]| - 1] by {
      assert r[0] == u[0][..|u[0]| - 1];
    }
  }

  /** exec_input's waste move: move_card from the waste, and when it moved,
      the new top of the waste (if any) is turned face-up. */
  function WasteMove(v: seq<seq<Card>>, b: nat, destc: char): (r: (bool, seq<seq<Card>>))
    requires Shaped(v) && 2 <= b < 13 && v[1] != []
    requires |v[b]| < Capacity || !Legal(v[1][|v[1]| - 1], false, TopOf(v[b]), destc)
    ensures Shaped(r.1) && forall i :: 0 <= i < 14 && i != 1 && i != b ==> r.1[i] == v[i]
    ensures r.0 <==> Legal(v[1][|v[1]| - 1], false, TopOf(v[b]), destc)
    ensures r.0 ==> r.1[b] == Put(v[b], v[1][|v[1]| - 1], destc)
    ensures r.0 ==> SameCards(r.1[1], v[1][..|v[1]| - 1]) && (|r.1[1]| > 0 ==> r.1[1][|r.1[1]| - 1].faceup)
    ensures !r.0 ==> r.1 == v
  {
    var m := MoveTop(v, 1, b, destc);
    if m.0 then (true, m.1[1 := TurnedUp(m.1[1], |m.1[1]|)]) else m
  }

  /** Turning up the top card of a waste whose top card alone was shown
      shows its top card alone again. */
  lemma {:induction false} ShowsTopTurnedUp(w: seq<Card>)
    requires ShowsTop(w) && w != []
    ensures ShowsTop(TurnedUp(w[..|w| - 1], |w| - 1))
  {
    var s := w[..|w| - 1];
    var r := TurnedUp(s, |s|);
    forall k | 0 <= k < |r| ensures r[k].faceup <==> k == |r| - 1 {
      if k < |r| - 1 {
        assert r[k] == s[k] == w[k];
      }
    }
  }

  /** A waste move keeps a game in progress, provided a foundation is only
      ever named with the foundation letter. */
  lemma {:induction false} WasteMoveKeepsPlay(v: seq<seq<Card>>, deck: multiset<(char, char)>, b: nat, destc: char)
    requires InPlay(v, deck) && 2 <= b < 13 && v[1] != [] && (9 <= b ==> destc == 'f')
    ensures |v[b]| < Capacity && InPlay(WasteMove(v, b, destc).1, deck)
  {
    Fits(v, 1, b);
    if WasteMove(v, b, destc).0 {
      WasteMoveResult(v, b, destc);
      var n := |v[1]|;
      WasteMovedKeepsPlay(v, deck, b, destc, TurnedUp(v[1][..n - 1], n - 1), Put(v[b], v[1][n - 1], destc));
    }
  }

  /** The waste without its top card, its new top turned up, and the
      destination with the card placed keep a game in progress. */
  lemma {:induction false} WasteMovedKeepsPlay(v: seq<seq<Card>>, deck: multiset<(char, char)>, b: nat, destc: char,
                                               w: seq<Card>, d: seq<Card>)
    requires InPlay(v, deck) && 2 <= b < 13 && v[1] != [] && (9 <= b ==> destc == 'f')
    requires |v[b]| < Capacity && Legal(v[1][|v[1]| - 1], false, TopOf(v[b]), destc)
    requires w == TurnedUp(v[1][..|v[1]| - 1], |v[1]| - 1) && d == Put(v[b], v[1][|v[1]| - 1], destc)
    ensures InPlay(v[1 := w][b := d], deck)
  {
    var n, c := |v[1]|, v[1][|v[1]| - 1];
    assert Names(w) + Names(d) == Names(v[1]) + Names(v[b]) by {
      TopMoveNames(v[1], v[b], destc);
      SameCardsNames(w, v[1][..n - 1]);
    }
    ShowsTopTurnedUp(v[1]);
    if 9 <= b {
      FoundationPut(v[b], c);
    }
    PilesKeepPlay(v, deck, 1, b, w, d);
  }

  /** The layout after a waste move that moved. */
  lemma {:induction false} WasteMoveResult(v: seq<seq<Card>>, b: nat, destc: char)
    requires Shaped(v) && 2 <= b < 13 && v[1] != [] && |v[b]| < Capacity
    requires WasteMove(v, b, destc).0
    ensures var n := |v[1]|;
      WasteMove(v, b, destc).1 == v[1 := TurnedUp(v[1][..n - 1], n - 1)][b := Put(v[b], v[1][n - 1], destc)]
  {
  }

  /** A card the foundation rule accepts, placed with the foundation letter,
      extends a foundation run. */
  lemma {:induction false} FoundationPut(s: seq<Card>, c: Card)
    requires FoundationRun(s) && Legal(c, false, TopOf(s), 'f')
    ensures FoundationRun(Put(s, c, 'f'))
  {
    FoundationGrows(s, c, false);
    assert Put(s, c, 'f') == s + [c];
  }

  /** exec_input's turn-up: the top card of tableau j is turned face-up. */
  function TurnOver(v: seq<seq<Card>>, j: nat): (r: seq<seq<Card>>)
    requires Shaped(v) && j < 7
    ensures Shaped(r) && forall i :: 0 <= i < 14 && i != 2 + j ==> r[i] == v[i]
    ensures SameCards(r[2 + j], v[2 + j]) && (v[2 + j] != [] ==> r[2 + j][|v[2 + j]| - 1].faceup)
  {
    v[2 + j := TurnedUp(v[2 + j], |v[2 + j]|)]
  }

  /** Turning up a tableau card keeps a game in progress. */
  lemma {:induction false} TurnOverKeepsPlay(v: seq<seq<Card>>, deck: multiset<(char, char)>, j: nat)
    requires InPlay(v, deck) && j < 7
    ensures InPlay(TurnOver(v, j), deck)
  {
    var t := TurnedUp(v[2 + j], |v[2 + j]|);
    SameCardsNames(t, v[2 + j]);
    PileKeepsPlay(v, deck, 2 + j, t);
  }

  /** The block a pile move of m cards takes off pile a: its top m cards,
      bottom card first, the order in which move_card takes them back off
      temppile. */
  function Block(v: seq<seq<Card>>, a: nat, m: nat): (b: seq<Card>)
    requires a < |v| && m <= |v[a]|
    ensures |b| == m && v[a] == v[a][..|v[a]| - m] + b
  {
    v[a][|v[a]| - m..]
  }

  /** The destination once the block is off the source. */
  function Base(v: seq<seq<Card>>, a: nat, b: nat, m: nat): seq<Card>
    requires a < |v| && b < |v| && m <= |v[a]|
  {
    if a == b then v[a][..|v[a]| - m] else v[b]
  }

  /** How many cards of the block the destination accepts. */
  function Taken(v: seq<seq<Card>>, a: nat, b: nat, destc: char, m: nat): (k: nat)
    requires a < |v| && b < |v| && m <= |v[a]|
    ensures k <= m
  {
    Accepted(Block(v, a, m), TopOf(Base(v, a, b, m)), destc)
  }

  /** What a pile move needs so that no push or pop leaves a buffer. */
  predicate MultiFits(v: seq<seq<Card>>, a: nat, b: nat, destc: char, m: nat) {
    Shaped(v) && 2 <= a < 13 && 2 <= b < 13 && m <= |v[a]| && |v[13]| + m <= Capacity &&
    (a != b ==> |v[b]| + Taken(v, a, b, destc, m) <= Capacity)
  }

  /** exec_input's pile move: m cards go from pile a onto temppile, then
      move_card moves them one by one onto pile b. When the k-th is refused,
      the source pointer goes up by m and the destination pointer down by k:
      the source shows its block again (or, when it is the destination, the
      cards placed so far and the rest of the block), the destination its
      old cards, and temppile keeps the m - k cards still on it. */
  function Multi(v: seq<seq<Card>>, a: nat, b: nat, destc: char, m: nat): (r: (nat, seq<seq<Card>>))
    requires MultiFits(v, a, b, destc, m)
    ensures r.0 == Taken(v, a, b, destc, m)
    ensures Shaped(r.1) && forall i :: 0 <= i < 13 && i != a && i != b ==> r.1[i] == v[i]
  {
    var k := Taken(v, a, b, destc, m);
    if k == m then (k, Landed(v, a, b, destc, m)) else (k, Refused(v, a, b, destc, m))
  }

  /** The layout after push(pop(a), b): the top card of a on top of b. */
  function Moved(v: seq<seq<Card>>, a: nat, b: nat): (r: seq<seq<Card>>)
    requires |v| == 14 && a < 14 && b < 14 && a != b && v[a] != []
    ensures |r| == 14 && forall i :: 0 <= i < 14 && i != a && i != b ==> r[i] == v[i]
    ensures r[a] + [v[a][|v[a]| - 1]] == v[a] && r[b] == v[b] + [v[a][|v[a]| - 1]]
  {
    v[a := v[a][..|v[a]| - 1]][b := v[b] + [v[a][|v[a]| - 1]]]
  }

  /** The layout after the first k pushes of a pile move from a: the top k
      cards of a on temppile, reversed. */
  function Lifting(v: seq<seq<Card>>, a: nat, k: nat): (r: seq<seq<Card>>)
    requires |v| == 14 && a < 13 && k <= |v[a]|
    ensures |r| == 14 && forall i :: 0 <= i < 14 && i != a && i != 13 ==> r[i] == v[i]
    ensures |r[13]| == |v[13]| + k && r[a] + v[a][|v[a]| - k..] == v[a] && r[13][..|v[13]|] == v[13]
    ensures forall t :: |v[13]| <= t < |r[13]| ==> r[13][t] == v[a][|v[a]| + |v[13]| - 1 - t]
  {
    v[a := v[a][..|v[a]| - k]][13 := v[13] + Reversed(v[a][|v[a]| - k..])]
  }

  /** Before the first push nothing has moved. */
  lemma {:induction false} LiftingNone(v: seq<seq<Card>>, a: nat)
    requires |v| == 14 && a < 13
    ensures Lifting(v, a, 0) == v
  {
    var n := |v[a]|;
    assert v[a][n..] == [] && v[a][..n] == v[a];
    assert v[13] + Reversed([]) == v[13];
    assert v[a := v[a]][13 := v[13]] == v;
  }

  /** One more push of the first loop of the pile move. */
  lemma {:induction false} LiftStep(v: seq<seq<Card>>, a: nat, k: nat)
    requires |v| == 14 && a < 13 && k < |v[a]|
    ensures Moved(Lifting(v, a, k), a, 13) == Lifting(v, a, k + 1)
  {
    var n := |v[a]|;
    var c, top := v[a][n - k - 1], v[a][n - k..];
    var l, r := Lifting(v, a, k), Lifting(v, a, k + 1);
    assert l[a][|l[a]| - 1] == c && l[a][..|l[a]| - 1] == r[a] by {
      assert l[a] == v[a][..n - k];
    }
    assert l[13] + [c] == r[13] by {
      assert v[a][n - k - 1..] == [c] + top;
      ReversedCons(c, top);
    }
    UpdateTwice(v, a, 13, l[a], l[13], r[a], r[13]);
  }

  /** Updating the same two positions twice keeps the second values. */
  lemma {:induction false} UpdateTwice<T>(v: seq<T>, i: nat, j: nat, x: T, y: T, x': T, y': T)
    requires i < |v| && j < |v| && i != j
    ensures v[i := x][j := y][i := x'][j := y'] == v[i := x'][j := y']
  {
  }

  /** The layout after the first k placements of the second loop of the
      pile move: k cards off the top of temppile, placed one by one on b. */
  function Placing(v: seq<seq<Card>>, b: nat, block: seq<Card>, destc: char, k: nat): (r: seq<seq<Card>>)
    requires |v| == 14 && b < 13 && k <= |block| && k <= |v[13]|
    ensures |r| == 14 && forall i :: 0 <= i < 14 && i != b && i != 13 ==> r[i] == v[i]
    ensures |r[b]| == |v[b]| + k && r[13] + v[13][|v[13]| - k..] == v[13]
  {
    v[b := PutAll(v[b], block[..k], destc)][13 := v[13][..|v[13]| - k]]
  }

  /** What the second loop starts from: temppile holds the block reversed
      on top, and the destination has room for the cards it accepts. */
  predicate PlaceFits(v: seq<seq<Card>>, b: nat, block: seq<Card>, destc: char) {
    Shaped(v) && 2 <= b < 13 && |block| <= |v[13]| &&
    v[13][|v[13]| - |block|..] == Reversed(block) &&
    |v[b]| + Accepted(block, TopOf(v[b]), destc) <= Capacity
  }

  /** Before the first placement nothing has moved. */
  lemma {:induction false} PlacingNone(v: seq<seq<Card>>, b: nat, block: seq<Card>, destc: char)
    requires |v| == 14 && b < 13
    ensures Placing(v, b, block, destc, 0) == v
  {
    assert block[..0] == [] && v[13][..|v[13]|] == v[13];
    assert v[b := v[b]][13 := v[13]] == v;
  }

  /** Placement k + 1 moves card k of the block when the destination
      accepts it, and only then. */
  lemma {:induction false} PlaceStep(v: seq<seq<Card>>, b: nat, block: seq<Card>, destc: char, k: nat)
    requires PlaceFits(v, b, block, destc) && k < |block| && k <= Accepted(block, TopOf(v[b]), destc)
    ensures var u := Placing(v, b, block, destc, k);
      Shaped(u) && u[13] != [] && u[13][|u[13]| - 1] == block[k] &&
      (|u[b]| < Capacity || !Legal(block[k], false, TopOf(u[b]), destc)) &&
      (MoveTop(u, 13, b, destc).0 <==> k < Accepted(block, TopOf(v[b]), destc)) &&
      (MoveTop(u, 13, b, destc).0 ==> MoveTop(u, 13, b, destc).1 == Placing(v, b, block, destc, k + 1))
  {
    var u := Placing(v, b, block, destc, k);
    var n, m := |v[13]|, |block|;
    assert u[13][|u[13]| - 1] == block[k] by {
      assert u[13][n - k - 1] == v[13][n - m..][m - k - 1];
    }
    AcceptedNext(v[b], block, destc, k);
    assert u[b] == PutAll(v[b], block[..k], destc);
    if k < Accepted(block, TopOf(v[b]), destc) {
      PlaceStepMoved(v, b, block, destc, k);
    }
  }

  /** The placement itself, when card k is accepted. */
  lemma {:induction false} PlaceStepMoved(v: seq<seq<Card>>, b: nat, block: seq<Card>, destc: char, k: nat)
    requires PlaceFits(v, b, block, destc) && k < Accepted(block, TopOf(v[b]), destc)
    requires var u := Placing(v, b, block, destc, k);
      u[13] != [] && u[13][|u[13]| - 1] == block[k] && Legal(block[k], false, TopOf(u[b]), destc)
    ensures MoveTop(Placing(v, b, block, destc, k), 13, b, destc).1 == Placing(v, b, block, destc, k + 1)
  {
    var u, n := Placing(v, b, block, destc, k), |v[13]|;
    var r, w := MoveTop(u, 13, b, destc).1, Placing(v, b, block, destc, k + 1);
    PutAllPrefix(v[b], block, destc, k);
    assert r[b] == w[b];
    assert r[13] == w[13] by {
      assert v[13][..n - k][..n - k - 1] == v[13][..n - (k + 1)];
    }
    forall i | 0 <= i < 14 ensures r[i] == w[i] {
      if i != b && i != 13 {
        assert r[i] == u[i] == v[i];
      }
    }
  }

  /** After the first loop of a pile move the second can start: temppile
      holds the block reversed, and the destination shows its base. */
  lemma {:induction false} LiftedFits(v: seq<seq<Card>>, a: nat, b: nat, destc: char, m: nat)
    requires MultiFits(v, a, b, destc, m)
    ensures var u := Lifting(v, a, m);
      u[b] == Base(v, a, b, m) && PlaceFits(u, b, Block(v, a, m), destc)
  {
    var u, n := Lifting(v, a, m), |v[13]|;
    assert u[13][n..] == Reversed(Block(v, a, m));
  }

  /** When every card was placed, the two loops leave the landed layout. */
  lemma {:induction false} PlacedAll(v: seq<seq<Card>>, a: nat, b: nat, destc: char, m: nat)
    requires MultiFits(v, a, b, destc, m) && Taken(v, a, b, destc, m) == m
    ensures Placing(Lifting(v, a, m), b, Block(v, a, m), destc, m) == Landed(v, a, b, destc, m)
  {
    var u := Lifting(v, a, m);
    LiftedFits(v, a, b, destc, m);
    assert Block(v, a, m)[..m] == Block(v, a, m);
    assert u[13][..|u[13]| - m] == v[13];
  }

  /** After the first loop and k placements, temppile holds its old cards
      and the last m - k cards of the block, reversed. */
  lemma {:induction false} PlacingTemp(v: seq<seq<Card>>, a: nat, b: nat, destc: char, m: nat, k: nat)
    requires |v| == 14 && 2 <= a < 13 && 2 <= b < 13 && m <= |v[a]| && k <= m
    ensures Placing(Lifting(v, a, m), b, Block(v, a, m), destc, k)[13] == v[13] + Reversed(Block(v, a, m)[k..])
  {
    var block, n := Block(v, a, m), |v[13]|;
    ReversedSuffix(block, k);
    assert (v[13] + Reversed(block))[..n + m - k] == v[13] + Reversed(block)[..m - k];
  }

  /** When card k was refused and a and b differ, raising a's pointer by m
      shows its old cards again, and lowering b's by k shows b's old cards. */
  lemma {:induction false} RefusedApart(v: seq<seq<Card>>, a: nat, b: nat, destc: char, m: nat)
    requires MultiFits(v, a, b, destc, m) && Taken(v, a, b, destc, m) < m && a != b
    ensures var w := Placing(Lifting(v, a, m), b, Block(v, a, m), destc, Taken(v, a, b, destc, m));
      |v[b]| <= |w[b]| && w[a := v[a]][b := w[b][..|v[b]|]] == Refused(v, a, b, destc, m)
  {
    RefusedApartAt(v, a, b, destc, m, Taken(v, a, b, destc, m));
  }

  lemma {:induction false} RefusedApartAt(v: seq<seq<Card>>, a: nat, b: nat, destc: char, m: nat, k: nat)
    requires Shaped(v) && 2 <= a < 13 && 2 <= b < 13 && a != b && k <= m <= |v[a]| && |v[13]| + m <= Capacity
    ensures var w := Placing(Lifting(v, a, m), b, Block(v, a, m), destc, k);
      |v[b]| <= |w[b]| && w[a := v[a]][b := w[b][..|v[b]|]] == RefusedAt(v, a, b, destc, m, k)
  {
    var block := Block(v, a, m);
    var w := Placing(Lifting(v, a, m), b, block, destc, k);
    PlacingTemp(v, a, b, destc, m, k);
    assert w[b] == PutAll(v[b], block[..k], destc);
    var x := w[b][..|v[b]|];
    var r := RefusedAt(v, a, b, destc, m, k);
    assert r == v[b := x][13 := w[13]];
    forall i | 0 <= i < 14 ensures w[a := v[a]][b := x][i] == r[i] {
      if i != a && i != b && i != 13 {
        assert w[i] == v[i];
      }
    }
  }

  /** When card k was refused and a is b, the pile shows the k cards placed
      and above them the m - k the buffer still holds from before. */
  lemma {:induction false} RefusedInPlace(v: seq<seq<Card>>, a: nat, destc: char, m: nat)
    requires MultiFits(v, a, a, destc, m) && Taken(v, a, a, destc, m) < m
    ensures var w := Placing(Lifting(v, a, m), a, Block(v, a, m), destc, Taken(v, a, a, destc, m));
      w[a := w[a] + Block(v, a, m)[Taken(v, a, a, destc, m)..]] == Refused(v, a, a, destc, m)
  {
    RefusedInPlaceAt(v, a, destc, m, Taken(v, a, a, destc, m));
  }

  lemma {:induction false} RefusedInPlaceAt(v: seq<seq<Card>>, a: nat, destc: char, m: nat, k: nat)
    requires Shaped(v) && 2 <= a < 13 && k <= m <= |v[a]| && |v[13]| + m <= Capacity
    ensures var w := Placing(Lifting(v, a, m), a, Block(v, a, m), destc, k);
      w[a := w[a] + Block(v, a, m)[k..]] == RefusedAt(v, a, a, destc, m, k)
  {
    var block := Block(v, a, m);
    var w := Placing(Lifting(v, a, m), a, block, destc, k);
    var x := w[a] + block[k..];
    PlacingTemp(v, a, a, destc, m, k);
    assert w[a] == PutAll(Base(v, a, a, m), block[..k], destc);
    var r := RefusedAt(v, a, a, destc, m, k);
    assert r == v[a := x][13 := w[13]];
    forall i | 0 <= i < 14 ensures w[a := x][i] == r[i] {
      if i != a && i != 13 {
        assert w[i] == v[i];
      }
    }
  }

  /** The layout after every card of the block was accepted. */
  function Landed(v: seq<seq<Card>>, a: nat, b: nat, destc: char, m: nat): (r: seq<seq<Card>>)
    requires MultiFits(v, a, b, destc, m) && Taken(v, a, b, destc, m) == m
    ensures Shaped(r) && forall i :: 0 <= i < 14 && i != a && i != b ==> r[i] == v[i]
  {
    v[a := v[a][..|v[a]| - m]][b := PutAll(Base(v, a, b, m), Block(v, a, m), destc)]
  }

  /** The layout after the k-th card of the block was refused. */
  function Refused(v: seq<seq<Card>>, a: nat, b: nat, destc: char, m: nat): (r: seq<seq<Card>>)
    requires MultiFits(v, a, b, destc, m) && Taken(v, a, b, destc, m) < m
    ensures Shaped(r) && forall i :: 0 <= i < 13 && i != a && i != b ==> r[i] == v[i]
    ensures |r[13]| == |v[13]| + m - Taken(v, a, b, destc, m) > |v[13]|
  {
    RefusedAt(v, a, b, destc, m, Taken(v, a, b, destc, m))
  }

  /** The layout after the first k cards of the block were placed and the
      next one refused. */
  function RefusedAt(v: seq<seq<Card>>, a: nat, b: nat, destc: char, m: nat, k: nat): (r: seq<seq<Card>>)
    requires Shaped(v) && 2 <= a < 13 && 2 <= b < 13 && k <= m <= |v[a]| && |v[13]| + m <= Capacity
    ensures Shaped(r) && forall i :: 0 <= i < 13 && i != a && i != b ==> r[i] == v[i]
    ensures |r[13]| == |v[13]| + m - k
  {
    var block, base := Block(v, a, m), Base(v, a, b, m);
    var t := v[13] + Reversed(block[k..]);
    if a == b then v[a := PutAll(base, block[..k], destc) + block[k..]][13 := t]
    else v[b := PutAll(base, block[..k], destc)[..|base|]][13 := t]
  }

  /** A pile move is all or nothing for the destination letters t and f:
      either the whole block lands on the destination, flags unchanged, or
      the thirteen piles the player sees are exactly as before and temppile
      holds the refused cards, the first refused one on top. */
  lemma {:induction false} MultiAllOrNothing(v: seq<seq<Card>>, a: nat, b: nat, destc: char, m: nat)
    requires MultiFits(v, a, b, destc, m) && destc != 'w'
    ensures var r := Multi(v, a, b, destc, m); var block := Block(v, a, m);
      (r.0 == m ==> r.1[13] == v[13] && r.1[b] == Base(v, a, b, m) + block &&
                    (a != b ==> r.1[a] == v[a][..|v[a]| - m])) &&
      (r.0 < m ==> r.1[..13] == v[..13] && r.1[13] == v[13] + Reversed(block[r.0..]))
  {
    if Taken(v, a, b, destc, m) == m {
      LandedWhole(v, a, b, destc, m);
    } else {
      RefusedRestores(v, a, b, destc, m);
    }
  }

  /** The pile move as the game means it: temppile is scratch space, left
      after the rollback as the move found it. */
  function MultiCleared(v: seq<seq<Card>>, a: nat, b: nat, destc: char, m: nat): (r: (nat, seq<seq<Card>>))
    requires MultiFits(v, a, b, destc, m)
    ensures Shaped(r.1) && r.1[13] == v[13]
  {
    var x := Multi(v, a, b, destc, m);
    (x.0, x.1[13 := v[13]])
  }

  /** With temppile cleared, a pile move with the letters t and f that is
      refused changes nothing at all, and one that is not refused lands
      whole, as Multi does; temppile never grows, so it never overflows. */
  lemma {:induction false} ClearedAllOrNothing(v: seq<seq<Card>>, a: nat, b: nat, destc: char, m: nat)
    requires MultiFits(v, a, b, destc, m) && destc != 'w'
    ensures var r, x := MultiCleared(v, a, b, destc, m), Multi(v, a, b, destc, m);
      r.0 == x.0 && r.1[..13] == x.1[..13] && (r.0 < m ==> r.1 == v) && (r.0 == m ==> r == x)
  {
    var r, x := MultiCleared(v, a, b, destc, m), Multi(v, a, b, destc, m);
    MultiAllOrNothing(v, a, b, destc, m);
    assert r.1[..13] == x.1[..13];
    if r.0 < m {
      assert r.1[..13] == v[..13];
      assert forall i :: 0 <= i < 14 ==> r.1[i] == v[i] by {
        forall i | 0 <= i < 13 ensures r.1[i] == v[i] {
          assert r.1[..13][i] == v[..13][i];
        }
      }
    } else {
      assert x.1[13 := v[13]] == x.1;
    }
  }

  lemma {:induction false} LandedWhole(v: seq<seq<Card>>, a: nat, b: nat, destc: char, m: nat)
    requires MultiFits(v, a, b, destc, m) && destc != 'w' && Taken(v, a, b, destc, m) == m
    ensures var r := Landed(v, a, b, destc, m);
      r[13] == v[13] && r[b] == Base(v, a, b, m) + Block(v, a, m) && (a != b ==> r[a] == v[a][..|v[a]| - m])
  {
    PutAllNoWaste(Base(v, a, b, m), Block(v, a, m), destc);
  }

  lemma {:induction false} RefusedRestores(v: seq<seq<Card>>, a: nat, b: nat, destc: char, m: nat)
    requires MultiFits(v, a, b, destc, m) && destc != 'w' && Taken(v, a, b, destc, m) < m
    ensures var r, k := Refused(v, a, b, destc, m), Taken(v, a, b, destc, m);
      r[..13] == v[..13] && r[13] == v[13] + Reversed(Block(v, a, m)[k..])
  {
    var r := Refused(v, a, b, destc, m);
    if a == b {
      RefusedRestoresSource(v, a, destc, m, Taken(v, a, a, destc, m));
    } else {
      RefusedRestoresApart(v, a, b, destc, m, Taken(v, a, b, destc, m));
    }
    SameBelowTemp(r, v, a, b);
  }

  lemma {:induction false} RefusedRestoresSource(v: seq<seq<Card>>, a: nat, destc: char, m: nat, k: nat)
    requires Shaped(v) && 2 <= a < 13 && k <= m <= |v[a]| && |v[13]| + m <= Capacity && destc != 'w'
    ensures RefusedAt(v, a, a, destc, m, k)[a] == v[a]
  {
    var block, base := Block(v, a, m), Base(v, a, a, m);
    PartlyPlaced(base, block, k, destc);
    assert RefusedAt(v, a, a, destc, m, k)[a] == PutAll(base, block[..k], destc) + block[k..];
  }

  lemma {:induction false} RefusedRestoresApart(v: seq<seq<Card>>, a: nat, b: nat, destc: char, m: nat, k: nat)
    requires Shaped(v) && 2 <= a < 13 && 2 <= b < 13 && a != b && k <= m <= |v[a]| && |v[13]| + m <= Capacity
    requires destc != 'w'
    ensures RefusedAt(v, a, b, destc, m, k)[a] == v[a] && RefusedAt(v, a, b, destc, m, k)[b] == v[b]
  {
    var block := Block(v, a, m);
    PutAllBelow(v[b], block[..k], destc);
    assert RefusedAt(v, a, b, destc, m, k)[b] == PutAll(v[b], block[..k], destc)[..|v[b]|];
  }

  /** Two layouts that agree on every visible pile but a and b, and on those. */
  lemma {:induction false} SameBelowTemp(r: seq<seq<Card>>, v: seq<seq<Card>>, a: nat, b: nat)
    requires |r| == 14 && |v| == 14 && a < 13 && b < 13 && r[a] == v[a] && r[b] == v[b]
    requires forall i :: 0 <= i < 13 && i != a && i != b ==> r[i] == v[i]
    ensures r[..13] == v[..13]
  {
    forall i | 0 <= i < 13 ensures r[..13][i] == v[..13][i] {
      if i != a && i != b {
        assert r[i] == v[i];
      }
    }
  }

  /** With the destination letter w (reachable as `t1w3`) a refused block
      does not leave the destination as it was: once some of its cards were
      placed, the destination's old top card stays turned face-down. */
  lemma {:induction false} WasteLetterRollback(v: seq<seq<Card>>, a: nat, b: nat, m: nat)
    requires MultiFits(v, a, b, 'w', m) && a != b && 0 < Taken(v, a, b, 'w', m) < m && v[b] != []
    ensures var n := |v[b]|;
      Multi(v, a, b, 'w', m).1[b] == v[b][..n - 1] + [FaceUp(v[b][n - 1], false)]
  {
    var block, k, n := Block(v, a, m), Taken(v, a, b, 'w', m), |v[b]|;
    var t := Put(v[b], block[0], 'w');
    assert block[..k][0] == block[0] && block[..k][1..] == block[1..k];
    assert PutAll(v[b], block[..k], 'w') == PutAll(t, block[1..k], 'w');
    PutAllFixesBelow(t, block[1..k], 'w');
    assert PutAll(t, block[1..k], 'w')[..n] == t[..n];
    assert t[..n] == v[b][..n - 1] + [FaceUp(v[b][n - 1], false)];
  }

  /** A pile move keeps a game in progress, provided a foundation is only
      ever named with the foundation letter. */
  lemma {:induction false} MultiKeepsPlay(v: seq<seq<Card>>, deck: multiset<(char, char)>, a: nat, b: nat, destc: char, m: nat)
    requires InPlay(v, deck) && MultiFits(v, a, b, destc, m) && (9 <= b ==> destc == 'f')
    ensures InPlay(Multi(v, a, b, destc, m).1, deck)
  {
    var k := Taken(v, a, b, destc, m);
    if k == m && a != b {
      LandedApartKeepsPlay(v, deck, a, b, destc, m);
    } else if k == m {
      LandedInPlaceKeepsPlay(v, deck, a, destc, m);
    } else if a == b {
      RefusedInPlaceKeepsPlay(v, deck, a, destc, m);
    } else {
      RefusedApartKeepsPlay(v, deck, a, b, destc, m);
    }
  }

  /** The foundation a block lands on stays a run. */
  lemma {:induction false} LandedRun(base: seq<Card>, block: seq<Card>, destc: char)
    requires FoundationRun(base) && destc == 'f' && Accepted(block, TopOf(base), destc) == |block|
    ensures FoundationRun(PutAll(base, block, destc))
  {
    FoundationPutAll(base, block, |block|);
    assert block[..|block|] == block;
  }

  lemma {:induction false} LandedApartKeepsPlay(v: seq<seq<Card>>, deck: multiset<(char, char)>, a: nat, b: nat, destc: char, m: nat)
    requires InPlay(v, deck) && MultiFits(v, a, b, destc, m) && (9 <= b ==> destc == 'f')
    requires a != b && Taken(v, a, b, destc, m) == m
    ensures InPlay(Multi(v, a, b, destc, m).1, deck)
  {
    var x, block := v[a][..|v[a]| - m], Block(v, a, m);
    var y := PutAll(v[b], block, destc);
    assert Names(x) + Names(y) == Names(v[a]) + Names(v[b]) by {
      NamesAppend(x, block);
      PutAllNames(v[b], block, destc);
    }
    if 9 <= a {
      RunPrefix(v[a], |v[a]| - m);
    }
    if 9 <= b {
      LandedRun(v[b], block, destc);
    }
    PilesKeepPlay(v, deck, a, b, x, y);
  }

  lemma {:induction false} LandedInPlaceKeepsPlay(v: seq<seq<Card>>, deck: multiset<(char, char)>, a: nat, destc: char, m: nat)
    requires InPlay(v, deck) && MultiFits(v, a, a, destc, m) && (9 <= a ==> destc == 'f')
    requires Taken(v, a, a, destc, m) == m
    ensures InPlay(Multi(v, a, a, destc, m).1, deck)
  {
    var base, block := v[a][..|v[a]| - m], Block(v, a, m);
    var y := PutAll(base, block, destc);
    assert Multi(v, a, a, destc, m).1 == v[a := y];
    assert Names(y) == Names(v[a]) by {
      NamesAppend(base, block);
      PutAllNames(base, block, destc);
    }
    if 9 <= a {
      RunPrefix(v[a], |v[a]| - m);
      LandedRun(base, block, destc);
    }
    PileKeepsPlay(v, deck, a, y);
  }

  lemma {:induction false} RefusedInPlaceKeepsPlay(v: seq<seq<Card>>, deck: multiset<(char, char)>, a: nat, destc: char, m: nat)
    requires InPlay(v, deck) && MultiFits(v, a, a, destc, m) && (9 <= a ==> destc == 'f')
    requires Taken(v, a, a, destc, m) < m
    ensures InPlay(Multi(v, a, a, destc, m).1, deck)
  {
    var base, block, k := v[a][..|v[a]| - m], Block(v, a, m), Taken(v, a, a, destc, m);
    var y := PutAll(base, block[..k], destc) + block[k..];
    var t := v[13] + Reversed(block[k..]);
    assert Multi(v, a, a, destc, m).1 == v[a := y][13 := t];
    PartlyPlaced(base, block, k, destc);
    assert base + block == v[a];
    PileKeepsPlay(v, deck, a, y);
    TempKeepsPlay(v[a := y], deck, t);
  }

  lemma {:induction false} RefusedApartKeepsPlay(v: seq<seq<Card>>, deck: multiset<(char, char)>, a: nat, b: nat, destc: char, m: nat)
    requires InPlay(v, deck) && MultiFits(v, a, b, destc, m) && (9 <= b ==> destc == 'f')
    requires a != b && Taken(v, a, b, destc, m) < m
    ensures InPlay(Multi(v, a, b, destc, m).1, deck)
  {
    var block, k := Block(v, a, m), Taken(v, a, b, destc, m);
    var y := PutAll(v[b], block[..k], destc)[..|v[b]|];
    var t := v[13] + Reversed(block[k..]);
    assert Multi(v, a, b, destc, m).1 == v[b := y][13 := t];
    PutAllBelow(v[b], block[..k], destc);
    SameCardsNames(y, v[b]);
    PileKeepsPlay(v, deck, b, y);
    TempKeepsPlay(v[b := y], deck, t);
  }

  /** The layout position of the pile a command names, when there is one:
      tab[n] for n in 0..6, fnd[n] for n in 0..3. */
  function Slot(r: Ref): (p: Option<nat>)
    ensures p.Some? <==> (r.TabRef? && 0 <= r.n < 7) || (r.FndRef? && 0 <= r.n < 4)
    ensures p.Some? ==> 2 <= p.value < 13 && (9 <= p.value <==> r.FndRef?)
  {
    match r
    case TabRef(n) => if 0 <= n < 7 then Some(2 + n) else None
    case FndRef(n) => if 0 <= n < 4 then Some(9 + n) else None
    case _ => None
  }

  /** exec_input on the layout v for the command buffer s, as the code does
      it; buf is the stack's buffer, which no command writes. */
  function Exec(v: seq<seq<Card>>, buf: seq<Card>, s: seq<char>): (r: (Outcome, seq<seq<Card>>))
    requires Shaped(v) && |buf| == Capacity
    ensures Shaped(r.1)
    ensures r.0 == Invalid || r.0 == Undefined ==> r.1 == v
    ensures r.0 == Invalid <==> LeadingDigits(s) <= 1 && !(1 <= Recognise(s).code <= 4)
  {
    if LeadingDigits(s) <= 1 && Recognise(s).code == 1 then ExecDeal(v, buf) else ExecMove(v, s)
  }

  /** exec_input as the game means it, the waste turned over onto an empty
      stack (IntendedDeal); every other command as in Exec. */
  function IntendedExec(v: seq<seq<Card>>, s: seq<char>): (r: (Outcome, seq<seq<Card>>))
    requires Shaped(v)
    ensures Shaped(r.1)
    ensures r.0 == Invalid || r.0 == Undefined ==> r.1 == v
    ensures r.0 == Invalid <==> LeadingDigits(s) <= 1 && !(1 <= Recognise(s).code <= 4)
  {
    if LeadingDigits(s) <= 1 && Recognise(s).code == 1 then IntendedExecDeal(v) else ExecMove(v, s)
  }

  /** exec_input for every command but the deal: a count of two digits
      writes past multstr; codes 2, 3 and 4 as below; anything else is
      invalid. None of them touches the stack, and the waste at most loses
      its top card. */
  function ExecMove(v: seq<seq<Card>>, s: seq<char>): (r: (Outcome, seq<seq<Card>>))
    requires Shaped(v)
    ensures Shaped(r.1) && r.1[0] == v[0] && |r.1[1]| <= |v[1]|
    ensures r.0 == Invalid || r.0 == Undefined ==> r.1 == v
    ensures r.0 == Invalid <==> LeadingDigits(s) <= 1 && !(2 <= Recognise(s).code <= 4)
  {
    var cmd := Recognise(s);
    if LeadingDigits(s) > 1 then (Undefined, v)
    else if cmd.code == 2 then ExecWaste(v, cmd.dest, cmd.destc)
    else if cmd.code == 3 then ExecPile(v, cmd.src, cmd.dest, cmd.destc, Count(s))
    else if cmd.code == 4 then ExecTurn(v, IndexOfDigit(At(s, LeadingDigits(s) + 2)))
    else (Invalid, v)
  }

  /** Code 1. Dealing from an empty stack and waste pops an empty pile;
      dealing onto a full waste pushes past its buffer. */
  function ExecDeal(v: seq<seq<Card>>, buf: seq<Card>): (r: (Outcome, seq<seq<Card>>))
    requires Shaped(v) && |buf| == Capacity
    ensures Shaped(r.1) && (r.0 == Dealt || (r.0 == Undefined && r.1 == v))
    ensures r.0 == Undefined <==> (v[0] == [] && v[1] == []) || (v[0] != [] && |v[1]| == Capacity)
  {
    if (v[0] == [] && v[1] == []) || (v[0] != [] && |v[1]| == Capacity) then (Undefined, v)
    else (Dealt, Deal(v, buf))
  }

  /** Code 1 as the game means it, refused in the same cases. */
  function IntendedExecDeal(v: seq<seq<Card>>): (r: (Outcome, seq<seq<Card>>))
    requires Shaped(v)
    ensures Shaped(r.1) && (r.0 == Dealt || (r.0 == Undefined && r.1 == v))
    ensures r.0 == Undefined <==> (v[0] == [] && v[1] == []) || (v[0] != [] && |v[1]| == Capacity)
  {
    if (v[0] == [] && v[1] == []) || (v[0] != [] && |v[1]| == Capacity) then (Undefined, v)
    else (Dealt, IntendedDeal(v))
  }

  /** Code 2. Moving from an empty waste reads before its buffer, and a
      move the rule accepts onto a full pile pushes past its buffer. */
  function ExecWaste(v: seq<seq<Card>>, dest: Ref, destc: char): (r: (Outcome, seq<seq<Card>>))
    requires Shaped(v)
    ensures Shaped(r.1) && (r.0.WasteMoved? || (r.0 == Undefined && r.1 == v))
  {
    match Slot(dest)
    case None => (Undefined, v)
    case Some(b) =>
      if v[1] == [] || (|v[b]| == Capacity && Legal(v[1][|v[1]| - 1], false, TopOf(v[b]), destc)) then
        (Undefined, v)
      else
        var w := WasteMove(v, b, destc);
        (WasteMoved(w.0), w.1)
  }

  /** Code 3. Popping more cards than the source holds, pushing temppile
      past its buffer, or pushing accepted cards past the destination's
      buffer is refused. */
  function ExecPile(v: seq<seq<Card>>, src: Ref, dest: Ref, destc: char, m: nat): (r: (Outcome, seq<seq<Card>>))
    requires Shaped(v)
    ensures Shaped(r.1) && (r.0.BlockMoved? || (r.0 == Undefined && r.1 == v))
  {
    match (Slot(src), Slot(dest))
    case (Some(a), Some(b)) =>
      if m > |v[a]| || |v[13]| + m > Capacity || (a != b && |v[b]| + Taken(v, a, b, destc, m) > Capacity) then
        (Undefined, v)
      else
        var r := Multi(v, a, b, destc, m);
        (BlockMoved(m, r.0), r.1)
    case _ => (Undefined, v)
  }

  /** Code 4. Tableau j must exist. */
  function ExecTurn(v: seq<seq<Card>>, j: int): (r: (Outcome, seq<seq<Card>>))
    requires Shaped(v)
    ensures Shaped(r.1) && (r.0 == TurnedOver || (r.0 == Undefined && r.1 == v))
  {
    if 0 <= j < 7 then (TurnedOver, TurnOver(v, j)) else (Undefined, v)
  }

  /** Every command but the deal keeps a game in progress. */
  lemma {:induction false} ExecMoveKeepsPlay(v: seq<seq<Card>>, deck: multiset<(char, char)>, s: seq<char>)
    requires InPlay(v, deck)
    ensures InPlay(ExecMove(v, s).1, deck)
  {
    var cmd := Recognise(s);
    RecogniseDestLetter(s);
    if LeadingDigits(s) <= 1 {
      if cmd.code == 2 {
        if ExecWaste(v, cmd.dest, cmd.destc).0 != Undefined && Slot(cmd.dest).Some? {
          WasteMoveKeepsPlay(v, deck, Slot(cmd.dest).value, cmd.destc);
        }
      } else if cmd.code == 3 {
        if ExecPile(v, cmd.src, cmd.dest, cmd.destc, Count(s)).0 != Undefined {
          var a, b := Slot(cmd.src).value, Slot(cmd.dest).value;
          MultiKeepsPlay(v, deck, a, b, cmd.destc, Count(s));
        }
      } else if cmd.code == 4 {
        var j := IndexOfDigit(At(s, LeadingDigits(s) + 2));
        if 0 <= j < 7 {
          TurnOverKeepsPlay(v, deck, j);
        }
      }
    }
  }

  /** Played as the game means it, every command keeps a game in progress:
      each of the 52 cards stays once in the visible piles. */
  lemma {:induction false} ExecKeepsPlay(v: seq<seq<Card>>, deck: multiset<(char, char)>, s: seq<char>)
    requires InPlay(v, deck)
    ensures InPlay(IntendedExec(v, s).1, deck)
  {
    if LeadingDigits(s) <= 1 && Recognise(s).code == 1 {
      if IntendedExecDeal(v).0 == Dealt {
        DealKeepsPlay(v, deck);
      }
    } else {
      ExecMoveKeepsPlay(v, deck, s);
    }
  }

  /** As the code plays them, every command keeps a running game: a
      face-down stack drawn from its own buffer, a waste showing its top card
      alone, Ace-upward foundation runs, and 52 cards in the visible piles. */
  lemma {:induction false} ExecKeepsRunning(v: seq<seq<Card>>, buf: seq<Card>, s: seq<char>)
    requires Running(v, buf)
    ensures Running(Exec(v, buf, s).1, buf)
  {
    if LeadingDigits(s) <= 1 && Recognise(s).code == 1 {
      if ExecDeal(v, buf).0 == Dealt {
        DealKeepsRunning(v, buf);
      }
    } else {
      var r := ExecMove(v, s).1;
      ExecMoveKeepsPlay(v, Held(v, 13), s);
      assert Held(r, 13) == Held(v, 13);
    }
  }

  /** The code and the game differ only in a deal from an empty stack whose
      buffer does not hold the waste turned over. */
  lemma {:induction false} ExecAgrees(v: seq<seq<Card>>, buf: seq<Card>, s: seq<char>)
    requires Shaped(v) && |buf| == Capacity
    ensures (v[0] != [] || RecycledAsWritten(buf, |v[1]|) == Recycled(v[1])) ==> Exec(v, buf, s) == IntendedExec(v, s)
  {
    if LeadingDigits(s) <= 1 && Recognise(s).code == 1 && ExecDeal(v, buf).0 == Dealt && v[0] != [] {
      DealMovesOne(v, buf);
    }
  }

  /** The waste letter after a tableau source names a tableau: "t1w3"
      moves the top card of tableau 1 onto tableau 3 whatever its rank and
      colour and whatever tableau 3 shows, as long as it is face-up, and
      turns the card it lands on face-down. */
  lemma {:induction false} WasteLetterOnTableau(v: seq<seq<Card>>, buf: seq<Card>)
    requires Shaped(v) && |buf| == Capacity && v[2] != [] && v[2][|v[2]| - 1].faceup
    requires |v[4]| < Capacity && |v[13]| < Capacity
    ensures var c, r := v[2][|v[2]| - 1], Exec(v, buf, "t1w3");
      r.0 == BlockMoved(1, 1) && r.1[2] == v[2][..|v[2]| - 1] && r.1[4] == Put(v[4], c, 'w') &&
      (v[4] != [] ==> !r.1[4][|v[4]| - 1].faceup)
  {
    var c := v[2][|v[2]| - 1];
    PileMoveWithWasteLetter();
    assert Exec(v, buf, "t1w3") == ExecPile(v, TabRef(0), TabRef(2), 'w', 1);
    assert Taken(v, 2, 4, 'w', 1) == 1 by {
      OtherLetters(c, false, TopOf(v[4]), 'w');
      assert Block(v, 2, 1) == [c] && [c][1..] == [];
    }
    assert PutAll(v[4], [c], 'w') == Put(v[4], c, 'w') by {
      assert [c][1..] == [];
    }
    assert Block(v, 2, 1) == [c];
  }

  /** As written, a refused pile move leaves its refused cards on temppile
      for good (Refused). Once temppile holds 52 cards, every pile move
      between two real piles is undefined: its first push would write past
      the buffer. */
  lemma {:induction false} TemppileFullAsWritten(v: seq<seq<Card>>, buf: seq<Card>, s: seq<char>)
    requires Running(v, buf) && |v[13]| == Capacity
    requires LeadingDigits(s) <= 1 && Recognise(s).code == 3
    requires Slot(Recognise(s).src).Some? && Slot(Recognise(s).dest).Some?
    ensures Exec(v, buf, s).0 == Undefined
  {
    UndefinedInPlay(v, Held(v, 13), buf, s);
  }

  /** The commands that would leave a buffer in a game in progress: a count
      of two digits, a deal with stack and waste both empty, a pile index out
      of range, a waste move from an empty waste, a pile move of more cards
      than the source holds or one that would push temppile past its buffer. */
  predicate Overruns(v: seq<seq<Card>>, s: seq<char>): (r: bool)
    requires Shaped(v)
    ensures r ==> LeadingDigits(s) > 1 || 1 <= Recognise(s).code <= 4
  {
    var cmd, l := Recognise(s), LeadingDigits(s);
    l > 1 ||
    (cmd.code == 1 && v[0] == [] && v[1] == []) ||
    (cmd.code == 2 && (Slot(cmd.dest).None? || v[1] == [])) ||
    (cmd.code == 3 && (Slot(cmd.src).None? || Slot(cmd.dest).None? ||
                       Count(s) > |v[Slot(cmd.src).value]| || |v[13]| + Count(s) > Capacity)) ||
    (cmd.code == 4 && !(0 <= IndexOfDigit(At(s, l + 2)) < 7))
  }

  /** While the visible piles hold 52 cards the piles never overflow: a
      command is refused as undefined exactly for the reasons Overruns lists,
      as the code plays it and as the game means it. */
  lemma {:induction false} UndefinedInPlay(v: seq<seq<Card>>, deck: multiset<(char, char)>, buf: seq<Card>, s: seq<char>)
    requires InPlay(v, deck) && |buf| == Capacity
    ensures Exec(v, buf, s).0 == Undefined <==> Overruns(v, s)
    ensures IntendedExec(v, s).0 == Undefined <==> Overruns(v, s)
  {
    var cmd := Recognise(s);
    if LeadingDigits(s) <= 1 {
      if cmd.code == 1 && v[0] != [] {
        Fits(v, 0, 1);
      } else if cmd.code == 2 && Slot(cmd.dest).Some? && v[1] != [] {
        Fits(v, 1, Slot(cmd.dest).value);
      } else if cmd.code == 3 && Slot(cmd.src).Some? && Slot(cmd.dest).Some? {
        var a, b, m := Slot(cmd.src).value, Slot(cmd.dest).value, Count(s);
        if a != b && m <= |v[a]| {
          Fits(v, a, b);
        }
      }
    }
  }

  /** The first deal of every game is a waste-letter placement into slot 0
      of the empty waste: as written, move_card then turns down the slot
      before the waste's buffer. */
  lemma {:induction false} FirstDealAsWritten(deck: seq<Card>, buf: seq<Card>)
    requires |deck| == 52 && |buf| == Capacity
    ensures var v := DealtLayout(deck);
      v[0] != [] && PlacedAsWritten(buf, |v[1]|, v[0][|v[0]| - 1], 'w').None?
  {
    var v := DealtLayout(deck);
    assert v[0] == StackDealt(deck) && v[1] == DealtPile(deck, 1);
  }

  /** Moving the last card off the waste leaves it empty: as written,
      exec_input then turns up the slot before the waste's buffer. */
  lemma {:induction false} LastWasteCardAsWritten(v: seq<seq<Card>>, b: nat, destc: char, buf: seq<Card>)
    requires Shaped(v) && 2 <= b < 13 && |v[1]| == 1 && |v[b]| < Capacity && |buf| == Capacity
    requires Legal(v[1][0], false, TopOf(v[b]), destc)
    ensures var r := MoveTop(v, 1, b, destc);
      r.0 && r.1[1] == [] && TurnUpAsWritten(buf, |r.1[1]|).None?
  {
    var r := MoveTop(v, 1, b, destc);
    assert r.1[1] == v[1][..0];
  }

  /** The test main makes after every command: all four foundations hold 13 cards. */
  predicate Won(v: seq<seq<Card>>): (r: bool)
    requires |v| == 14
    ensures r ==> |v[9]| + |v[10]| + |v[11]| + |v[12]| == 52
  {
    forall n :: 9 <= n < 13 ==> |v[n]| == 13
  }

  /** Once the test passes in a game in progress, each foundation runs from
      the Ace up to the King of its suit, and the stack, the waste and the
      seven tableaux are empty. */
  lemma {:induction false} WonMeansComplete(v: seq<seq<Card>>, deck: multiset<(char, char)>)
    requires InPlay(v, deck) && Won(v)
    ensures forall n :: 9 <= n < 13 ==> v[n][0].rank == 'A' && v[n][12].rank == 'K'
    ensures forall i :: 0 <= i < 9 ==> v[i] == []
  {
    forall n | 9 <= n < 13 ensures v[n][0].rank == 'A' && v[n][12].rank == 'K' {
      assert PileOk(n, v[n]);
      RunIsAceUpward(v[n]);
    }
    assert |Held(v, 9)| == 0 by {
      assert |Held(v, 13)| == |Held(v, 12)| + |v[12]|;
      assert |Held(v, 12)| == |Held(v, 11)| + |v[11]|;
      assert |Held(v, 11)| == |Held(v, 10)| + |v[10]|;
      assert |Held(v, 10)| == |Held(v, 9)| + |v[9]|;
    }
    HeldEmpty(v, 9);
  }

  /** Conversely, in a game in progress with the stack, the waste and the
      seven tableaux empty, the test passes: the four foundations hold the
      52 cards, and none can hold more than 13. */
  lemma {:induction false} EmptyMeansWon(v: seq<seq<Card>>, deck: multiset<(char, char)>)
    requires InPlay(v, deck) && forall i :: 0 <= i < 9 ==> v[i] == []
    ensures Won(v)
  {
    HeldOfEmpty(v, 9);
    assert |Held(v, 13)| == |v[9]| + |v[10]| + |v[11]| + |v[12]| by {
      assert |Held(v, 13)| == |Held(v, 12)| + |v[12]|;
      assert |Held(v, 12)| == |Held(v, 11)| + |v[11]|;
      assert |Held(v, 11)| == |Held(v, 10)| + |v[10]|;
      assert |Held(v, 10)| == |Held(v, 9)| + |v[9]|;
    }
    assert PileOk(9, v[9]) && PileOk(10, v[10]) && PileOk(11, v[11]) && PileOk(12, v[12]);
  }

  /** Empty piles have an empty union. */
  lemma {:induction false} HeldOfEmpty(v: seq<seq<Card>>, n: nat)
    requires n <= |v| && forall i :: 0 <= i < n ==> v[i] == []
    ensures Held(v, n) == multiset{}
  {
    if n > 0 {
      HeldOfEmpty(v, n - 1);
      assert Names(v[n - 1]) == multiset{};
    }
  }

  /** Piles whose union is empty are empty. */
  lemma {:induction false} HeldEmpty(v: seq<seq<Card>>, n: nat)
    requires n <= |v| && |Held(v, n)| == 0
    ensures forall i :: 0 <= i < n ==> v[i] == []
  {
    if n > 0 {
      HeldEmpty(v, n - 1);
    }
  }

  /** Pile i of the layout init_deal builds from the deck. */
  function DealtPile(deck: seq<Card>, i: nat): seq<Card>
    requires |deck| == 52
  {
    if i == 0 then StackDealt(deck)
    else if 2 <= i < 9 then TabDealt(deck, i - 2)
    else []
  }

  /** The layout init_deal builds: the stack, the seven tableaux, and every
      other pile empty. */
  function DealtLayout(deck: seq<Card>): (v: seq<seq<Card>>)
    requires |deck| == 52
    ensures |v| == 14 && forall i :: 0 <= i < 14 ==> v[i] == DealtPile(deck, i)
  {
    seq(14, i requires 0 <= i < 14 => DealtPile(deck, i))
  }

  /** The first 2 + i piles of the dealt layout hold deck[0 .. 24] and the
      slices of the first i tableaux, which end at the top of the deck. */
  lemma {:induction false} DealtHeld(deck: seq<Card>, i: nat)
    requires |deck| == 52 && i <= 7
    ensures DealtBefore(i) <= 28
    ensures Held(DealtLayout(deck), 2 + i) == Names(deck[..24]) + Names(deck[52 - DealtBefore(i)..])
  {
    var v := DealtLayout(deck);
    if i == 0 {
      assert deck[52..] == [];
      assert v[1] == [];
      assert Held(v, 2) == Held(v, 1) + Names(v[1]);
      assert Held(v, 1) == Names(v[0]);
      StackDealtNames(deck);
    } else {
      DealtHeld(deck, i - 1);
      var lo, hi := 52 - DealtBefore(i), 52 - DealtBefore(i - 1);
      DealtTab(deck, i - 1);
      assert i - 1 + 1 == i && 2 + (i - 1) == 1 + i;
      SliceNames(deck, lo, hi);
      Regroup(Names(deck[..24]), Names(deck[hi..]), Names(deck[lo..hi]));
    }
  }

  /** Pile 2 + j of the dealt layout is tableau j and holds its slice. */
  lemma {:induction false} DealtTab(deck: seq<Card>, j: nat)
    requires |deck| == 52 && j < 7
    ensures DealtBefore(j + 1) <= 28
    ensures Held(DealtLayout(deck), 3 + j) ==
      Held(DealtLayout(deck), 2 + j) + Names(deck[52 - DealtBefore(j + 1)..52 - DealtBefore(j)])
  {
    var v := DealtLayout(deck);
    TabDealtNames(deck, j);
    assert v[2 + j] == TabDealt(deck, j);
  }

  lemma {:induction false} Regroup<T>(a: multiset<T>, h: multiset<T>, l: multiset<T>)
    ensures a + h + l == a + (l + h)
  {
  }

  /** The names of a suffix split at hi. */
  lemma {:induction false} SliceNames(s: seq<Card>, lo: nat, hi: nat)
    requires lo <= hi <= |s|
    ensures Names(s[lo..]) == Names(s[lo..hi]) + Names(s[hi..])
  {
    assert s[lo..] == s[lo..hi] + s[hi..];
    NamesAppend(s[lo..hi], s[hi..]);
  }

  /** init_deal starts a game in progress with the cards of its deck. */
  lemma {:induction false} DealtLayoutInPlay(deck: seq<Card>)
    requires |deck| == 52
    ensures InPlay(DealtLayout(deck), Names(deck))
  {
    var v := DealtLayout(deck);
    DealtHeldAll(deck);
    DealtShaped(deck);
    assert v[0] == StackDealt(deck);
    EmptyFoundationsInPlay(v, Names(deck));
  }

  /** init_deal starts a running game over the stack's buffer it fills. */
  lemma {:induction false} DealtRunning(deck: seq<Card>, buf: seq<Card>)
    requires |deck| == 52 && |buf| == Capacity && buf[..24] == StackDealt(deck)
    ensures Running(DealtLayout(deck), buf)
  {
    var v := DealtLayout(deck);
    DealtLayoutInPlay(deck);
    assert v[0] == StackDealt(deck) && v[1] == [];
  }

  /** The nine piles init_deal fills hold the whole deck. */
  lemma {:induction false} DealtHeldAll(deck: seq<Card>)
    requires |deck| == 52
    ensures Held(DealtLayout(deck), 9) == Names(deck)
  {
    DealtHeld(deck, 7);
    assert DealtBefore(7) == 28;
    SplitNames(deck, 24);
  }

  /** The names of a deck split in two. */
  lemma {:induction false} SplitNames(s: seq<Card>, n: nat)
    requires n <= |s|
    ensures Names(s[..n]) + Names(s[n..]) == Names(s)
  {
    assert s[..n] + s[n..] == s;
    NamesAppend(s[..n], s[n..]);
  }

  /** Every pile of the dealt layout fits its buffer. */
  lemma {:induction false} DealtShaped(deck: seq<Card>)
    requires |deck| == 52
    ensures Shaped(DealtLayout(deck))
  {
    var v := DealtLayout(deck);
    forall i | 0 <= i < 14 ensures |v[i]| <= Capacity {
      assert v[i] == DealtPile(deck, i);
    }
  }

  /** A layout whose waste and foundations are empty, whose stack is
      face-down and whose other piles hold the deck, is a game in progress. */
  lemma {:induction false} EmptyFoundationsInPlay(v: seq<seq<Card>>, deck: multiset<(char, char)>)
    requires Shaped(v) && |deck| == 52 && Held(v, 9) == deck && Hidden(v[0]) && v[1] == []
    requires v[9] == [] && v[10] == [] && v[11] == [] && v[12] == []
    ensures InPlay(v, deck)
  {
    assert Held(v, 13) == Held(v, 9) by {
      assert Held(v, 13) == Held(v, 12) + Names(v[12]);
      assert Held(v, 12) == Held(v, 11) + Names(v[11]);
      assert Held(v, 11) == Held(v, 10) + Names(v[10]);
      assert Held(v, 10) == Held(v, 9) + Names(v[9]);
    }
    forall i | 0 <= i < 13 ensures PileOk(i, v[i]) {
      if i == 1 || 9 <= i {
        assert v[i] == [];
      }
    }
  }

  /** Whatever rand() returns, dealing the shuffled deck starts a game in
      progress with all 52 cards of the deck. */
  lemma {:induction false} ShuffledDealInPlay(r: seq<int>)
    requires |r| == 52 && forall m :: 0 <= m < |r| ==> 0 <= r[m] < 52
    ensures |Swapped(InitialDeck(), r, 52)| == 52
    ensures InPlay(DealtLayout(Swapped(InitialDeck(), r, 52)), FullDeck())
  {
    var d := Swapped(InitialDeck(), r, 52);
    SwapsPermute(InitialDeck(), r, 52);
    MultisetNames(d, InitialDeck());
    DealtLayoutInPlay(d);
  }
}
