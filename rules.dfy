/** The effect of the engine's moves on a pile's buffer, as values: what a
    push by move_card writes, what a run of pushes writes, how many cards of
    a block the destination accepts, and the foundation run the rules build. */
module Rules {
  import opened Cards

  /** The card a destination shows on top after move_card placed c there:
      the waste letter turns it face-up, the other letters leave it as it is. */
  function Shown(c: Card, destc: char): (r: Card)
    ensures r.rank == c.rank && r.suit == c.suit
    ensures r.faceup == (c.faceup || destc == 'w')
  {
    if destc == 'w' then FaceUp(c, true) else c
  }

  /** The destination buffer after move_card pushed c into slot p. With the
      waste letter the card below, if any, is turned face-down. */
  function Placed(buf: seq<Card>, p: nat, c: Card, destc: char): (r: seq<Card>)
    requires p < |buf|
    ensures |r| == |buf| && r[p] == Shown(c, destc)
    ensures forall j :: 0 <= j < |buf| && j != p && (j != p - 1 || destc != 'w') ==> r[j] == buf[j]
    ensures destc == 'w' && p > 0 ==> r[p - 1] == FaceUp(buf[p - 1], false)
  {
    var under := if destc == 'w' && p > 0 then buf[p - 1 := FaceUp(buf[p - 1], false)] else buf;
    under[p := Shown(c, destc)]
  }

  /** The pile s after move_card placed c on top of it: the placement of
      the buffer, read back as far as the new top. */
  function Put(s: seq<Card>, c: Card, destc: char): (r: seq<Card>)
    ensures |r| == |s| + 1 && r[|s|] == Shown(c, destc)
    ensures forall j :: 0 <= j < |s| && (j != |s| - 1 || destc != 'w') ==> r[j] == s[j]
    ensures destc == 'w' && |s| > 0 ==> r[|s| - 1] == FaceUp(s[|s| - 1], false)
  {
    Placed(s + [c], |s|, c, destc)
  }

  /** What a pile of p cards holds after a placement into its buffer. */
  lemma {:induction false} PlacedIsPut(buf: seq<Card>, p: nat, c: Card, destc: char)
    requires p < |buf|
    ensures Placed(buf, p, c, destc)[..p + 1] == Put(buf[..p], c, destc)
  {
    var r, q := Placed(buf, p, c, destc)[..p + 1], Put(buf[..p], c, destc);
    forall j | 0 <= j <= p ensures r[j] == q[j] {
    }
  }

  /** The pile s after move_card placed the cards of b on it one by one. */
  function PutAll(s: seq<Card>, b: seq<Card>, destc: char): (r: seq<Card>)
    ensures |r| == |s| + |b|
    decreases |b|
  {
    if b == [] then s else PutAll(Put(s, b[0], destc), b[1..], destc)
  }

  /** One more placement extends a run of placements. */
  lemma {:induction false} PutAllSnoc(s: seq<Card>, b: seq<Card>, c: Card, destc: char)
    ensures PutAll(s, b + [c], destc) == Put(PutAll(s, b, destc), c, destc)
    decreases |b|
  {
    if b == [] {
      assert b + [c] == [c];
    } else {
      assert (b + [c])[1..] == b[1..] + [c];
      PutAllSnoc(Put(s, b[0], destc), b[1..], c, destc);
    }
  }

  /** After a run of placements the pile shows the last card placed. */
  lemma {:induction false} PutAllTop(s: seq<Card>, b: seq<Card>, destc: char)
    requires b != []
    ensures TopOf(PutAll(s, b, destc)) == Some(Shown(b[|b| - 1], destc))
  {
    var n := |b| - 1;
    assert b == b[..n] + [b[n]];
    PutAllSnoc(s, b[..n], b[n], destc);
  }

  /** Without the waste letter the cards are stacked as they are. */
  lemma {:induction false} PutAllNoWaste(s: seq<Card>, b: seq<Card>, destc: char)
    requires destc != 'w'
    ensures PutAll(s, b, destc) == s + b
    decreases |b|
  {
    if b != [] {
      PutAllNoWaste(Put(s, b[0], destc), b[1..], destc);
      assert Put(s, b[0], destc) == s + [b[0]];
      assert s + [b[0]] + b[1..] == s + b;
    }
  }

  /** Placements change face flags only: the pile holds its old cards and
      then the cards of b. */
  lemma {:induction false} PutAllCards(s: seq<Card>, b: seq<Card>, destc: char)
    ensures SameCards(PutAll(s, b, destc), s + b)
    decreases |b|
  {
    if b != [] {
      var t := Put(s, b[0], destc);
      PutAllCards(t, b[1..], destc);
      assert s + b == (s + [b[0]]) + b[1..];
      forall j | 0 <= j < |s| + |b|
        ensures PutAll(s, b, destc)[j].rank == (s + b)[j].rank && PutAll(s, b, destc)[j].suit == (s + b)[j].suit
      {
        assert PutAll(s, b, destc)[j].rank == (t + b[1..])[j].rank && PutAll(s, b, destc)[j].suit == (t + b[1..])[j].suit;
        if j < |t| {
          assert t[j].rank == (s + [b[0]])[j].rank && t[j].suit == (s + [b[0]])[j].suit;
        }
      }
    }
  }

  /** Placements keep the names of the cards: the old ones and those of b. */
  lemma {:induction false} PutAllNames(s: seq<Card>, b: seq<Card>, destc: char)
    ensures Names(PutAll(s, b, destc)) == Names(s) + Names(b)
  {
    PutAllCards(s, b, destc);
    SameCardsNames(PutAll(s, b, destc), s + b);
    NamesAppend(s, b);
  }

  /** How many cards of the block b, taken bottom card first, the destination
      accepts one after another before the first refusal; `top` is the
      destination's top card before the first of them. The cards come from
      the scratch pile, never from the stack. */
  function Accepted(b: seq<Card>, top: Option<Card>, destc: char): (k: nat)
    ensures k <= |b|
    decreases |b|
  {
    if b == [] || !Legal(b[0], false, top, destc) then 0
    else 1 + Accepted(b[1..], Some(Shown(b[0], destc)), destc)
  }

  /** Each of the first Accepted cards passes the placement rule on top of
      the card placed before it, and the next one, if any, fails it. */
  lemma {:induction false} AcceptedMeans(b: seq<Card>, top: Option<Card>, destc: char)
    ensures var k := Accepted(b, top, destc);
      (forall j :: 0 <= j < k ==> Legal(b[j], false, if j == 0 then top else Some(Shown(b[j - 1], destc)), destc)) &&
      (k < |b| ==> !Legal(b[k], false, if k == 0 then top else Some(Shown(b[k - 1], destc)), destc))
    decreases |b|
  {
    if b != [] && Legal(b[0], false, top, destc) {
      AcceptedMeans(b[1..], Some(Shown(b[0], destc)), destc);
      var k := Accepted(b, top, destc);
      forall j | 0 < j < k
        ensures Legal(b[j], false, Some(Shown(b[j - 1], destc)), destc)
      {
        assert b[1..][j - 1] == b[j];
        if j > 1 {
          assert b[1..][j - 2] == b[j - 1];
        }
      }
      if k < |b| {
        assert b[1..][k - 1] == b[k];
        if k > 1 {
          assert b[1..][k - 2] == b[k - 1];
        }
      }
    }
  }

  /** A foundation run: an Ace at the bottom, then each rank one above the
      one below it, all in the suit of the bottom card. */
  ghost predicate FoundationRun(s: seq<Card>) {
    |s| <= 13 && forall j :: 0 <= j < |s| ==> RankValue(s[j]) == j && s[j].suit == s[0].suit
  }

  /** A foundation run is an ascending same-suit run A, 2, 3, ... of one suit. */
  lemma {:induction false} RunIsAceUpward(s: seq<Card>)
    requires FoundationRun(s) && s != []
    ensures s[0].rank == 'A'
    ensures |s| == 13 ==> s[12].rank == 'K'
    ensures forall j :: 0 < j < |s| ==> RankValue(s[j]) == RankValue(s[j - 1]) + 1
  {
    AceAndKing(s[0]);
    if |s| == 13 {
      AceAndKing(s[12]);
    }
  }

  /** Placing a card that the foundation rule accepts extends a foundation run. */
  lemma {:induction false} FoundationGrows(s: seq<Card>, c: Card, fromStack: bool)
    requires FoundationRun(s)
    requires Legal(c, fromStack, if s == [] then None else Some(s[|s| - 1]), 'f')
    ensures FoundationRun(s + [c])
  {
    SuitValueInjective(c, if s == [] then c else s[|s| - 1]);
    var t := s + [c];
    forall j | 0 <= j < |t|
      ensures RankValue(t[j]) == j && t[j].suit == t[0].suit
    {
      if j < |s| {
        assert t[j] == s[j];
      }
    }
  }

  /** The top card of a pile holding s. */
  function TopOf(s: seq<Card>): (t: Option<Card>)
    ensures t.None? <==> s == []
    ensures t.Some? ==> t.value == s[|s| - 1]
  {
    if s == [] then None else Some(s[|s| - 1])
  }

  /** The cards a foundation accepts from a block continue its run. */
  lemma {:induction false} FoundationAccepts(s: seq<Card>, b: seq<Card>, n: nat)
    requires FoundationRun(s) && n <= Accepted(b, TopOf(s), 'f')
    ensures n <= |b| && FoundationRun(s + b[..n])
    decreases n
  {
    if n > 0 {
      FoundationAccepts(s, b, n - 1);
      AcceptedStep(s, b, n);
    }
  }

  /** The n-th accepted card continues the run the first n - 1 built. */
  lemma {:induction false} AcceptedStep(s: seq<Card>, b: seq<Card>, n: nat)
    requires 0 < n <= Accepted(b, TopOf(s), 'f')
    requires FoundationRun(s + b[..n - 1])
    ensures FoundationRun(s + b[..n])
  {
    var t, c := s + b[..n - 1], b[n - 1];
    var top := if n == 1 then TopOf(s) else Some(Shown(b[n - 2], 'f'));
    AcceptedMeans(b, TopOf(s), 'f');
    assert Legal(c, false, top, 'f');
    assert top == (if t == [] then None else Some(t[|t| - 1])) by {
      if n > 1 {
        assert t[|t| - 1] == b[n - 2];
      }
    }
    FoundationGrows(t, c, false);
    assert t + [c] == s + b[..n];
  }

  /** Placing the accepted cards of a block with the foundation letter onto a
      foundation run leaves a foundation run. */
  lemma {:induction false} FoundationPutAll(s: seq<Card>, b: seq<Card>, n: nat)
    requires FoundationRun(s) && n <= Accepted(b, TopOf(s), 'f')
    ensures n <= |b| && FoundationRun(PutAll(s, b[..n], 'f'))
  {
    FoundationAccepts(s, b, n);
    PutAllNoWaste(s, b[..n], 'f');
  }

  /** The cards of s by rank and suit, face flags ignored. */
  function Names(s: seq<Card>): (m: multiset<(char, char)>)
    ensures |m| == |s|
  {
    if s == [] then multiset{} else Names(s[..|s| - 1]) + multiset{(s[|s| - 1].rank, s[|s| - 1].suit)}
  }

  /** a and b hold the same cards slot by slot, whatever their face flags. */
  predicate SameCards(a: seq<Card>, b: seq<Card>) {
    |a| == |b| && forall i :: 0 <= i < |a| ==> a[i].rank == b[i].rank && a[i].suit == b[i].suit
  }

  lemma {:induction false} NamesAppend(a: seq<Card>, b: seq<Card>)
    ensures Names(a + b) == Names(a) + Names(b)
    decreases |b|
  {
    if b == [] {
      assert a + b == a;
    } else {
      assert (a + b)[..|a + b| - 1] == a + b[..|b| - 1];
      NamesAppend(a, b[..|b| - 1]);
    }
  }

  lemma {:induction false} SameCardsNames(a: seq<Card>, b: seq<Card>)
    requires SameCards(a, b)
    ensures Names(a) == Names(b)
    decreases |a|
  {
    if a != [] {
      SameCardsNames(a[..|a| - 1], b[..|b| - 1]);
    }
  }

  /** The cards of s in the opposite order, the order pop then push leaves them in. */
  function Reversed(s: seq<Card>): (r: seq<Card>)
    ensures |r| == |s|
    ensures forall i :: 0 <= i < |s| ==> r[i] == s[|s| - 1 - i]
  {
    if s == [] then [] else [s[|s| - 1]] + Reversed(s[..|s| - 1])
  }

  lemma {:induction false} ReversedNames(s: seq<Card>)
    ensures Names(Reversed(s)) == Names(s)
    decreases |s|
  {
    if s != [] {
      var n := |s| - 1;
      ReversedNames(s[..n]);
      NamesAppend([s[n]], Reversed(s[..n]));
      assert Names([s[n]]) == multiset{(s[n].rank, s[n].suit)} by {
        assert [s[n]][..0] == [];
      }
    }
  }

  /** The stack the waste turns into when it is gathered up: the waste
      turned over (its bottom card on top), every card face-down. */
  function Recycled(waste: seq<Card>): (r: seq<Card>)
    ensures |r| == |waste|
  {
    seq(|waste|, i requires 0 <= i < |waste| => FaceUp(waste[|waste| - 1 - i], false))
  }

  /** Gathering up the waste neither loses nor adds a card, and every card
      of the new stack is face-down. */
  lemma {:induction false} RecycledKeepsCards(waste: seq<Card>)
    ensures Names(Recycled(waste)) == Names(waste)
    ensures |Recycled(waste)| == |waste| && forall i :: 0 <= i < |waste| ==> !Recycled(waste)[i].faceup
  {
    var r := Recycled(waste);
    var rev := Reversed(waste);
    forall i | 0 <= i < |r| ensures r[i].rank == rev[i].rank && r[i].suit == rev[i].suit && !r[i].faceup {
      assert r[i] == FaceUp(waste[|waste| - 1 - i], false);
    }
    SameCardsNames(r, rev);
    ReversedNames(waste);
  }

  /** The stack as the source recycles it: it only sets the stack's pointer
      to the waste's, so the stack shows the first w cards its own buffer
      still holds from the deal. */
  function RecycledAsWritten(stackBuf: seq<Card>, w: nat): (r: seq<Card>)
    requires w <= |stackBuf|
    ensures |r| == w && forall i :: 0 <= i < w ==> r[i] == stackBuf[i]
  {
    stackBuf[..w]
  }

  /** The source's recycling gives the intended stack exactly when the
      stack's buffer holds, from slot 0 up, the waste read from its top card
      down, all face-down: when the cards that have left the waste since the
      stack was dealt are the ones the buffer holds above slot |waste|. */
  lemma {:induction false} RecyclingAgreesExactly(stackBuf: seq<Card>, waste: seq<Card>)
    requires |waste| <= |stackBuf|
    ensures Recycled(waste) == RecycledAsWritten(stackBuf, |waste|) <==>
      SameCards(waste, Reversed(stackBuf[..|waste|])) && forall i :: 0 <= i < |waste| ==> !stackBuf[i].faceup
  {
    var r, w := Recycled(waste), |waste|;
    var rev := Reversed(stackBuf[..w]);
    if r == RecycledAsWritten(stackBuf, w) {
      forall k | 0 <= k < w ensures waste[k].rank == rev[k].rank && waste[k].suit == rev[k].suit {
        var i := w - 1 - k;
        assert r[i] == stackBuf[i] == FaceUp(waste[k], false);
        assert rev[k] == stackBuf[..w][i];
      }
      forall i | 0 <= i < w ensures !stackBuf[i].faceup {
        assert r[i] == stackBuf[i] == FaceUp(waste[w - 1 - i], false);
      }
    }
    if SameCards(waste, rev) && forall i :: 0 <= i < w ==> !stackBuf[i].faceup {
      forall i | 0 <= i < w ensures r[i] == stackBuf[i] {
        var k := w - 1 - i;
        assert rev[k] == stackBuf[i];
        assert waste[k].rank == stackBuf[i].rank && waste[k].suit == stackBuf[i].suit;
        assert r[i] == FaceUp(waste[k], false);
      }
    }
  }

  /** An example of the two recyclings parting: with 2H, 3H, 4H in the
      stack's buffer from slot 0 up, deal 4H, then 3H, move 3H to a tableau,
      deal 2H and gather up the waste: the source's stack holds 2H and 3H,
      while the waste held 4H and 2H. */
  lemma {:induction false} RecyclingAsWrittenDuplicates()
    ensures var stackBuf := [CardType('2', 'H', false), CardType('3', 'H', false), CardType('4', 'H', false)];
      var waste := [CardType('4', 'H', false), CardType('2', 'H', true)];
      Names(RecycledAsWritten(stackBuf, 2)) != Names(waste)
  {
    var stackBuf: seq<Card> := [CardType('2', 'H', false), CardType('3', 'H', false), CardType('4', 'H', false)];
    var waste: seq<Card> := [CardType('4', 'H', false), CardType('2', 'H', true)];
    var r := RecycledAsWritten(stackBuf, 2);
    assert r[..1] == [r[0]] && r[..1][..0] == [] && r[1] == CardType('3', 'H', false);
    assert Names(r) == Names([r[0]]) + multiset{('3', 'H')};
    assert waste[..1] == [waste[0]] && waste[..1][..0] == [];
    assert Names(waste) == multiset{('4', 'H')} + multiset{('2', 'H')};
    assert Names(waste)[('3', 'H')] == 0 < Names(r)[('3', 'H')];
  }

  /** move_card's waste-letter placement as written: after the push it turns
      slot p - 1 face-down even when p is 0, a write before the buffer
      (None). */
  function PlacedAsWritten(buf: seq<Card>, p: nat, c: Card, destc: char): (r: Option<seq<Card>>)
    requires p < |buf|
    ensures r.None? <==> destc == 'w' && p == 0
    ensures r.Some? ==> r.value == Placed(buf, p, c, destc)
  {
    if destc == 'w' && p == 0 then None else Some(Placed(buf, p, c, destc))
  }

  /** Turning up the top card as written: slot p - 1 of a pile of p cards,
      a write before the buffer (None) when the pile is empty. */
  function TurnUpAsWritten(buf: seq<Card>, p: nat): (r: Option<seq<Card>>)
    requires p <= |buf|
    ensures r.None? <==> p == 0
    ensures r.Some? ==> r.value == TurnedUp(buf, p)
  {
    if p == 0 then None else Some(TurnedUp(buf, p))
  }

  /** Turning up the top card of a pile of p cards; an empty pile is left as it is. */
  function TurnedUp(buf: seq<Card>, p: nat): (r: seq<Card>)
    requires p <= |buf|
    ensures |r| == |buf| && SameCards(r, buf)
    ensures p > 0 ==> r[p - 1].faceup
    ensures forall j :: 0 <= j < |buf| && j != p - 1 ==> r[j] == buf[j]
  {
    if p == 0 then buf else buf[p - 1 := FaceUp(buf[p - 1], true)]
  }

  /** Taking the top card off a pile of p cards leaves the names of the
      cards below it. */
  lemma {:induction false} PopNames(buf: seq<Card>, p: nat)
    requires 0 < p <= |buf|
    ensures Names(buf[..p]) == Names(buf[..p - 1]) + multiset{(buf[p - 1].rank, buf[p - 1].suit)}
  {
    assert buf[..p][..p - 1] == buf[..p - 1];
  }

  /** A placement adds the placed card to the pile and changes no other card. */
  lemma {:induction false} PlacedNames(buf: seq<Card>, p: nat, c: Card, destc: char)
    requires p < |buf|
    ensures Names(Placed(buf, p, c, destc)[..p + 1]) == Names(buf[..p]) + multiset{(c.rank, c.suit)}
    ensures Names(Placed(buf, p, c, destc)[..p]) == Names(buf[..p])
  {
    var r := Placed(buf, p, c, destc);
    assert SameCards(r[..p], buf[..p]);
    SameCardsNames(r[..p], buf[..p]);
    assert r[..p + 1][..p] == r[..p];
  }

  /** A placement on top of s adds the placed card to the names of s. */
  lemma {:induction false} PutNames(s: seq<Card>, c: Card, destc: char)
    ensures Names(Put(s, c, destc)) == Names(s) + multiset{(c.rank, c.suit)}
  {
    PlacedNames(s + [c], |s|, c, destc);
    assert (s + [c])[..|s|] == s;
    assert Put(s, c, destc)[..|s| + 1] == Put(s, c, destc);
  }

  /** The cards below a run of placements keep their names; without the
      waste letter they are left exactly as they were. */
  lemma {:induction false} PutAllBelow(s: seq<Card>, b: seq<Card>, destc: char)
    ensures |s| <= |PutAll(s, b, destc)| && SameCards(PutAll(s, b, destc)[..|s|], s)
    ensures destc != 'w' ==> PutAll(s, b, destc)[..|s|] == s
  {
    PutAllCards(s, b, destc);
    if destc != 'w' {
      PutAllNoWaste(s, b, destc);
      assert (s + b)[..|s|] == s;
    }
  }

  /** Appending the same cards to two piles holding the same cards. */
  lemma {:induction false} SameCardsAppend(a: seq<Card>, b: seq<Card>, c: seq<Card>)
    requires SameCards(a, b)
    ensures SameCards(a + c, b + c)
  {
    forall i | 0 <= i < |a + c| ensures (a + c)[i].rank == (b + c)[i].rank && (a + c)[i].suit == (b + c)[i].suit {
      if i < |a| {
        assert (a + c)[i] == a[i] && (b + c)[i] == b[i];
      } else {
        assert (a + c)[i] == c[i - |a|] == (b + c)[i];
      }
    }
  }

  /** The bottom of a foundation run is a foundation run. */
  lemma {:induction false} RunPrefix(s: seq<Card>, n: nat)
    requires FoundationRun(s) && n <= |s|
    ensures FoundationRun(s[..n])
  {
    var t := s[..n];
    forall j | 0 <= j < |t| ensures RankValue(t[j]) == j && t[j].suit == t[0].suit {
      assert t[j] == s[j] && t[0] == s[0];
    }
  }

  /** Placements never touch the cards below the top card of the pile they
      start on. */
  lemma {:induction false} PutAllFixesBelow(s: seq<Card>, b: seq<Card>, destc: char)
    requires s != []
    ensures |s| <= |PutAll(s, b, destc)| && PutAll(s, b, destc)[..|s| - 1] == s[..|s| - 1]
    decreases |b|
  {
    if b != [] {
      var t := Put(s, b[0], destc);
      PutAllFixesBelow(t, b[1..], destc);
      assert t[..|s| - 1] == s[..|s| - 1];
      assert PutAll(s, b, destc)[..|s| - 1] == PutAll(t, b[1..], destc)[..|t| - 1][..|s| - 1];
    }
  }

  /** Taking the first k cards off b leaves the last |b| - k of its reversal. */
  lemma {:induction false} ReversedSuffix(b: seq<Card>, k: nat)
    requires k <= |b|
    ensures Reversed(b)[..|b| - k] == Reversed(b[k..])
  {
    var r, t := Reversed(b)[..|b| - k], Reversed(b[k..]);
    forall i | 0 <= i < |b| - k ensures r[i] == t[i] {
      assert t[i] == b[k..][|b| - k - 1 - i];
    }
  }

  /** While the destination has accepted every card so far, the next card
      passes the rule on the pile the placements built exactly when it is
      one of the cards the destination accepts. */
  lemma {:induction false} AcceptedNext(s: seq<Card>, b: seq<Card>, destc: char, k: nat)
    requires k <= Accepted(b, TopOf(s), destc) && k < |b|
    ensures Legal(b[k], false, TopOf(PutAll(s, b[..k], destc)), destc) <==> k < Accepted(b, TopOf(s), destc)
  {
    AcceptedMeans(b, TopOf(s), destc);
    if k > 0 {
      PutAllTop(s, b[..k], destc);
    } else {
      assert b[..0] == [];
    }
  }

  /** One placement more extends the placements of a prefix of b. */
  lemma {:induction false} PutAllPrefix(s: seq<Card>, b: seq<Card>, destc: char, k: nat)
    requires k < |b|
    ensures PutAll(s, b[..k + 1], destc) == Put(PutAll(s, b[..k], destc), b[k], destc)
  {
    assert b[..k + 1] == b[..k] + [b[k]];
    PutAllSnoc(s, b[..k], b[k], destc);
  }

  /** The first k cards of a block placed on s, the rest of the block above
      them unplaced: the cards of s + b, and for the letters other than w
      exactly s + b. */
  lemma {:induction false} PartlyPlaced(s: seq<Card>, b: seq<Card>, k: nat, destc: char)
    requires k <= |b|
    ensures Names(PutAll(s, b[..k], destc) + b[k..]) == Names(s + b)
    ensures destc != 'w' ==> PutAll(s, b[..k], destc) + b[k..] == s + b
  {
    var p := PutAll(s, b[..k], destc);
    assert s + b[..k] + b[k..] == s + b;
    PutAllCards(s, b[..k], destc);
    SameCardsAppend(p, s + b[..k], b[k..]);
    SameCardsNames(p + b[k..], s + b);
    if destc != 'w' {
      PutAllNoWaste(s, b[..k], destc);
    }
  }

  /** The reversal of b grows card by card from the top of b down. */
  lemma {:induction false} ReversedGrows(b: seq<Card>, k: nat)
    requires k < |b|
    ensures Reversed(b)[..k + 1] == Reversed(b)[..k] + [b[|b| - 1 - k]]
  {
    var r := Reversed(b);
    assert r[..k + 1] == r[..k] + [r[k]];
  }

  /** The reversal of c before t is the reversal of t, then c. */
  lemma {:induction false} ReversedCons(c: Card, t: seq<Card>)
    ensures Reversed([c] + t) == Reversed(t) + [c]
    decreases |t|
  {
    if t == [] {
      assert [c] + t == [c];
      assert Reversed([c]) == [c] + Reversed([]);
    } else {
      var n := |t| - 1;
      var s := [c] + t;
      assert s[..|s| - 1] == [c] + t[..n];
      ReversedCons(c, t[..n]);
    }
  }
}
