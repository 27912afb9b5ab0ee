# A verified model of the solitaire.c engine

`solitaire.c` is a terminal Klondike game. Its engine has these parts:

- fourteen global piles, each a 52-slot card buffer with a `pointer` to its first free slot: `stack`, `waste`, `tab[7]`, `fnd[4]` and the scratch pile `temppile`;
- `push` and `pop`;
- the two order tables and their lookups;
- the placement rules of `move_card`;
- the recogniser `verify_input`;
- the executor `exec_input`, with its four commands: deal, waste move, pile move and turn-up;
- `init_deal`, the swap pass of `shuffle`, and the win test in `main`.

The project models this engine in Dafny and proves what it keeps true.

## Modules

- **Cards**: the card record, the tables `A234567890JQK` and `DCHS`, the scans `get_rank_value` and `get_suit_value`, and the rule of `move_card` as a predicate (`Legal`).
- **Piles**: `struct pile_type` as a class holding a fixed `array` and a `pointer`. `Push` and `Pop` change them in place. Slots above the pointer keep stale cards, as in C.
- **Rules**: what placements do to a pile, as values:
  - `Put` and `PutAll`: what the pile reads after one or several placements;
  - `Accepted`: how many cards of a block the destination takes;
  - foundation runs, card names (a multiset of rank and suit) and reversal;
  - the two recyclings: `RecycledAsWritten`, the code's, and `Recycled`, the waste turned over.
- **Command**: `verify_input` as a method over the input buffer, Dafny's `seq<char>`. A position past the end reads as NUL. The method is specified by the function `Recognise`.
- **Dealing**: the deck initialiser, the index arithmetic of `init_deal`, and the swap pass of `shuffle` as a function of the random indices.
- **Play**: the game as a layout of fourteen sequences in the order stack, waste, tab, fnd, temppile.
  - Each command is a function on the layout (`MoveTop`, `Deal`, `WasteMove`, `Multi`, `TurnOver`, `Exec`). `Deal` and `Exec` also take the stack's buffer, which the code's recycling reads.
  - `IntendedDeal` and `IntendedExec` are the same commands with the waste turned over onto an empty stack, the way Klondike recycles.
  - `InPlay` is the invariant of a game as Klondike means it:
    - the thirteen visible piles hold the 52 cards exactly once (`FullDeckOnce`);
    - the stack is face-down;
    - only the waste's top card is face-up;
    - every foundation is an Ace-upward run of one suit.
  - `IntendedExec` keeps `InPlay` (`ExecKeepsPlay`). The code's `Exec` keeps the weaker `Running` (`ExecKeepsRunning`):
    - 52 cards in the visible piles, not necessarily each card once;
    - a face-down stack drawn from the bottom slots of its own buffer;
    - only the waste's top card face-up;
    - foundation runs.
- **Engine**: class `Game`, holding the fourteen `Pile` objects and the `deck` array.
  - Each method mirrors a C function or one of its loops.
  - Each is proved to leave the piles showing what the matching Play function computes from the state before.
  - `ExecInput` follows the code's `Exec`, leaves the stack's buffer as it is, and keeps `Playing()`: `Running` on the live piles, with the stack's buffer still holding the stack `init_deal` dealt.

## Behaviour of the code that the model keeps

- **Destination letters.** After a tableau source any destination letter is taken: `t1w3` is a pile move with the waste letter onto tableau 3. After a foundation source only `f` is taken, so `f1t2` is rejected. Tableau and foundation indices are not range-checked by the recogniser.
- **Digit prefix.** Leading digits are skipped for every command, so `3d` is a deal.
- **Count.** The count buffer `multstr[2]` holds one digit and its terminator. A two-digit count writes past it and is refused as `Undefined`. A count of 0 means 1.
- **Stale input buffer.** The recogniser reads past the terminator. `"t1"` followed by a NUL and a stale `2`, NUL is recognised as a pile move. The model takes the whole buffer, stale bytes included.
- **Foundation moves.** Pile moves onto a foundation are not clamped to one card. Each card of the block is checked in turn.
- **Rollback.** When the k-th card of a pile move is refused, the source pointer goes up by the count and the destination pointer down by k.
  - For the letters `t` and `f`, the visible piles are exactly as before.
  - `temppile` keeps the refused cards and is never emptied.
  - With the waste letter the rollback is not exact: the destination's old top card stays face-down.
- **Recycling.** A deal from an empty stack only moves the two pointers. The stack buffer is written by `init_deal` alone, so the recycled stack is the first cards `init_deal` dealt into it, face-down, as many as the waste held, whatever the waste held (`RecycledStackAsWritten`, `Game.DealCommand`).
- **Empty destination.** A comparison with the top card of an empty destination is false: only the King rule and the Ace rule can place a card on an empty pile.
- **Undefined behaviour.** These commands are refused as `Undefined`, with nothing changed:
  - a count of two digits;
  - a deal with the stack and the waste both empty, and a deal onto a full waste;
  - a tableau or foundation index out of range;
  - a waste move from an empty waste;
  - a pile move of more cards than the source holds;
  - a push past slot 52.

  `UndefinedInPlay` proves that in a game in progress these are exactly the commands `Overruns` lists. Three other out-of-buffer accesses are not refused. The commands run, and only the stray access is left out; see the `Legal`, `Game.MoveCard`, `Game.MoveFromWaste` and `Game.TurnUp` lines under Left out.
  - The read of an empty destination's top card: the comparison counts as false.
  - The write before the buffer by a waste-letter placement onto any empty pile: the first `d` of every game, and `t1w3` onto an empty tableau 3. The command returns `Dealt` or `BlockMoved`.
  - The write before the buffer when the waste is emptied by a waste move, or by `ut1` on an empty tableau 1. The command returns `WasteMoved` or `TurnedOver`.

## Where the code departs from the rules of Klondike

The model follows the code in each case. Where the game calls for something else, that is stated beside it (`IntendedDeal`, `IntendedExec` and the corrected members under Findings).

- **Foundation clamp.** A pile move onto a foundation should move one card only. The code has no clamp.
- **Scratch pile.** The block held for a pile move should be gone once the move is over, whether it succeeded or not. The code leaves the refused cards on `temppile`, which only grows until a pile move would overflow it (`TemppileFullAsWritten`); this is listed under Findings.
- **Count digits.** A count should be any number of digits. The code has room for one.
- **Destination letter.** A destination should be `f` or `t` after either kind of source. The code takes only `f` after a foundation source, and any letter after a tableau source.
- **Tableau order.** Each tableau's face-up cards should descend by one rank in alternating colours. With the waste letter, `t1w3` puts the face-up top card of tableau 1 onto tableau 3 whatever the two cards are, and turns tableau 3's old top face-down (`WasteLetterOnTableau`).
- **Recycling.** An empty stack should take the waste turned over, face-down, so that each card stays once in play and the waste's cards can be drawn again. The code only moves the two pointers, so once a card has been played from the waste it can come back and another be lost. This is listed under Findings.

## Model

| member | source | states |
|---|---|---|
| Cards.RankValue | solitaire.c:66 | the value of a card is the position of its rank letter in the rank table |
| Cards.SuitValue | solitaire.c:67 | the value of a card is the position of its suit letter in the suit table |
| Cards.GetRankValue | solitaire.c:315-322 | the scan returns the index of the card's rank in `A234567890JQK`, 0 to 12, and never runs past the table |
| Cards.GetSuitValue | solitaire.c:306-313 | the scan returns the index of the card's suit in `DCHS`, 0 to 3 |
| Cards.TablesDistinct | solitaire.c:66-67 | each table holds every letter once, so the index of a letter is unique |
| Cards.AceAndKing | solitaire.c:128-138 | rank value 0 is exactly the Ace and rank value 12 exactly the King |
| Cards.SuitValueInjective | solitaire.c:143-144 | equal suit values mean equal suits |
| Cards.SuitParity | solitaire.c:67 | a suit value is even exactly for the red suits D and H |
| Cards.ParityIsColour | solitaire.c:123-129 | the sum of two suit values is odd exactly when one card is red and the other black |
| Cards.FaceUp | solitaire.c:348-351 | setting the face flag keeps rank and suit |
| Cards.Legal | solitaire.c:117-157 | a placement is legal only from the stack or with the card face-up, and only with the letter t, f or w; onto an empty pile only a King with t or an Ace with f, the comparisons with the missing top card counting as false |
| Cards.TableauRule | solitaire.c:117-134 | the tableau letter accepts either a card one rank below the destination top in the other colour, or a King on an empty pile; the card must be face-up unless it comes from the stack (both directions) |
| Cards.FoundationRule | solitaire.c:135-148 | the foundation letter accepts either an Ace on an empty pile, or the next rank of the destination top's suit; the card must be face-up unless it comes from the stack (both directions) |
| Cards.OtherLetters | solitaire.c:149-157 | the waste letter accepts any face-up or stack card; every other letter refuses |
| Piles.Pile.constructor | solitaire.c:63 | a new pile is empty |
| Piles.Pile.Push | solitaire.c:294-299 | the card is written into the first free slot, the pointer goes up by one, and the pile reads as before plus the card on top |
| Piles.Pile.Pop | solitaire.c:301-304 | the pointer goes down by one, the top card is returned, and the buffer is left untouched |
| Piles.Pile.Top | solitaire.c:114-115 | the top card is the last card in play, and there is none exactly when the pile is empty |
| Rules.Shown | solitaire.c:151-155 | a placement keeps rank and suit; the waste letter turns the card face-up, the other letters keep its flag |
| Rules.Placed | solitaire.c:151-155 | a placement into slot p writes the shown card there; with the waste letter it also turns down the card below; no other slot changes |
| Rules.Put | solitaire.c:151-155 | the pile grows by the shown card; only with the waste letter can the old top card change, and then it is turned face-down |
| Rules.PlacedIsPut | solitaire.c:151-155 | reading the buffer after a placement up to the new top gives the pile with the card put on |
| Rules.PutAll | solitaire.c:270-276 | a run of placements grows the pile by the block's length |
| Rules.PutAllNoWaste | solitaire.c:270-276 | without the waste letter, placing a block stacks its cards unchanged |
| Rules.PutAllTop | solitaire.c:270-276 | after a run of placements the pile shows the last card placed |
| Rules.PutAllNames | solitaire.c:270-276 | placing a block adds exactly the block's cards to the pile |
| Rules.PutAllBelow | solitaire.c:272-273 | placements keep the cards below the old top; without the waste letter they keep them exactly, which is what makes lowering the destination pointer a rollback |
| Rules.Accepted | solitaire.c:270-276 | the destination takes at most the whole block (what it takes is AcceptedMeans) |
| Rules.AcceptedMeans | solitaire.c:270-276 | each of the first Accepted cards of a block passes the rule on the card placed before it, and the next card fails |
| Rules.FoundationGrows | solitaire.c:136-147 | a card the foundation rule accepts extends a foundation run |
| Rules.FoundationPutAll | solitaire.c:270-276 | the cards a foundation accepts from a block keep it a run |
| Rules.RunIsAceUpward | solitaire.c:100-102 | a foundation run starts with an Ace, rises one rank at a time, and a full one ends with the King |
| Rules.ReversedNames | solitaire.c:268-269 | reversing a block, as the pushes onto temppile do, keeps its cards |
| Rules.RecycledKeepsCards | solitaire.c:253-258 | gathering up the waste as intended gives a stack holding the same cards, all face-down |
| Rules.RecycledAsWritten | solitaire.c:254-256 | as written, recycling reads the first w slots of the stack's own buffer |
| Rules.Recycled | solitaire.c:254-256 | the intended stack holds as many cards as the waste did; which cards they are is RecycledKeepsCards |
| Rules.RecyclingAgreesExactly | solitaire.c:254-256 | the code's recycling gives the intended stack exactly when the stack's buffer holds, from slot 0 up, the waste read from its top down, all face-down (both directions) |
| Rules.RecyclingAsWrittenDuplicates | solitaire.c:254-256 | an example: with 2H, 3H, 4H in the stack's buffer, deal 4H and 3H, move 3H away, deal 2H; the code's recycled stack holds 2H and 3H, though the waste held 4H and 2H |
| Rules.PlacedAsWritten | solitaire.c:151-154 | as written, a waste-letter placement into slot 0 writes the slot before the buffer; every other placement is the intended one |
| Rules.TurnUpAsWritten | solitaire.c:278-280 | as written, turning up the top of an empty pile writes the slot before the buffer; every other turn-up is the intended one |
| Rules.TurnedUp | solitaire.c:278-280 | turning up makes the top card face-up and changes nothing else; an empty pile is left as it is |
| Rules.TopOf | solitaire.c:114-115 | the destination card move_card compares against: None exactly for an empty pile, else the top card |
| Command.At | solitaire.c:168-174 | the command reads as its characters, then the terminator past its end |
| Command.DigitRun | solitaire.c:170-171 | the scan stops at the first non-digit, and every position it passes holds a digit |
| Command.LeadingDigits | solitaire.c:168-174 | the leading digits skipped lie within the command |
| Command.IndexOfDigit | solitaire.c:192 | `(s[i] - '0') - 1` names a tableau 0 to 6 exactly for the digits 1 to 7, and a foundation 0 to 3 exactly for 1 to 4 |
| Command.PileRef | solitaire.c:195 | the letter f names a foundation and every other letter a tableau, indexed by the digit |
| Command.Recognise | solitaire.c:162-232 | the code is 0 to 4; a deal names the stack, the waste and the waste letter; a waste move has the letter f or t; a pile move's source is a tableau or a foundation, and after a foundation source the letter is f |
| Command.VerifyInput | solitaire.c:162-232 | returns the code the command shape determines, with the source pile, destination pile and letter for codes 1 to 3 |
| Command.DigitPrefixIgnored | solitaire.c:168-174 | a digit prefix never changes what is recognised, for any command |
| Command.CleanCommandShapes | solitaire.c:172-231 | on a buffer without NUL, each code 1 to 4 holds exactly when the string after the digits has that code's shape and nothing more (both directions) |
| Command.Verdicts | solitaire.c:162-232 | concrete verdicts: `3d` deals, `t1w3` moves onto tableau 3 with the waste letter, `f1t2` and trailing characters are rejected, unchecked indices are recognised, and stale buffer bytes after a NUL can complete a command |
| Command.RecogniseDestLetter | solitaire.c:188-215 | for codes 2 and 3 the destination is a foundation exactly when the letter is f, and a pile move's source is a tableau or a foundation |
| Command.Count | solitaire.c:239-247 | the count is the single leading digit, with none or 0 meaning 1 |
| Dealing.DeckCard | solitaire.c:44-56 | card i of the initialiser has rank `234567890JQKA`[i / 4] and suit `HDCS`[i % 4], face-down |
| Dealing.InitialDeck | solitaire.c:44-56 | the deck lists the 52 initialiser cards in order |
| Dealing.DeckDistinct | solitaire.c:44-56 | no two cards of the initialiser share rank and suit |
| Dealing.DeckHasEveryCard | solitaire.c:44-56 | every rank and suit is a card of the initialiser |
| Dealing.NamesOnce | solitaire.c:44-56 | cards no two of which share rank and suit have each name once |
| Dealing.DealtBefore | solitaire.c:344-353 | the number of cards dealt to the tableaux before tableau i is i(i + 1)/2 |
| Dealing.TabSource | solitaire.c:344-353 | the deck index `deckp` copies into slot j of tableau i counts down from 51, and lies in 24 to 51 for every tableau slot |
| Dealing.StackSource | solitaire.c:355-358 | the stack slots 0 to 23 take deck indices 23 down to 0, and exactly those |
| Dealing.TabSlotOf | solitaire.c:344-354 | every deck index from 24 to 51 is dealt into some tableau slot |
| Dealing.DealUsesEachCardOnce | solitaire.c:344-360 | init_deal takes every deck index exactly once: tableau slots take 51 down to 24, stack slots take 23 down to 0 |
| Dealing.SwapsPermute | solitaire.c:331-336 | the swap pass only reorders the deck, whatever the random indices |
| Dealing.Swapped | solitaire.c:331-336 | the deck after the first i exchanges of deck[k] with deck[r[k]]; it keeps the deck's length |
| Dealing.SwapPermutes | solitaire.c:333-335 | one exchange keeps the multiset of cards |
| Dealing.StackDealt | solitaire.c:355-360 | the stack gets deck[23 - k] in slot k, face-down |
| Dealing.TabDealt | solitaire.c:345-354 | tableau i gets i + 1 cards counted down from deck[51 - DealtBefore(i)], only its top card face-up |
| Dealing.TabDealtNames | solitaire.c:345-354 | tableau i holds the cards of its slice of the deck |
| Dealing.StackDealtNames | solitaire.c:355-360 | the stack holds the cards of deck[0..24] |
| Play.FullDeckOnce | solitaire.c:44-56 | the 52 cards of the deck each once: every name is a rank and a suit of the tables, and each rank and suit occurs exactly once |
| Play.InPlay | solitaire.c:58-63 | the invariant of a game as Klondike means it: the thirteen visible piles hold the given 52 cards, the stack face-down, only the waste top face-up, each foundation an Ace-upward run |
| Play.Running | solitaire.c:254-256 | the invariant the code keeps: InPlay over whatever the visible piles hold, a stack that is the bottom slots of its face-down buffer, stack and waste within its 24 dealt slots |
| Play.Fits | solitaire.c:58-61 | while the visible piles hold 52 cards, any two of them fit in one 52-slot buffer together, so no push of a legal move overflows |
| Play.MoveTop | solitaire.c:108-158 | move_card moves exactly when the rule accepts; then the source loses its top card and the destination gains one; otherwise nothing changes, and the other piles never change |
| Play.MoveTopKeepsCards | solitaire.c:108-158 | a move keeps the cards of the two piles together |
| Play.Moved | solitaire.c:131 | `push(pop(a), b)`: the top card of a goes on top of b, the other piles unchanged |
| Play.Deal | solitaire.c:253-258 | the code's deal changes only the stack and the waste |
| Play.IntendedDeal | solitaire.c:253-258 | the intended deal changes only the stack and the waste |
| Play.DealMovesOne | solitaire.c:253-258 | a deal moves one card onto the waste, face-up; the stack loses one card, or ends one short of the waste's old size when it was empty; from a stack that is not empty the code's deal is the intended one |
| Play.DealAfterPointersMove | solitaire.c:254-258 | from an empty stack the code's deal leaves the bottom w - 1 slots of the stack's buffer in the stack, and the next slot face-up on the waste, w being the waste's old size |
| Play.RecycledStackAsWritten | solitaire.c:254-258 | while the buffer holds what init_deal put there, those slots are the first cards init_deal dealt into the stack: face-down in the stack, the next face-up on the waste, whatever the waste held |
| Play.DealFromStack | solitaire.c:257-258 | with a non-empty stack, a deal puts the stack's top card onto the waste with the waste letter |
| Play.RecycleKeepsPlay | solitaire.c:253-256 | gathering up the waste as intended keeps a game in progress |
| Play.DealKeepsPlay | solitaire.c:253-258 | the intended deal keeps a game in progress and never overflows the waste |
| Play.PointersMoveKeepsRunning | solitaire.c:254-256 | moving the two pointers keeps a running game: the visible piles hold as many cards, and the stack shows bottom slots of its face-down buffer |
| Play.DealKeepsRunning | solitaire.c:253-258 | the code's deal keeps a running game and never overflows the waste |
| Play.WasteMove | solitaire.c:260-263 | the waste top moves exactly when the rule accepts; the destination gets it put on; the waste then shows its new top face-up |
| Play.WasteMoveKeepsPlay | solitaire.c:260-263 | a waste move keeps a game in progress |
| Play.ShowsTopTurnedUp | solitaire.c:261-262 | after the waste loses its top card, turning up its new top again shows only the top card |
| Play.FoundationPut | solitaire.c:136-147 | a card the rule accepts, placed on a foundation, keeps it a run |
| Play.TurnOver | solitaire.c:278-281 | the top card of tableau j is turned face-up; nothing else changes |
| Play.TurnOverKeepsPlay | solitaire.c:278-281 | a turn-up keeps a game in progress |
| Play.Block | solitaire.c:268-269 | the block is the top m cards of the source |
| Play.Lifting | solitaire.c:268-269 | after k turns of the first loop the source has lost its top k cards and temppile has gained them, the top card of the source first, temppile's old cards below |
| Play.Placing | solitaire.c:270-271 | after k placements of the second loop temppile has lost k cards and the destination has gained k, the other piles unchanged |
| Play.Taken | solitaire.c:270-276 | the number of block cards the destination accepts is at most the count |
| Play.Multi | solitaire.c:264-277 | a pile move reports how many cards were accepted, and touches no visible pile but the source and the destination |
| Play.Landed | solitaire.c:264-277 | after a fully accepted block, only the source and destination differ from before |
| Play.RefusedAt | solitaire.c:271-274 | after the k-th card is refused, only the source, the destination and temppile differ from before |
| Play.Refused | solitaire.c:271-274 | after a refusal only the source, the destination and temppile change, and temppile keeps the m - k refused cards, so it grows |
| Play.MultiAllOrNothing | solitaire.c:264-277 | for the letters t and f, either the whole block lands unchanged on the destination, or every visible pile is exactly as before and temppile holds the refused cards |
| Play.RefusedRestores | solitaire.c:271-274 | raising the source pointer by the count and lowering the destination pointer by k restores every visible pile |
| Play.WasteLetterRollback | solitaire.c:270-275 | with the waste letter, a refused block that was partly placed leaves the destination's old top card face-down |
| Play.MultiKeepsPlay | solitaire.c:264-277 | a pile move keeps a game in progress, refused or not |
| Play.MultiCleared | solitaire.c:264-277 | the pile move with temppile left as the move found it |
| Play.ClearedAllOrNothing | solitaire.c:264-277 | with temppile cleared, a refused move with the letters t and f changes nothing at all, and a move that lands is Multi's |
| Play.Slot | solitaire.c:192-215 | a pile reference names a real pile exactly when its index is in range: tableau 0 to 6 or foundation 0 to 3 |
| Play.Exec | solitaire.c:234-282 | the code's exec_input: an invalid or undefined command changes nothing; a command is invalid exactly when its code is 0 and its count fits |
| Play.IntendedExec | solitaire.c:234-282 | exec_input with the intended deal, with the same invalid and undefined cases |
| Play.ExecMove | solitaire.c:239-282 | every command but the deal leaves the stack alone and the waste no larger |
| Play.ExecDeal | solitaire.c:253-259 | a deal is undefined, with nothing changed, exactly when the stack and the waste are both empty or the stack is not empty and the waste full; otherwise it happens |
| Play.IntendedExecDeal | solitaire.c:253-259 | the intended deal is refused in the same cases |
| Play.ExecWaste | solitaire.c:260-263 | a waste move either runs or is undefined with nothing changed |
| Play.ExecPile | solitaire.c:264-277 | a pile move either runs or is undefined with nothing changed |
| Play.ExecTurn | solitaire.c:278-281 | a turn-up either runs or is undefined with nothing changed |
| Play.ExecMoveKeepsPlay | solitaire.c:260-281 | the waste move, the pile move and the turn-up keep a game in progress |
| Play.ExecKeepsPlay | solitaire.c:234-282 | with the intended deal every command keeps a game in progress: the 52 cards exactly once, a face-down stack, only the waste top shown, foundation runs |
| Play.ExecKeepsRunning | solitaire.c:234-282 | as the code plays them, every command keeps a running game: 52 cards in the visible piles, a face-down stack drawn from its buffer, only the waste top shown, foundation runs |
| Play.ExecAgrees | solitaire.c:253-258 | the code and the intended game give the same outcome and layout unless a deal from an empty stack finds a buffer that is not the waste turned over |
| Play.WasteLetterOnTableau | solitaire.c:151-156 | `t1w3` moves tableau 1's face-up top card onto tableau 3 whatever the two cards, and turns tableau 3's old top face-down |
| Play.UndefinedInPlay | solitaire.c:234-282 | while the visible piles hold 52 cards a command is undefined exactly for the reasons Overruns lists, in the code and in the intended game, and never because a legal push overflows |
| Play.Overruns | solitaire.c:234-282 | the commands that would access a buffer out of range; only a recognised command or a two-digit count can be one |
| Play.TemppileFullAsWritten | solitaire.c:268-274 | once temppile holds 52 cards, every pile move between two real piles is undefined |
| Play.Won | solitaire.c:100-102 | when the test passes the foundations hold 52 cards between them |
| Play.WonMeansComplete | solitaire.c:100-102 | when all four foundations hold 13 cards, each runs from Ace to King, and the stack, waste and tableaux are empty |
| Play.EmptyMeansWon | solitaire.c:100-102 | conversely, in a game in progress with the stack, the waste and the tableaux empty the test passes |
| Play.DealtLayout | solitaire.c:339-365 | the dealt layout is, pile by pile, what init_deal writes |
| Play.DealtHeldAll | solitaire.c:344-360 | the stack and the seven tableaux hold the whole deck between them |
| Play.DealtRunning | solitaire.c:339-365 | init_deal starts a running game over the stack's buffer it fills |
| Play.DealtLayoutInPlay | solitaire.c:339-365 | init_deal starts a game in progress with the cards of its deck |
| Play.ShuffledDealInPlay | solitaire.c:325-365 | whatever rand() returns, shuffling and dealing start a game in progress holding all 52 cards |
| Play.FirstDealAsWritten | solitaire.c:151-154 | the first deal of every game places into slot 0 of the empty waste, the case where move_card as written writes before the buffer |
| Play.LastWasteCardAsWritten | solitaire.c:260-262 | moving the last waste card empties the waste, the case where exec_input as written turns up the slot before the buffer |
| Engine.Game.constructor | solitaire.c:44-63 | all fourteen piles start empty, and the deck is the initialiser's |
| Engine.Game.MoveCard | solitaire.c:108-158 | move_card on the live piles: the result and the new layout are those of MoveTop, and the destination buffer receives the placement |
| Engine.Game.Allows | solitaire.c:117-148 | the comparisons of move_card, done with the table scans, decide exactly the placement rule |
| Engine.Game.Transfer | solitaire.c:151-155 | `push(pop(srcp), destp)` with the placement's face flips: the source loses its top card and the destination buffer gets the placement |
| Engine.Game.PushPop | solitaire.c:131 | `push(pop(a), b)`: the top card of a goes on top of b |
| Engine.Game.Recycle | solitaire.c:254-256 | the stack's pointer takes the waste's and the waste empties: the stack shows again the bottom slots of its own buffer, as many as the waste held |
| Engine.Game.DealCard | solitaire.c:253-258 | the deal on the live piles is Deal of the layout before and the stack's buffer, which it leaves alone |
| Engine.Game.MoveFromWaste | solitaire.c:260-263 | the waste move on the live piles is WasteMove of the layout before |
| Engine.Game.TurnUp | solitaire.c:278-281 | the turn-up on the live piles is TurnOver of the layout before |
| Engine.Game.ShowTop | solitaire.c:261-262 | the top card of a pile is turned up, an empty pile left as it is |
| Engine.Game.Lift | solitaire.c:268-269 | the first loop of the pile move: m cards popped from the source and pushed onto temppile, the source buffer untouched |
| Engine.Game.Place | solitaire.c:270-276 | the second loop: block cards moved from temppile until the first refusal, returning how many the destination accepted |
| Engine.Game.MultiMove | solitaire.c:264-277 | the pile move on the live piles: its count and the new layout are those of Multi |
| Engine.Game.LiftAndPlace | solitaire.c:268-276 | the two loops together take Taken cards, and leave stale source slots in place for the rollback |
| Engine.Game.Restore | solitaire.c:271-274 | the pointer rollback after a refusal gives the layout Refused describes |
| Engine.Game.RestoreSame | solitaire.c:272-273 | the rollback when the source is the destination |
| Engine.Game.RestoreApart | solitaire.c:272-273 | the rollback when the source and the destination differ |
| Engine.Game.RestoreInPlace | solitaire.c:272-273 | raising a pointer over stale slots makes the pile show the stale block cards again |
| Engine.Game.RollBack | solitaire.c:272-273 | the source shows its buffer up to the raised pointer, and the destination loses its top k cards |
| Engine.Game.RollBackSame | solitaire.c:272-273 | both pointer assignments on one pile add m - k to its pointer |
| Engine.Game.Start | solitaire.c:94-95 | shuffle then init_deal give the dealt layout of the shuffled deck, each of the 52 cards once, and a running game |
| Engine.Game.Shuffle | solitaire.c:331-336 | the swap loop leaves the deck as Swapped describes, a permutation of the old one, and the piles untouched |
| Engine.Game.InitDeal | solitaire.c:339-365 | the piles show the dealt layout of the deck and a running game starts; with each card of the deck once, each card is once in play |
| Engine.Game.EmptyRest | solitaire.c:361-364 | the foundations, the waste and temppile are emptied; the other piles keep what they hold |
| Engine.Game.DealTableaux | solitaire.c:344-354 | the seven tableaux are dealt, and the deck index ends at 23 |
| Engine.Game.DealTableau | solitaire.c:346-353 | tableau i is dealt from the current deck index, which then moves past its i + 1 cards |
| Engine.Game.DealStack | solitaire.c:355-360 | the stack gets the remaining 24 cards, face-down |
| Engine.Game.Clear | solitaire.c:362-364 | setting a pointer to 0 empties the pile |
| Engine.Game.IsWon | solitaire.c:100-102 | the test of main holds exactly when all four foundations hold 13 cards |
| Engine.Game.Playing | solitaire.c:339-365 | the engine's invariant: the piles are valid, the stack's first 24 slots hold what init_deal dealt from the deck, and the piles are Running over the stack's buffer |
| Engine.Game.ExecInput | solitaire.c:234-282 | exec_input on the live piles: the outcome and the new layout are those of Exec over the stack's buffer, which no command writes, and a running game stays one |
| Engine.Game.DealCommand | solitaire.c:253-259 | code 1: the outcome and the layout are those of ExecDeal; in a running game a deal from an empty stack leaves there the first w - 1 cards init_deal dealt into the stack and shows the next on the waste, w being the waste's old size |
| Engine.Game.WasteCommand | solitaire.c:260-263 | code 2: the outcome and the layout are those of ExecWaste |
| Engine.Game.PileCommand | solitaire.c:264-277 | code 3: the outcome and the layout are those of ExecPile |
| Engine.Game.TurnCommand | solitaire.c:278-281 | code 4: the outcome and the layout are those of ExecTurn |

## Left out

- Curses and terminal input are not modelled: `init_curses`, `get_input`, `print_pile`, `print_info`, the drawing in `main`, and the error report in `exec_input`. They are presentation. Commands enter `ExecInput` as a buffer.
- `search_doubles` and the `total_cards` buffer are not modelled. They are a display-time duplicate scan with no effect on the game.
- `srand(time(0))` and `rand()` are not modelled. The random indices are a parameter of `Shuffle` and `Start`, each below 52.
- The main loop's reading of commands and its `q` exit are not modelled. It is I/O; the win test it makes is `IsWon`.
- Legal: a comparison with the top card of an empty destination is taken as false. The source reads the slot before the buffer there, which is undefined.
- Count: a count of two or more digits writes past `multstr` and is refused as `Undefined` instead of emulated.
- Exec: each out-of-buffer read or write listed under Undefined behaviour refuses the command with nothing changed, instead of emulating memory.
- Play.RecycleKeepsPlay: states conservation for the intended recycling, which the code does not do; for the code, `PointersMoveKeepsRunning` states what is kept.
- Play.DealKeepsPlay: states conservation for `IntendedDeal`; for the code's `Deal`, `DealKeepsRunning` states what is kept.
- Play.ExecKeepsPlay: states conservation for `IntendedExec`; for the code's `Exec`, `ExecKeepsRunning` states what is kept.
- Game.MoveCard: does not write the slot before the buffer when the waste letter places onto any empty pile (the first `d` of a game, `t1w3` onto an empty tableau); see Findings.
- Play.MultiCleared: states the pile move with temppile cleared; the executors follow the code and keep the refused cards there, so this member is used only by ClearedAllOrNothing.
- Game.MoveFromWaste: does not turn up a card before an emptied waste; see Findings.
- Game.TurnUp: leaves an empty tableau as it is instead of writing the slot before its buffer; see Findings.
- Timing, memory layout and the value of bytes before a buffer are not modelled.

## Findings

| source | as written | input that shows it | evidently intended | confidence | as-written member | corrected member |
|---|---|---|---|---|---|---|
| solitaire.c:254-256 | recycling only sets the stack pointer to the waste pointer, so the stack shows its own stale buffer from the deal | deal 4H, then 3H; move 3H to a tableau; deal 2H; deal again with the stack empty: the stack holds 3H again and 4H is lost | the waste turned over into the stack, face-down, each card kept once | not executed | Rules.RecyclingAsWrittenDuplicates | Play.ExecKeepsPlay |
| solitaire.c:151-154 | the waste letter turns down slot pointer - 2, which is slot -1 when the waste was empty | the first `d` of every game | turn down the card below only when there is one | not executed | Play.FirstDealAsWritten | Rules.Placed |
| solitaire.c:268-274 | a refused pile move leaves its refused cards on temppile for good, so temppile only grows | `t1t2` refused 53 times in a row (the visible piles do not change): the 53rd pushes past `temppile.pile[51]` | temppile empty after every move | not executed | Play.TemppileFullAsWritten | Play.ClearedAllOrNothing |
| solitaire.c:260-262 | after a waste move, slot pointer - 1 of the waste is turned up, which is slot -1 once the waste is empty | `wf1` moving the only waste card, an Ace, to an empty foundation; likewise `ut1` on an empty tableau | turn up the waste top only when there is one | not executed | Play.LastWasteCardAsWritten | Rules.TurnedUp |
