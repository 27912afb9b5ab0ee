/** The command recogniser verify_input. The command is read from the input
    buffer: a position past the end of the sequence reads as the string
    terminator NUL, and the bytes after a NUL are whatever the buffer still
    holds from earlier input. */
module Command {

  const NUL: char := '\0'

  /** A pile named by a command; the index is the digit minus one and is not
      range-checked here, as in the source. NoRef: not set by this command. */
  datatype Ref = StockRef | WasteRef | TabRef(n: int) | FndRef(n: int) | NoRef

  /** Code 0 rejects; 1 deal, 2 waste move, 3 pile move, 4 turn-up. */
  datatype Recognised = Recognised(code: int, src: Ref, dest: Ref, destc: char)

  predicate IsDigit(c: char) {
    '0' <= c <= '9'
  }

  /** The character at position i of the command, the terminator past its end. */
  function At(s: seq<char>, i: nat): (c: char)
    ensures i < |s| ==> c == s[i]
    ensures |s| <= i ==> c == NUL
  {
    if i < |s| then s[i] else NUL
  }

  /** The pile index a digit selects: `(s[i] - '0') - 1`. */
  function IndexOfDigit(c: char): (n: int)
    ensures 0 <= n < 7 <==> '1' <= c <= '7'
    ensures 0 <= n < 4 <==> '1' <= c <= '4'
  {
    (c as int - '0' as int) - 1
  }

  /** The first position at or after i that does not hold a digit. */
  function DigitRun(s: seq<char>, i: nat): (j: nat)
    ensures i <= j && !IsDigit(At(s, j))
    ensures j == i || j <= |s|
    ensures forall k :: i <= k < j ==> k < |s| && IsDigit(s[k])
    decreases |s| - i
  {
    if i < |s| && IsDigit(s[i]) then DigitRun(s, i + 1) else i
  }

  /** The number of leading digits of a command. */
  function LeadingDigits(s: seq<char>): (l: nat)
    ensures l <= |s|
  {
    DigitRun(s, 0)
  }

  /** The pile a letter and a digit name: `f` a foundation, anything else a tableau. */
  function PileRef(letter: char, digit: char): (r: Ref)
    ensures r.FndRef? <==> letter == 'f'
    ensures r.TabRef? <==> letter != 'f'
    ensures (r.FndRef? || r.TabRef?) && r.n == IndexOfDigit(digit)
  {
    if letter == 'f' then FndRef(IndexOfDigit(digit)) else TabRef(IndexOfDigit(digit))
  }

  /** What verify_input returns for buffer s, position by position after the
      leading digits. */
  function Recognise(s: seq<char>): (r: Recognised)
    ensures 0 <= r.code <= 4
    ensures r.code == 1 ==> r == Recognised(1, StockRef, WasteRef, 'w')
    ensures r.code == 2 ==> r.src == WasteRef && (r.destc == 'f' || r.destc == 't')
    ensures r.code == 3 ==> (r.src.TabRef? || r.src.FndRef?) && (r.src.FndRef? ==> r.destc == 'f')
  {
    var l := LeadingDigits(s);
    var c := At(s, l);
    if c == 'd' && At(s, l + 1) == NUL then
      Recognised(1, StockRef, WasteRef, 'w')
    else if c == 'w' && (At(s, l + 1) == 'f' || At(s, l + 1) == 't') && IsDigit(At(s, l + 2)) then
      Recognised(if At(s, l + 3) == NUL then 2 else 0,
                 WasteRef, PileRef(At(s, l + 1), At(s, l + 2)), At(s, l + 1))
    else if (c == 'f' || c == 't') && IsDigit(At(s, l + 1))
         && (At(s, l + 2) == 'f' || c == 't') && IsDigit(At(s, l + 3)) then
      Recognised(if At(s, l + 4) == NUL then 3 else 0,
                 PileRef(c, At(s, l + 1)), PileRef(At(s, l + 2), At(s, l + 3)), At(s, l + 2))
    else if c == 'u' && At(s, l + 1) == 't' && IsDigit(At(s, l + 2)) && At(s, l + 3) == NUL then
      Recognised(4, NoRef, NoRef, NUL)
    else
      Recognised(0, NoRef, NoRef, NUL)
  }

  /** verify_input: skip the leading digits, then read the command letter by
      letter. Besides the code it returns what the source leaves in srcp,
      destp and destc; those are meaningful for codes 1 to 3. */
  method VerifyInput(s: seq<char>) returns (code: int, src: Ref, dest: Ref, destc: char)
    ensures code == Recognise(s).code
    ensures 1 <= code <= 3 ==> src == Recognise(s).src && dest == Recognise(s).dest
                               && destc == Recognise(s).destc
  {
    src, dest, destc := NoRef, NoRef, NUL;
    var i := 0;
    var c := At(s, i);
    while IsDigit(c)
      invariant i <= LeadingDigits(s) && c == At(s, i)
      invariant forall k :: 0 <= k < i ==> k < |s| && IsDigit(s[k])
      decreases |s| - i
    {
      i := i + 1;
      c := At(s, i);
    }
    assert i == LeadingDigits(s);
    c := At(s, i);
    i := i + 1;
    if c == 'd' && At(s, i) == NUL {
      return 1, StockRef, WasteRef, 'w';
    }
    if c == 'w' {
      src := WasteRef;
      destc := At(s, i);
      i := i + 1;
      if destc == 'f' || destc == 't' {
        if IsDigit(At(s, i)) {
          var n := IndexOfDigit(At(s, i));
          i := i + 1;
          dest := if destc == 'f' then FndRef(n) else TabRef(n);
          code := if At(s, i) == NUL then 2 else 0;
          return;
        }
      }
    }
    if c == 'f' || c == 't' {
      if IsDigit(At(s, i)) {
        var n := IndexOfDigit(At(s, i));
        i := i + 1;
        src := if c == 'f' then FndRef(n) else TabRef(n);
        destc := At(s, i);
        i := i + 1;
        if destc == 'f' || c == 't' {
          if IsDigit(At(s, i)) {
            n := IndexOfDigit(At(s, i));
            i := i + 1;
            dest := if destc == 'f' then FndRef(n) else TabRef(n);
            code := if At(s, i) == NUL then 3 else 0;
            return;
          }
        }
      }
    }
    if c == 'u' {
      c := At(s, i);
      i := i + 1;
      if c == 't' {
        var d := At(s, i);
        i := i + 1;
        if IsDigit(d) {
          code := if At(s, i) == NUL then 4 else 0;
          return;
        }
      }
    }
    code := 0;
  }

  /** Leading digits are skipped for every command, not only pile moves: a
      digit prefix never changes what is recognised. */
  lemma {:induction false} DigitPrefixIgnored(d: seq<char>, s: seq<char>)
    requires forall k :: 0 <= k < |d| ==> IsDigit(d[k])
    ensures Recognise(d + s) == Recognise(s)
  {
    DigitRunShift(d, s, 0);
    forall k: nat ensures At(d + s, |d| + k) == At(s, k) {
    }
  }

  /** DigitRun over d + s, starting inside the digit prefix d. */
  lemma {:induction false} DigitRunShift(d: seq<char>, s: seq<char>, i: nat)
    requires i <= |d|
    requires forall k :: 0 <= k < |d| ==> IsDigit(d[k])
    ensures DigitRun(d + s, i) == |d| + DigitRun(s, 0)
    decreases |d| - i
  {
    if i < |d| {
      assert (d + s)[i] == d[i];
      DigitRunShift(d, s, i + 1);
    } else {
      DigitRunFrom(d, s, 0);
    }
  }

  /** Past the prefix, DigitRun over d + s follows DigitRun over s. */
  lemma {:induction false} DigitRunFrom(d: seq<char>, s: seq<char>, k: nat)
    requires k <= DigitRun(s, 0)
    ensures DigitRun(d + s, |d| + k) == |d| + DigitRun(s, k)
    decreases |s| - k
  {
    assert At(d + s, |d| + k) == At(s, k);
    if k < |s| && IsDigit(s[k]) {
      assert (d + s)[|d| + k] == s[k];
      DigitRunSteps(s, k);
      DigitRunFrom(d, s, k + 1);
    }
  }

  /** DigitRun visits every position of the digit run on its way. */
  lemma {:induction false} DigitRunSteps(s: seq<char>, k: nat)
    requires k < |s| && IsDigit(s[k])
    ensures DigitRun(s, k) == DigitRun(s, k + 1)
  {
  }

  /** For a command string holding no NUL, each code accepts exactly one
      shape and nothing may follow it. */
  lemma {:induction false} CleanCommandShapes(s: seq<char>)
    requires NUL !in s
    ensures var l := LeadingDigits(s); var r := Recognise(s);
      (r.code == 1 <==> |s| == l + 1 && s[l] == 'd') &&
      (r.code == 2 <==> |s| == l + 3 && s[l] == 'w' && (s[l + 1] == 'f' || s[l + 1] == 't')
                        && IsDigit(s[l + 2])) &&
      (r.code == 3 <==> |s| == l + 4 && (s[l] == 'f' || s[l] == 't') && IsDigit(s[l + 1])
                        && (s[l + 2] == 'f' || s[l] == 't') && IsDigit(s[l + 3])) &&
      (r.code == 4 <==> |s| == l + 3 && s[l] == 'u' && s[l + 1] == 't' && IsDigit(s[l + 2])) &&
      0 <= r.code <= 4
  {
    var l := LeadingDigits(s);
    assert forall k :: 0 <= k < |s| ==> s[k] != NUL;
  }

  /** Examples of the recogniser's less obvious verdicts. */
  lemma {:induction false} Verdicts()
    // a digit prefix makes no difference to a deal
    ensures Recognise("3d").code == 1
    // after a tableau source any destination letter is taken: w selects tableau 3
    ensures Recognise("t1w3") == Recognised(3, TabRef(0), TabRef(2), 'w')
    // after a foundation source only f is taken
    ensures Recognise("f1t2").code == 0
    ensures Recognise("f1f2") == Recognised(3, FndRef(0), FndRef(1), 'f')
    // indices are not range-checked: tableau 8 and foundation 0 are recognised
    ensures Recognise("wt8") == Recognised(2, WasteRef, TabRef(7), 't')
    ensures Recognise("2t3f0") == Recognised(3, TabRef(2), FndRef(-1), 'f')
    ensures Recognise("ut9").code == 4
    // trailing characters reject
    ensures Recognise("dd").code == 0 && Recognise("wf1x").code == 0
    // "t1" alone is rejected on a clean buffer, but accepted as a pile move
    // when the buffer still holds a digit and a NUL just after its terminator
    ensures Recognise("t1").code == 0
    ensures Recognise("t1\02\0") == Recognised(3, TabRef(0), TabRef(1), NUL)
  {
    assert LeadingDigits("3d") == 1 by {
      assert DigitRun("3d", 1) == 1;
    }
    assert LeadingDigits("2t3f0") == 1 by {
      assert DigitRun("2t3f0", 1) == 1;
    }
  }

  /** "t1w3" is a pile move of one card from tableau 1 to tableau 3 with
      the waste letter. */
  lemma {:induction false} PileMoveWithWasteLetter()
    ensures LeadingDigits("t1w3") == 0 && Count("t1w3") == 1
    ensures Recognise("t1w3") == Recognised(3, TabRef(0), TabRef(2), 'w')
  {
  }

  /** exec_input's count of a pile move: atoi of the leading digits (at most
      one fits in its buffer), a count of 0 or no digits at all meaning 1. */
  function Count(s: seq<char>): (m: nat)
    requires LeadingDigits(s) <= 1
    ensures 1 <= m <= 9
    ensures LeadingDigits(s) == 0 || s[0] == '0' ==> m == 1
    ensures LeadingDigits(s) == 1 && s[0] != '0' ==> m == s[0] as int - '0' as int
  {
    if LeadingDigits(s) == 0 || s[0] == '0' then 1 else s[0] as int - '0' as int
  }

  /** For the two moving codes the destination is a foundation exactly when
      the destination letter is f. */
  lemma {:induction false} RecogniseDestLetter(s: seq<char>)
    ensures var r := Recognise(s);
      r.code == 2 || r.code == 3 ==> (r.dest.FndRef? <==> r.destc == 'f') && r.dest != NoRef
    ensures var r := Recognise(s);
      r.code == 3 ==> r.src.TabRef? || r.src.FndRef?
  {
  }
}
