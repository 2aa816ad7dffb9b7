/**
  The tile evaluator: for a guess and the target word, one tile per guess
  letter, coloured `correct`, `present` or `absent` with the duplicate-letter
  rule of the game.

  `Tiles` states the colouring in closed form; `EvaluateGuess` is the
  source's two-pass algorithm over a mutable copy of the target, and is
  proved to compute exactly `Tiles`.
 */
module Evaluator {
  import opened Types

  /** The placeholder written over a target letter that has been used up. */
  const Consumed: char := '_'

  /** Position `i` of the guess holds the target's letter at `i`. */
  predicate Matches(guess: string, target: string, i: int) {
    0 <= i < |guess| && i < |target| && guess[i] == target[i]
  }

  /** The target after the exact-match pass: every exactly matched letter is used up. */
  function AfterExactPass(guess: string, target: string): (rest: string)
    ensures |rest| == |target|
  {
    seq(|target|, k requires 0 <= k < |target| => if Matches(guess, target, k) then Consumed else target[k])
  }

  /** How many of the first `n` guess positions hold `c` without being exact matches. */
  function PendingBefore(guess: string, target: string, n: nat, c: char): nat
    requires n <= |guess|
  {
    if n == 0 then 0
    else PendingBefore(guess, target, n - 1, c)
         + (if guess[n - 1] == c && !Matches(guess, target, n - 1) then 1 else 0)
  }

  /** How many of the first `n` positions are exact matches of the letter `c`. */
  function ExactBefore(guess: string, target: string, n: nat, c: char): nat {
    if n == 0 then 0
    else ExactBefore(guess, target, n - 1, c)
         + (if Matches(guess, target, n - 1) && guess[n - 1] == c then 1 else 0)
  }

  /**
    The colour of position `i`: correct on an exact match; otherwise present
    exactly when fewer earlier non-matching positions hold the same letter
    than the target has copies of it left after the exact-match pass.
   */
  function StatusAt(guess: string, target: string, i: nat): TileStatus
    requires i < |guess|
  {
    if Matches(guess, target, i) then Correct
    else if PendingBefore(guess, target, i, guess[i]) < multiset(AfterExactPass(guess, target))[guess[i]] then Present
    else Absent
  }

  /** The row of tiles for `guess` against `target`. */
  function Tiles(guess: string, target: string): (row: seq<Tile>)
    ensures |row| == |guess|
    ensures forall i :: 0 <= i < |row| ==> row[i].letter == guess[i]
    ensures forall i :: 0 <= i < |row| ==> (row[i].status == Correct <==> i < |target| && guess[i] == target[i])
    ensures forall i :: 0 <= i < |row| ==> row[i].status in {Correct, Present, Absent}
  {
    seq(|guess|, i requires 0 <= i < |guess| => Tile(guess[i], StatusAt(guess, target, i)))
  }

  /** `Array.prototype.indexOf` on characters. */
  function IndexOfChar(s: string, c: char): (k: int)
    ensures k == -1 <==> c !in s
    ensures k != -1 ==> 0 <= k < |s| && s[k] == c && c !in s[..k]
  {
    if |s| == 0 then -1
    else if s[0] == c then 0
    else
      var k := IndexOfChar(s[1..], c);
      assert s == [s[0]] + s[1..];
      if k == -1 then -1
      else
        assert s[..k + 1] == [s[0]] + s[1..][..k];
        k + 1
  }

  /**
    The source's two passes: mark exact matches and use up their target
    letters; then colour every remaining position `present` if an unused
    copy of its letter is left (using up the leftmost one) and `absent`
    otherwise.
   */
  method EvaluateGuess(guess: string, target: string) returns (row: seq<Tile>)
    requires |guess| == WordLength
    requires Consumed !in guess
    ensures row == Tiles(guess, target)
  {
    var marked, rest := ExactPass(guess, target);
    row := ElsewherePass(guess, target, marked, rest);
  }

  /** Pass 1: exact matches become `correct` and use up their target letter; the rest stay `pending`. */
  method ExactPass(guess: string, target: string) returns (row: seq<Tile>, rest: string)
    requires |guess| == WordLength
    ensures |row| == WordLength
    ensures forall j :: 0 <= j < WordLength ==>
      row[j] == Tile(guess[j], if Matches(guess, target, j) then Correct else Pending)
    ensures rest == AfterExactPass(guess, target)
  {
    rest := target;
    row := [];
    var i := 0;
    while i < WordLength
      invariant 0 <= i <= WordLength
      invariant |row| == i && |rest| == |target|
      invariant forall j :: 0 <= j < i ==>
        row[j] == Tile(guess[j], if Matches(guess, target, j) then Correct else Pending)
      invariant forall k :: 0 <= k < |target| ==>
        rest[k] == if k < i && Matches(guess, target, k) then Consumed else target[k]
    {
      if i < |target| && guess[i] == target[i] {
        row := row + [Tile(guess[i], Correct)];
        rest := rest[i := Consumed];
      } else {
        row := row + [Tile(guess[i], Pending)];
      }
      i := i + 1;
    }
  }

  /** What is left of letter `c` in the target copy once the first `n` positions are coloured. */
  function LeftAt(guess: string, target: string, n: nat, c: char): nat
    requires n <= |guess|
  {
    var left := multiset(AfterExactPass(guess, target))[c];
    var pending := PendingBefore(guess, target, n, c);
    if pending < left then left - pending else 0
  }

  /** Pass 2: each `pending` tile takes the leftmost unused copy of its letter, or turns `absent`. */
  method ElsewherePass(guess: string, target: string, marked: seq<Tile>, rest0: string) returns (row: seq<Tile>)
    requires |guess| == WordLength && |marked| == WordLength
    requires Consumed !in guess
    requires forall j :: 0 <= j < WordLength ==>
      marked[j] == Tile(guess[j], if Matches(guess, target, j) then Correct else Pending)
    requires rest0 == AfterExactPass(guess, target)
    ensures row == Tiles(guess, target)
  {
    row := marked;
    var rest := rest0;
    var i := 0;
    while i < WordLength
      invariant 0 <= i <= WordLength
      invariant |row| == WordLength
      invariant forall j :: 0 <= j < i ==> row[j] == Tile(guess[j], StatusAt(guess, target, j))
      invariant forall j :: i <= j < WordLength ==> row[j] == marked[j]
      invariant forall c :: c != Consumed ==> multiset(rest)[c] == LeftAt(guess, target, i, c)
    {
      row, rest := ColourOne(guess, target, marked, i, row, rest);
      i := i + 1;
    }
  }

  /** One iteration of pass 2: colours position `i` and keeps the letter counts in step. */
  method ColourOne(guess: string, target: string, marked: seq<Tile>, i: nat, row0: seq<Tile>, rest0: string)
    returns (row: seq<Tile>, rest: string)
    requires |guess| == WordLength && |marked| == WordLength && i < WordLength
    requires Consumed !in guess
    requires forall j :: 0 <= j < WordLength ==>
      marked[j] == Tile(guess[j], if Matches(guess, target, j) then Correct else Pending)
    requires |row0| == WordLength
    requires forall j :: 0 <= j < i ==> row0[j] == Tile(guess[j], StatusAt(guess, target, j))
    requires forall j :: i <= j < WordLength ==> row0[j] == marked[j]
    requires forall c :: c != Consumed ==> multiset(rest0)[c] == LeftAt(guess, target, i, c)
    ensures |row| == WordLength
    ensures forall j :: 0 <= j < i + 1 ==> row[j] == Tile(guess[j], StatusAt(guess, target, j))
    ensures forall j :: i + 1 <= j < WordLength ==> row[j] == marked[j]
    ensures forall c :: c != Consumed ==> multiset(rest)[c] == LeftAt(guess, target, i + 1, c)
  {
    LeftAtStep(guess, target, i);
    row, rest := row0, rest0;
    if row0[i].status == Pending {
      var k := IndexOfChar(rest0, guess[i]);
      if k != -1 {
        UseUpOne(rest0, k);
        row := row0[i := Tile(guess[i], Present)];
        rest := rest0[k := Consumed];
      } else {
        assert multiset(rest0)[guess[i]] == 0;
        row := row0[i := Tile(guess[i], Absent)];
      }
    }
  }

  /** How colouring position `i` changes what is left, and which colour it gets. */
  lemma LeftAtStep(guess: string, target: string, i: nat)
    requires i < |guess|
    ensures Matches(guess, target, i) ==> StatusAt(guess, target, i) == Correct
    ensures !Matches(guess, target, i) ==>
      (StatusAt(guess, target, i) == Present <==> LeftAt(guess, target, i, guess[i]) > 0)
    ensures !Matches(guess, target, i) ==> StatusAt(guess, target, i) != Correct
    ensures forall c :: c != guess[i] || Matches(guess, target, i) ==>
      LeftAt(guess, target, i + 1, c) == LeftAt(guess, target, i, c)
    ensures !Matches(guess, target, i) ==>
      LeftAt(guess, target, i + 1, guess[i]) == if LeftAt(guess, target, i, guess[i]) > 0 then LeftAt(guess, target, i, guess[i]) - 1 else 0
  {
  }

  /** Using up the copy at `k` lowers that letter's count by one and no other letter's. */
  lemma UseUpOne(rest: string, k: nat)
    requires k < |rest| && rest[k] != Consumed
    ensures forall c :: c != Consumed ==>
      multiset(rest[k := Consumed])[c] == multiset(rest)[c] - (if c == rest[k] then 1 else 0)
  {
    assert rest == rest[..k] + [rest[k]] + rest[k + 1..];
    assert rest[k := Consumed] == rest[..k] + [Consumed] + rest[k + 1..];
  }

  /** The letters of the tiles that are not `absent`, in row order. */
  function Hits(row: seq<Tile>): string {
    if |row| == 0 then []
    else Hits(row[..|row| - 1])
         + (if row[|row| - 1].status in {Correct, Present} then [row[|row| - 1].letter] else [])
  }

  lemma {:induction false} GuessSplits(guess: string, target: string, n: nat, c: char)
    requires n <= |guess|
    ensures multiset(guess[..n])[c] == ExactBefore(guess, target, n, c) + PendingBefore(guess, target, n, c)
  {
    if n > 0 {
      GuessSplits(guess, target, n - 1, c);
      assert guess[..n] == guess[..n - 1] + [guess[n - 1]];
    }
  }

  lemma {:induction false} TargetSplits(guess: string, target: string, k: nat, c: char)
    requires k <= |target|
    requires c != Consumed
    ensures multiset(AfterExactPass(guess, target)[..k])[c] + ExactBefore(guess, target, k, c)
            == multiset(target[..k])[c]
  {
    if k > 0 {
      TargetSplits(guess, target, k - 1, c);
      var rest := AfterExactPass(guess, target);
      assert rest[..k] == rest[..k - 1] + [rest[k - 1]];
      assert target[..k] == target[..k - 1] + [target[k - 1]];
      assert multiset(rest[..k]) == multiset(rest[..k - 1]) + multiset{rest[k - 1]};
      assert multiset(target[..k]) == multiset(target[..k - 1]) + multiset{target[k - 1]};
      assert rest[k - 1] == if Matches(guess, target, k - 1) then Consumed else target[k - 1];
    }
  }

  lemma {:induction false} ExactSettles(guess: string, target: string, n: nat, c: char)
    requires n >= |guess| || n >= |target|
    ensures ExactBefore(guess, target, n, c)
            == ExactBefore(guess, target, if |guess| <= |target| then |guess| else |target|, c)
  {
    var m := if |guess| <= |target| then |guess| else |target|;
    if n > m {
      ExactSettles(guess, target, n - 1, c);
    }
  }

  /** After the exact-match pass, a letter has its target count minus its exact matches left. */
  lemma LeftAfterExactPass(guess: string, target: string, c: char)
    requires c != Consumed
    ensures multiset(AfterExactPass(guess, target))[c] + ExactBefore(guess, target, |guess|, c)
            == multiset(target)[c]
  {
    TargetSplits(guess, target, |target|, c);
    assert AfterExactPass(guess, target)[..|target|] == AfterExactPass(guess, target);
    assert target[..|target|] == target;
    ExactSettles(guess, target, |target|, c);
    ExactSettles(guess, target, |guess|, c);
  }

  lemma {:induction false} HitsCount(guess: string, target: string, n: nat, c: char)
    requires n <= |guess|
    ensures var left := multiset(AfterExactPass(guess, target))[c];
            var pending := PendingBefore(guess, target, n, c);
            multiset(Hits(Tiles(guess, target)[..n]))[c]
            == ExactBefore(guess, target, n, c) + (if pending < left then pending else left)
  {
    if n > 0 {
      HitsCount(guess, target, n - 1, c);
      HitsStep(guess, target, n, c);
      var e0, e1 := ExactBefore(guess, target, n - 1, c), ExactBefore(guess, target, n, c);
      var p0, p1 := PendingBefore(guess, target, n - 1, c), PendingBefore(guess, target, n, c);
      if guess[n - 1] != c {
        assert e1 == e0 && p1 == p0;
      } else if Matches(guess, target, n - 1) {
        assert e1 == e0 + 1 && p1 == p0;
      } else {
        assert e1 == e0 && p1 == p0 + 1;
      }
    }
  }

  /** The `n`-th tile adds its letter to the hits exactly when it is not `absent`. */
  lemma HitsStep(guess: string, target: string, n: nat, c: char)
    requires 0 < n <= |guess|
    ensures multiset(Hits(Tiles(guess, target)[..n]))[c]
            == multiset(Hits(Tiles(guess, target)[..n - 1]))[c]
               + (if guess[n - 1] == c && StatusAt(guess, target, n - 1) != Absent then 1 else 0)
  {
    var row := Tiles(guess, target);
    var t := row[n - 1];
    assert row[..n][..n - 1] == row[..n - 1];
    var added := if t.status in {Correct, Present} then [t.letter] else [];
    assert Hits(row[..n]) == Hits(row[..n - 1]) + added;
    assert multiset(Hits(row[..n]))[c] == multiset(Hits(row[..n - 1]))[c] + multiset(added)[c];
  }

  /**
    Duplicate letters: for every letter, the `correct` and `present` tiles
    together number the smaller of its counts in the guess and in the target,
    so never more than the target holds.
   */
  lemma HitsAreCommonLetters(guess: string, target: string)
    requires Consumed !in guess
    ensures multiset(Hits(Tiles(guess, target))) == multiset(guess) * multiset(target)
  {
    var row := Tiles(guess, target);
    assert row[..|guess|] == row;
    assert guess[..|guess|] == guess;
    forall c ensures multiset(Hits(row))[c] == (multiset(guess) * multiset(target))[c] {
      HitsCount(guess, target, |guess|, c);
      GuessSplits(guess, target, |guess|, c);
      if c != Consumed {
        LeftAfterExactPass(guess, target, c);
      } else {
        assert multiset(guess)[c] == 0;
      }
    }
  }

  lemma {:induction false} PendingGrows(guess: string, target: string, i: nat, n: nat, c: char)
    requires i <= n <= |guess|
    ensures PendingBefore(guess, target, i, c) <= PendingBefore(guess, target, n, c)
    ensures i < n && guess[i] == c && !Matches(guess, target, i)
            ==> PendingBefore(guess, target, i, c) < PendingBefore(guess, target, n, c)
  {
    if i < n {
      PendingGrows(guess, target, i, n - 1, c);
    }
  }

  /**
    A tile is `absent` only when no copy of its letter is left: every copy of
    that letter in the target is already accounted for by the row's
    `correct` and `present` tiles.
   */
  lemma AbsentMeansExhausted(guess: string, target: string, i: nat)
    requires Consumed !in guess
    requires i < |guess| && Tiles(guess, target)[i].status == Absent
    ensures multiset(Hits(Tiles(guess, target)))[guess[i]] == multiset(target)[guess[i]]
  {
    var c := guess[i];
    HitsAreCommonLetters(guess, target);
    HitsCount(guess, target, |guess|, c);
    GuessSplits(guess, target, |guess|, c);
    LeftAfterExactPass(guess, target, c);
    PendingGrows(guess, target, i, |guess|, c);
    assert Tiles(guess, target)[..|guess|] == Tiles(guess, target);
  }

  /** `present` goes to the leftmost non-matching copies of a letter. */
  lemma PresentIsLeftmost(guess: string, target: string, i: nat, j: nat)
    requires j < i < |guess| && guess[j] == guess[i] && !Matches(guess, target, j)
    requires Tiles(guess, target)[i].status == Present
    ensures Tiles(guess, target)[j].status == Present
  {
    PendingGrows(guess, target, j, i, guess[i]);
  }

  /** Three `L`s guessed against a target with two: the third `L` is absent. */
  lemma DuplicateLetterExample()
    ensures Tiles("LOLLY", "ALLOW")
         == [Tile('L', Present), Tile('O', Present), Tile('L', Correct), Tile('L', Absent), Tile('Y', Absent)]
  {
    LollyFirstTiles();
    LollyLastTiles();
  }

  /** After the exact-match pass on `ALLOW`, one `L`, one `O` and no `Y` are left. */
  lemma LollyLeftOver()
    ensures var rest := AfterExactPass("LOLLY", "ALLOW");
      multiset(rest)['L'] == 1 && multiset(rest)['O'] == 1 && multiset(rest)['Y'] == 0
  {
    LollyExactPass();
    assert multiset("AL_OW") == multiset{'A', 'L', '_', 'O', 'W'};
  }

  lemma LollyExactPass()
    ensures AfterExactPass("LOLLY", "ALLOW") == "AL_OW"
  {
    var rest := AfterExactPass("LOLLY", "ALLOW");
    assert rest[0] == 'A' && rest[1] == 'L' && rest[2] == '_' && rest[3] == 'O' && rest[4] == 'W';
  }

  lemma LollyFirstTiles()
    ensures StatusAt("LOLLY", "ALLOW", 0) == Present
    ensures StatusAt("LOLLY", "ALLOW", 1) == Present
    ensures StatusAt("LOLLY", "ALLOW", 2) == Correct
  {
    LollyLeftOver();
  }

  lemma LollyLastTiles()
    ensures StatusAt("LOLLY", "ALLOW", 3) == Absent
    ensures StatusAt("LOLLY", "ALLOW", 4) == Absent
  {
    LollyLeftOver();
    assert PendingBefore("LOLLY", "ALLOW", 3, 'L') == 1;
  }

  /** A letter used up by its exact match is not also `present` elsewhere. */
  lemma CraneExample()
    ensures Tiles("GRAPE", "CRANE")
         == [Tile('G', Absent), Tile('R', Correct), Tile('A', Correct), Tile('P', Absent), Tile('E', Correct)]
  {
    CraneLeftOver();
  }

  /** After the exact-match pass on `CRANE`, no `G` and no `P` are left. */
  lemma CraneLeftOver()
    ensures var rest := AfterExactPass("GRAPE", "CRANE");
      multiset(rest)['G'] == 0 && multiset(rest)['P'] == 0
  {
    CraneExactPass();
    assert multiset("C__N_") == multiset{'C', '_', '_', 'N', '_'};
  }

  lemma CraneExactPass()
    ensures AfterExactPass("GRAPE", "CRANE") == "C__N_"
  {
    var rest := AfterExactPass("GRAPE", "CRANE");
    assert rest[0] == 'C' && rest[1] == '_' && rest[2] == '_' && rest[3] == 'N' && rest[4] == '_';
  }
}
