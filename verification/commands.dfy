/**
  How a chat comment is read: trimmed and lower-cased, it is one of the
  exact commands `!next`, `!skip`, `!rank`, or else its first
  space-separated word, upper-cased, is a guess.
 */
module Commands {
  import opened Types
  import opened Text

  datatype Command = NextWord | Skip | Rank | GuessWord(word: string)

  /**
    The command a trimmed, lower-cased comment stands for: one of the three
    commands when it is exactly that command, otherwise a guess of its first
    space-separated word, upper-cased.
   */
  function Dispatch(n: string): (c: Command)
    ensures c == NextWord <==> n == "!next"
    ensures c == Skip <==> n == "!skip"
    ensures c == Rank <==> n == "!rank"
    ensures c.GuessWord? ==> |c.word| <= |n| && c.word == Upper(n[..|c.word|])
    ensures c.GuessWord? ==> ' ' !in c.word && (|c.word| < |n| ==> n[|c.word|] == ' ')
  {
    if n == "!next" then NextWord
    else if n == "!skip" then Skip
    else if n == "!rank" then Rank
    else
      var first := Before(n, ' ');
      var w := Upper(first);
      assert ' ' !in w by {
        forall i | 0 <= i < |w| ensures w[i] != ' ' {
          assert first[i] != ' ';
        }
      }
      assert first == n[..|first|];
      GuessWord(w)
  }

  /** `handleChat`'s reading of a comment: `comment.trim().toLowerCase()`, then dispatch. */
  function Parse(comment: string): (c: Command)
    ensures c.GuessWord? ==> ' ' !in c.word && forall i :: 0 <= i < |c.word| ==> !IsAsciiLower(c.word[i])
    ensures c.GuessWord? ==> |c.word| <= |comment|
  {
    LengthAfterTrim(comment);
    Dispatch(Lower(Trim(comment)))
  }

  lemma LengthAfterTrim(s: string)
    ensures |Trim(s)| <= |s|
  {
    var i :| SliceWithin(s, Trim(s), i);
  }

  /** `!skip` is honoured only for the moderators, matched by their exact `uniqueId`. */
  predicate IsModerator(uniqueId: string) {
    uniqueId in Moderators
  }

  /** A single word of letters, with any whitespace on either side, is guessed upper-cased. */
  lemma PlainWordIsGuessed(left: string, w: string, right: string)
    requires |w| > 0 && forall i :: 0 <= i < |w| ==> IsAsciiUpper(w[i]) || IsAsciiLower(w[i])
    requires forall i :: 0 <= i < |left| ==> IsJsWhitespace(left[i])
    requires forall i :: 0 <= i < |right| ==> IsJsWhitespace(right[i])
    ensures Parse(left + w + right) == GuessWord(Upper(w))
  {
    TrimDropsPadding(left, w, right);
    LowerKeepsLetters(w);
    LetterWordDispatch(Lower(w));
    UpperOfLowered(w);
  }

  /** Whitespace around a text that starts and ends with something else is what `trim` removes. */
  lemma TrimDropsPadding(left: string, core: string, right: string)
    requires |core| > 0 && !IsJsWhitespace(core[0]) && !IsJsWhitespace(core[|core| - 1])
    requires forall i :: 0 <= i < |left| ==> IsJsWhitespace(left[i])
    requires forall i :: 0 <= i < |right| ==> IsJsWhitespace(right[i])
    ensures Trim(left + core + right) == core
  {
    var s := left + core + right;
    assert s[|left|..|left| + |core|] == core;
    forall k | 0 <= k < |left| ensures IsJsWhitespace(s[k]) {
      assert s[k] == left[k];
    }
    forall k | |left| + |core| <= k < |s| ensures IsJsWhitespace(s[k]) {
      assert s[k] == right[k - |left| - |core|];
    }
    assert SliceWithin(s, core, |left|);
    TrimIsUnique(s, core, |left|);
  }

  lemma LowerKeepsLetters(w: string)
    requires forall i :: 0 <= i < |w| ==> IsAsciiUpper(w[i]) || IsAsciiLower(w[i])
    ensures forall i :: 0 <= i < |Lower(w)| ==> IsAsciiUpper(Lower(w)[i]) || IsAsciiLower(Lower(w)[i])
  {
    forall i | 0 <= i < |Lower(w)| ensures IsAsciiLower(Lower(w)[i]) {
      assert Lower(w)[i] == LowerChar(w[i]);
    }
  }

  lemma LetterWordDispatch(n: string)
    requires |n| > 0 && forall i :: 0 <= i < |n| ==> IsAsciiUpper(n[i]) || IsAsciiLower(n[i])
    ensures Dispatch(n) == GuessWord(Upper(n))
  {
    assert n[0] != '!';
    var c := Dispatch(n);
    assert c.GuessWord?;
    assert ' ' !in n;
    assert |c.word| == |n|;
    assert n[..|n|] == n;
  }

  lemma UpperOfLowered(w: string)
    ensures Upper(Lower(w)) == Upper(w)
  {
  }

  /**
    The commands must be the whole comment: a comment whose trimmed text has
    more than one space-separated word is a guess of its first word,
    upper-cased, whatever its case and padding.
   */
  lemma TrailingWordsMakeAGuess(left: string, first: string, rest: string, right: string)
    requires |first| > 0 && !IsJsWhitespace(first[0]) && forall i :: 0 <= i < |first| ==> first[i] != ' '
    requires |rest| > 0 && !IsJsWhitespace(rest[|rest| - 1])
    requires forall i :: 0 <= i < |left| ==> IsJsWhitespace(left[i])
    requires forall i :: 0 <= i < |right| ==> IsJsWhitespace(right[i])
    ensures Parse(left + first + " " + rest + right) == GuessWord(Upper(first))
  {
    var core := first + " " + rest;
    assert core[0] == first[0] && core[|core| - 1] == rest[|rest| - 1];
    assert left + first + " " + rest + right == left + core + right;
    TrimDropsPadding(left, core, right);
    LoweredFirstWord(first, rest);
    FirstWordDispatch(Lower(core), |first|);
    UpperOfLowered(first);
  }

  /** Lower-casing keeps the first word and the space after it in place. */
  lemma LoweredFirstWord(first: string, rest: string)
    requires forall i :: 0 <= i < |first| ==> first[i] != ' '
    ensures var n := Lower(first + " " + rest);
      n[|first|] == ' ' && n[..|first|] == Lower(first) && ' ' !in n[..|first|]
  {
    var core := first + " " + rest;
    var n := Lower(core);
    assert core[|first|] == ' ';
    assert n[..|first|] == Lower(first) by {
      forall i | 0 <= i < |first| ensures n[i] == Lower(first)[i] {
        assert core[i] == first[i];
      }
    }
    forall i | 0 <= i < |first| ensures n[i] != ' ' {
      assert core[i] == first[i];
    }
  }

  /** A comment with a space after its first `k` characters, none before, is a guess of those characters. */
  lemma FirstWordDispatch(n: string, k: nat)
    requires k < |n| && n[k] == ' ' && ' ' !in n[..k]
    ensures Dispatch(n) == GuessWord(Upper(n[..k]))
  {
    assert ' ' in n;
    assert ' ' !in "!next" && ' ' !in "!skip" && ' ' !in "!rank";
    BeforeIsUnique(n, ' ', k);
  }

  /** `!next now` is a guess of `!NEXT`. */
  lemma CommandWithTrailingWordIsAGuess()
    ensures Parse("!next now") == GuessWord("!NEXT")
  {
    TrailingWordsMakeAGuess("", "!next", "now", "");
    assert "" + "!next" + " " + "now" + "" == "!next now";
    assert Upper("!next") == "!NEXT";
  }

  /** Case and surrounding whitespace do not matter: ` !SKIP\n` is `!skip`. */
  lemma CommandsIgnoreCaseAndPadding()
    ensures Parse(" !SKIP\n") == Skip
  {
    var s := " !SKIP\n";
    assert s[1..6] == "!SKIP";
    assert SliceWithin(s, "!SKIP", 1);
    TrimIsUnique(s, "!SKIP", 1);
    assert Lower("!SKIP") == "!skip";
  }
}
