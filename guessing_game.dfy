/** The magic-number guessing game: read the magic number, then read
    guesses and answer each with a hint until a guess hits the number. */
module GuessingGame {
  import opened Text

  /** The three answers to a guess. */
  datatype Reply = Higher | Lower | Correct

  /** The comparison of one guess with the magic number. */
  function Respond(guess: int32, magic: int32): (r: Reply)
    ensures r == Higher <==> guess < magic
    ensures r == Lower <==> guess > magic
    ensures r == Correct <==> guess == magic
  {
    if guess < magic then Higher
    else if guess > magic then Lower
    else Correct
  }

  /** The line printed for each answer. */
  function Message(r: Reply): string
  {
    match r
    case Higher => "Higher"
    case Lower => "Lower"
    case Correct => "You guessed it!"
  }

  /** Every guess prints exactly one of the three lines, and the line tells
      the answer apart: different answers print different lines. */
  lemma MessagesTellApart(r: Reply, s: Reply)
    ensures Message(r) in ["Higher", "Lower", "You guessed it!"]
    ensures Message(r) == Message(s) <==> r == s
  {
    if r != s {
      assert Message(r)[0] != Message(s)[0] || |Message(r)| != |Message(s)|;
    }
  }

  /** int.Parse of a console line: a missing line (end of input) or text
      that is not a number in range throws, which ends the program. */
  function ReadInt(line: Option<string>): (r: Option<int32>)
    ensures r.Some? <==> line.Some? && ParseInt(line.value).Parsed?
    ensures r.Some? ==> ParseInt(line.value) == Parsed(r.value)
  {
    if line.None? then None
    else match ParseInt(line.value)
      case Parsed(n) => Some(n)
      case _ => None
  }

  /** How a run ends: the loop condition turned false, an int.Parse threw,
      or the modelled console lines ran out (real console input never does:
      it then yields null, and int.Parse throws). */
  datatype Ending = LoopExit | Crash | OutOfInput

  /** What int.Parse makes of each console line, in order. */
  function Guesses(lines: seq<Option<string>>): (guesses: seq<Option<int32>>)
    ensures |guesses| == |lines|
    ensures forall k :: 0 <= k < |lines| ==> guesses[k] == ReadInt(lines[k])
  {
    seq(|lines|, k requires 0 <= k < |lines| => ReadInt(lines[k]))
  }

  /** Program.Main: the magic-number line and the guess lines, in order.
      `replies` are the answers printed, one per guess read; the guess on
      line k is Guesses(guessLines)[k]. int.Parse is a pure function of
      the line, so the lines are parsed first and the loop reads the
      results in order. */
  method Play(magicLine: Option<string>, guessLines: seq<Option<string>>) returns (ending: Ending, replies: seq<Reply>)
    ensures ReadInt(magicLine).None? ==> ending == Crash && replies == []
    ensures ReadInt(magicLine).Some? ==> Plays(ReadInt(magicLine).value, Guesses(guessLines), ending, replies)
  {
    var magicNumber := ReadInt(magicLine);
    if magicNumber.None? {
      return Crash, [];
    }
    ending, replies := GuessLoop(magicNumber.value, Guesses(guessLines));
  }

  /** What a run that read `magic` may do with the guesses read after it:
      one reply per guess read, each the comparison of that guess with the
      magic number; no reply before the last is Correct; the loop ends
      exactly when the last reply is Correct, or at once when the magic
      number is -1 (the starting guess); a crash happens on a line
      int.Parse rejects. */
  ghost predicate Plays(magic: int32, guesses: seq<Option<int32>>, ending: Ending, replies: seq<Reply>)
  {
    && |replies| <= |guesses|
    && (forall k :: 0 <= k < |replies| ==> guesses[k].Some? && replies[k] == Respond(guesses[k].value, magic))
    && (forall k :: 0 <= k < |replies| - 1 ==> replies[k] != Correct)
    && (ending == LoopExit <==> (magic == -1 && replies == []) || (|replies| > 0 && replies[|replies| - 1] == Correct))
    && (magic == -1 ==> ending == LoopExit && replies == [])
    && (ending == Crash ==> |replies| < |guesses| && guesses[|replies|].None?)
    && (ending == OutOfInput ==> |replies| == |guesses| && Correct !in replies)
  }

  /** Plays leaves no choice: the magic number and the guesses decide the
      ending and every reply. */
  lemma PlaysDeterministic(magic: int32, guesses: seq<Option<int32>>, e1: Ending, r1: seq<Reply>, e2: Ending, r2: seq<Reply>)
    requires Plays(magic, guesses, e1, r1) && Plays(magic, guesses, e2, r2)
    ensures e1 == e2 && r1 == r2
  {
    NoShorterPlay(magic, guesses, e1, r1, e2, r2);
    NoShorterPlay(magic, guesses, e2, r2, e1, r1);
    assert r1 == r2;
  }

  /** A run does not stop before another run over the same input does. */
  lemma NoShorterPlay(magic: int32, guesses: seq<Option<int32>>, e1: Ending, r1: seq<Reply>, e2: Ending, r2: seq<Reply>)
    requires Plays(magic, guesses, e1, r1) && Plays(magic, guesses, e2, r2)
    ensures |r2| <= |r1|
  {
    var n := |r1|;
    if e1 == LoopExit && n > 0 {
      SameReply(magic, guesses, e1, r1, e2, r2, n - 1);
    }
  }

  /** Two runs over the same input give the same reply to every guess both
      of them read. */
  lemma SameReply(magic: int32, guesses: seq<Option<int32>>, e1: Ending, r1: seq<Reply>, e2: Ending, r2: seq<Reply>, k: nat)
    requires Plays(magic, guesses, e1, r1) && Plays(magic, guesses, e2, r2)
    ensures k < |r1| && k < |r2| ==> r1[k] == r2[k]
  {
  }

  /** The `while (guess != magicNumber)` loop over the parsed guesses. */
  method GuessLoop(magic: int32, guesses: seq<Option<int32>>) returns (ending: Ending, replies: seq<Reply>)
    ensures Plays(magic, guesses, ending, replies)
  {
    replies := [];
    var guess: int32 := -1;
    var i := 0;
    while guess != magic
      invariant 0 <= i <= |guesses| && |replies| == i
      invariant i == 0 ==> guess == -1
      invariant i > 0 ==> magic != -1 && replies[i - 1] == Respond(guess, magic)
      invariant forall k :: 0 <= k < i ==> guesses[k].Some? && replies[k] == Respond(guesses[k].value, magic)
      invariant forall k :: 0 <= k < i - 1 ==> replies[k] != Correct
      decreases |guesses| - i
    {
      if i == |guesses| {
        return OutOfInput, replies;
      }
      var next := guesses[i];
      if next.None? {
        return Crash, replies;
      }
      guess := next.value;
      replies := replies + [Respond(guess, magic)];
      i := i + 1;
    }
    ending := LoopExit;
  }
}
