/** The scripture memoriser's main loop: load the library, pick a passage,
    then, one console line at a time, hide three random words, show one
    hidden word again, or quit, until every word is hidden. */
module Memorizer {
  import opened Text
  import opened Scriptures
  import opened ScriptureLibraries

  /** What one console line asks for. */
  datatype Command = QuitCommand | RevealCommand | HideCommand

  /** "quit" and "reveal" are matched exactly; every other line, the empty
      line and the end of input (None) included, hides words. */
  function Classify(input: Option<string>): (c: Command)
    ensures c == QuitCommand <==> input == Some("quit")
    ensures c == RevealCommand <==> input == Some("reveal")
    ensures c == HideCommand <==> input != Some("quit") && input != Some("reveal")
  {
    if input == Some("quit") then QuitCommand
    else if input == Some("reveal") then RevealCommand
    else HideCommand
  }

  /** Why a session ended. Real console input never runs out (it yields
      None forever), so InputExhausted marks the end of the modelled
      input rather than a branch of the program. */
  datatype Ending = QuitChosen | AllWordsHidden | InputExhausted

  /** What one pass did: the positions it hid, and the position it showed. */
  datatype StepResult = StepResult(picked: seq<nat>, revealed: Option<nat>)

  /** The effect of one pass on the hidden flags: "quit" changes nothing;
      "reveal" shows one hidden word, or nothing when none is hidden; any
      other line hides three positions, with repeats allowed. */
  ghost predicate StepEffect(before: seq<bool>, after: seq<bool>, input: Option<string>, r: StepResult)
  {
    match Classify(input)
    case QuitCommand => after == before && r == StepResult([], None)
    case RevealCommand =>
      && r.picked == []
      && (r.revealed.None? <==> NoneHidden(before))
      && (r.revealed.None? ==> after == before)
      && (r.revealed.Some? ==> r.revealed.value < |before| && before[r.revealed.value]
                               && after == before[r.revealed.value := false])
    case HideCommand =>
      && r.revealed == None && |r.picked| == 3
      && (forall i :: 0 <= i < |r.picked| ==> r.picked[i] < |before|)
      && after == HideAt(before, r.picked)
  }

  /** A run's flag history: each consumed line took the flags from one entry
      of `trace` to the next as StepEffect describes. */
  ghost predicate Traced(trace: seq<seq<bool>>, steps: seq<StepResult>, inputs: seq<Option<string>>)
  {
    && |trace| == |steps| + 1 && |steps| <= |inputs|
    && forall j {:trigger steps[j]} :: 0 <= j < |steps| ==> StepEffect(trace[j], trace[j + 1], inputs[j], steps[j])
  }

  lemma TraceExtends(trace: seq<seq<bool>>, steps: seq<StepResult>, inputs: seq<Option<string>>,
                     after: seq<bool>, r: StepResult)
    requires Traced(trace, steps, inputs) && |steps| < |inputs|
    requires StepEffect(trace[|steps|], after, inputs[|steps|], r)
    ensures Traced(trace + [after], steps + [r], inputs)
  {
    var t, u := trace + [after], steps + [r];
    forall j | 0 <= j < |u|
      ensures StepEffect(t[j], t[j + 1], inputs[j], u[j])
    {
      if j < |steps| {
        assert t[j] == trace[j] && t[j + 1] == trace[j + 1] && u[j] == steps[j];
      }
    }
  }

  lemma UnfinishedExtends(trace: seq<seq<bool>>, after: seq<bool>)
    requires forall j :: 1 <= j < |trace| ==> !AllHidden(trace[j])
    requires !AllHidden(after)
    ensures forall j :: 1 <= j < |trace| + 1 ==> !AllHidden((trace + [after])[j])
  {
    forall j | 1 <= j < |trace| + 1
      ensures !AllHidden((trace + [after])[j])
    {
      if j < |trace| {
        assert (trace + [after])[j] == trace[j];
      }
    }
  }

  /** One pass of the loop body before the completion check: acts on the
      command and returns the positions it hid or showed. */
  method Step(s: Scripture, input: Option<string>) returns (picked: seq<nat>, revealed: Option<nat>)
    requires s.Valid()
    modifies s.words
    ensures Classify(input) == QuitCommand ==> s.Flags() == old(s.Flags()) && picked == [] && revealed == None
    ensures Classify(input) == RevealCommand ==>
      && picked == []
      && (revealed.None? <==> NoneHidden(old(s.Flags())))
      && (revealed.None? ==> s.Flags() == old(s.Flags()))
      && (revealed.Some? ==> revealed.value < |s.words| && old(s.Flags())[revealed.value]
                             && s.Flags() == old(s.Flags())[revealed.value := false])
    ensures Classify(input) == HideCommand ==>
      && revealed == None && |picked| == 3
      && (forall i :: 0 <= i < |picked| ==> picked[i] < |s.words|)
      && s.Flags() == HideAt(old(s.Flags()), picked)
    ensures StepEffect(old(s.Flags()), s.Flags(), input, StepResult(picked, revealed))
  {
    picked, revealed := [], None;
    match Classify(input)
    case QuitCommand =>
    case RevealCommand =>
      revealed := s.RevealOneWord();
    case HideCommand =>
      picked := s.HideRandomWords(3);
  }

  /** One whole pass of the loop: a "quit" line stops the session at once;
      any other line takes a Step, and the session stops when that left
      every word hidden. */
  method Pass(s: Scripture, input: Option<string>) returns (stop: Option<Ending>, ghost r: StepResult)
    requires s.Valid()
    modifies s.words
    ensures StepEffect(old(s.Flags()), s.Flags(), input, r)
    ensures stop == Some(QuitChosen) <==> input == Some("quit")
    ensures stop == Some(AllWordsHidden) <==> input != Some("quit") && AllHidden(s.Flags())
    ensures stop != Some(InputExhausted)
  {
    if Classify(input) == QuitCommand {
      return Some(QuitChosen), StepResult([], None);
    }
    var picked, revealed := Step(s, input);
    r := StepResult(picked, revealed);
    AllHiddenIffCount(s.Flags());
    if s.IsCompletelyHidden() {
      return Some(AllWordsHidden), r;
    }
    stop := None;
  }

  /** Runs the loop over the given console lines. Every line before the last
      one consumed was not "quit", and after each of them the passage still
      had a visible word; the session stops at "quit", at the first line
      after which every word is hidden, or when the lines run out. */
  method RunSession(s: Scripture, inputs: seq<Option<string>>)
      returns (ending: Ending, consumed: nat, ghost trace: seq<seq<bool>>, ghost steps: seq<StepResult>)
    requires s.Valid()
    modifies s.words
    ensures consumed <= |inputs|
    ensures |trace| == consumed + 1 && |steps| == consumed
    ensures trace[0] == old(s.Flags()) && trace[consumed] == s.Flags()
    ensures forall j {:trigger steps[j]} :: 0 <= j < consumed ==> StepEffect(trace[j], trace[j + 1], inputs[j], steps[j])
    ensures forall j :: 1 <= j < consumed ==> !AllHidden(trace[j])
    ensures forall j :: 0 <= j < consumed - 1 ==> inputs[j] != Some("quit")
    ensures ending == QuitChosen <==> consumed > 0 && inputs[consumed - 1] == Some("quit")
    ensures ending == AllWordsHidden ==> consumed > 0 && AllHidden(s.Flags())
    ensures ending == InputExhausted ==> consumed == |inputs| && (consumed > 0 ==> !AllHidden(s.Flags()))
    ensures ending == InputExhausted ==> forall j :: 0 <= j < |inputs| ==> inputs[j] != Some("quit")
  {
    consumed := 0;
    trace, steps := [s.Flags()], [];
    while consumed < |inputs|
      invariant consumed <= |inputs|
      invariant |steps| == consumed && Traced(trace, steps, inputs)
      invariant trace[0] == old(s.Flags()) && trace[consumed] == s.Flags()
      invariant forall j :: 1 <= j < |trace| ==> !AllHidden(trace[j])
      invariant forall j :: 0 <= j < consumed ==> inputs[j] != Some("quit")
    {
      var stop, r := Pass(s, inputs[consumed]);
      TraceExtends(trace, steps, inputs, s.Flags(), r);
      if stop.None? {
        UnfinishedExtends(trace, s.Flags());
      }
      trace, steps := trace + [s.Flags()], steps + [r];
      consumed := consumed + 1;
      if stop.Some? {
        return stop.value, consumed, trace, steps;
      }
    }
    ending := InputExhausted;
  }

  /** The whole program run. */
  datatype ProgramOutcome =
    | LoadCrashed                         // an overflowing number escaped the loader
    | NoScripture                         // nothing loaded: a message and exit
    | Played(ending: Ending, consumed: nat)

  /** Program.Main: the library file's lines (None when the file does not
      exist) and the console lines the user types. */
  method RunProgram(file: Option<seq<string>>, inputs: seq<Option<string>>)
      returns (outcome: ProgramOutcome, ghost trace: seq<seq<bool>>, ghost steps: seq<StepResult>)
    ensures outcome == LoadCrashed <==> file.Some? && LoadLines(file.value).Crashed?
    ensures outcome == NoScripture <==> file.None? || (LoadLines(file.value).Loaded? && LoadLines(file.value).entries == [])
    ensures outcome.Played? ==> outcome.consumed <= |inputs|
    ensures outcome.Played? ==> |trace| == outcome.consumed + 1 && |steps| == outcome.consumed
    ensures outcome.Played? ==> forall j :: 0 <= j < outcome.consumed - 1 ==> inputs[j] != Some("quit")
    ensures outcome.Played? && outcome.ending == QuitChosen ==> outcome.consumed > 0 && inputs[outcome.consumed - 1] == Some("quit")
    ensures outcome.Played? && outcome.ending == AllWordsHidden ==>
              outcome.consumed > 0 && inputs[outcome.consumed - 1] != Some("quit") && AllHidden(trace[outcome.consumed])
    ensures outcome.Played? && outcome.ending == InputExhausted ==>
              outcome.consumed == |inputs| && forall j :: 0 <= j < |inputs| ==> inputs[j] != Some("quit")
    ensures outcome.Played? ==> NoneHidden(trace[0])
    ensures outcome.Played? ==> forall j {:trigger steps[j]} :: 0 <= j < outcome.consumed ==>
              StepEffect(trace[j], trace[j + 1], inputs[j], steps[j])
    ensures outcome.Played? ==> forall j :: 1 <= j < outcome.consumed ==> !AllHidden(trace[j])
  {
    trace, steps := [], [];
    var crashed, s := LoadPassage(file);
    if crashed {
      return LoadCrashed, trace, steps;
    }
    if s == null {
      return NoScripture, trace, steps;
    }
    var ending, consumed;
    ending, consumed, trace, steps := RunSession(s, inputs);
    outcome := Played(ending, consumed);
  }

  /** The start of Program.Main: load the library and pick a passage, null
      when nothing was loaded. The passage is one built from a loaded entry,
      with every word shown. */
  method LoadPassage(file: Option<seq<string>>) returns (crashed: bool, s: Scripture?)
    ensures crashed <==> file.Some? && LoadLines(file.value).Crashed?
    ensures !crashed ==> (s == null <==> file.None? || LoadLines(file.value).entries == [])
    ensures s != null ==> !crashed && s.Valid() && NoneHidden(s.Flags())
    ensures s != null ==> file.Some? && (exists k :: 0 <= k < |LoadLines(file.value).entries| &&
                                           s.reference == LoadLines(file.value).entries[k].reference &&
                                           s.Texts() == Split(LoadLines(file.value).entries[k].text, ' '))
    ensures s != null ==> forall i :: 0 <= i < |s.words| ==> fresh(s.words[i])
  {
    var library := new ScriptureLibrary();
    var rejected;
    crashed, rejected := library.LoadFromFile(file);
    if crashed {
      return crashed, null;
    }
    s := library.GetRandomScripture();
    if s == null {
      return;
    }
    var k :| 0 <= k < |library.scriptures| && library.scriptures[k] == s;
    // The passage's words were allocated by the loader, so this run may change them.
    forall i | 0 <= i < |s.words|
      ensures fresh(s.words[i])
    {
      assert s.words[i] in library.scriptures[k].words;
    }
  }
}
