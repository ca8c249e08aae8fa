/** The mindfulness program's bookkeeping: the activity log (a dictionary
    from activity name to the number of times it was run, loaded from and
    saved to "name:count" lines), the menu that feeds it, and the
    reflection activity's pool of questions that are not repeated until
    all have been asked. */
module Mindfulness {
  import opened Text

  // ---------------------------------------------------------- activities

  const BreathingName: string := "Breathing"
  const ReflectionName: string := "Reflection"
  const ListingName: string := "Listing"

  const ReflectionPrompts: seq<string> := [
    "Think of a time when you stood up for someone else.",
    "Think of a time when you did something really difficult.",
    "Think of a time when you helped someone in need.",
    "Think of a time when you did something truly selfless."
  ]

  const ReflectionQuestions: seq<string> := [
    "Why was this experience meaningful to you?",
    "Have you ever done anything like this before?",
    "How did you get started?",
    "How did you feel when it was complete?",
    "What made this time different than other times when you were not as successful?",
    "What is your favorite thing about this experience?",
    "What could you learn from this experience that applies to other situations?",
    "What did you learn about yourself through this experience?",
    "How can you keep this experience in mind in the future?"
  ]

  const ListingPrompts: seq<string> := [
    "Who are people that you appreciate?",
    "What are personal strengths of yours?",
    "Who are people that you have helped this week?",
    "When have you felt the Holy Ghost this month?",
    "Who are some of your personal heroes?"
  ]

  lemma QuestionsDistinct()
    ensures forall i, j :: 0 <= i < j < |ReflectionQuestions| ==> ReflectionQuestions[i] != ReflectionQuestions[j]
  {
  }

  /** Every activity name can be saved: none holds the ':' of the log format. */
  predicate Saveable(name: string) { ':' !in name }

  lemma ActivityNamesSaveable()
    ensures Saveable(BreathingName) && Saveable(ReflectionName) && Saveable(ListingName)
  {
  }

  // ---------------------------------------------------------------- the log

  /** The activity log: the dictionary's entries as a map, and its keys in
      enumeration order, which is insertion order since nothing is removed. */
  datatype Log = Log(names: seq<string>, counts: map<string, int32>)

  /** Each key listed once, and the list holds exactly the map's keys. */
  ghost predicate WellFormed(log: Log)
  {
    && (forall i, j :: 0 <= i < j < |log.names| ==> log.names[i] != log.names[j])
    && (forall n :: n in log.counts <==> n in log.names)
  }

  function EmptyLog(): (log: Log)
    ensures WellFormed(log) && log.names == [] && log.counts == map[]
  {
    Log([], map[])
  }

  /** `activityLog[name] = count`: a new key goes at the end of the order. */
  function Put(log: Log, name: string, count: int32): Log
  {
    if name in log.counts then Log(log.names, log.counts[name := count])
    else Log(log.names + [name], log.counts[name := count])
  }

  /** The update after an activity has run: one more run of `name`, or a
      first one; the increment wraps like an unchecked C# int. */
  function Increment(log: Log, name: string): (r: Log)
  {
    if name in log.counts then Put(log, name, Wrap32(log.counts[name] as int + 1))
    else Put(log, name, 1)
  }

  /** Running an activity adds one to its count (starting from one when it
      is new) and changes no other entry; existing keys keep their order. */
  lemma IncrementCounts(log: Log, name: string)
    ensures name in Increment(log, name).counts
    ensures name in log.counts && log.counts[name] < INT_MAX ==> Increment(log, name).counts[name] == log.counts[name] + 1
    ensures name in log.counts && log.counts[name] == INT_MAX ==> Increment(log, name).counts[name] == INT_MIN
    ensures name !in log.counts ==> Increment(log, name).counts[name] == 1
    ensures forall n :: n != name ==> (n in Increment(log, name).counts <==> n in log.counts)
    ensures forall n :: n != name && n in log.counts ==> Increment(log, name).counts[n] == log.counts[n]
    ensures log.names <= Increment(log, name).names
    ensures WellFormed(log) ==> WellFormed(Increment(log, name))
  {
    if name in log.counts && log.counts[name] == INT_MAX {
      var w := Wrap32(INT_MAX as int + 1);
      assert (INT_MAX as int + 1 - w) % 0x1_0000_0000 == 0;
    }
    if WellFormed(log) {
      PutWellFormed(log, name, if name in log.counts then Wrap32(log.counts[name] as int + 1) else 1);
    }
  }

  /** One line of the log file: accepted when cutting it at ':' gives exactly
      two pieces and the second is an int; the name is then (re)set to that
      count, overwriting any earlier line for it. Other lines are skipped. */
  function ApplyLine(log: Log, line: string): (r: Log)
    ensures |Split(line, ':')| != 2 || !ParseInt(Split(line, ':')[1]).Parsed? ==> r == log
    ensures |Split(line, ':')| == 2 && ParseInt(Split(line, ':')[1]).Parsed? ==>
              r.counts == log.counts[Split(line, ':')[0] := ParseInt(Split(line, ':')[1]).value]
  {
    var parts := Split(line, ':');
    if |parts| == 2 then
      match ParseInt(parts[1])
      case Parsed(count) => Put(log, parts[0], count)
      case _ => log
    else log
  }

  /** LoadLog over the lines of an existing file, in order. */
  function LoadLines(log: Log, lines: seq<string>): (r: Log)
    ensures forall n :: n in log.counts ==> n in r.counts
  {
    if lines == [] then log
    else ApplyLine(LoadLines(log, lines[..|lines| - 1]), lines[|lines| - 1])
  }

  /** Setting an entry keeps each key listed once. */
  lemma PutWellFormed(log: Log, name: string, count: int32)
    requires WellFormed(log)
    ensures WellFormed(Put(log, name, count))
  {
  }

  /** Loading lines keeps each key listed once. */
  lemma {:induction false} LoadLinesWellFormed(log: Log, lines: seq<string>)
    requires WellFormed(log)
    ensures WellFormed(LoadLines(log, lines))
  {
    if lines != [] {
      var init := lines[..|lines| - 1];
      LoadLinesWellFormed(log, init);
      var parts := Split(lines[|lines| - 1], ':');
      if |parts| == 2 && ParseInt(parts[1]).Parsed? {
        PutWellFormed(LoadLines(log, init), parts[0], ParseInt(parts[1]).value);
      }
    }
  }

  /** The line SaveLog writes for one entry. */
  function EntryLine(name: string, count: int32): string
  {
    name + ":" + IntToString(count)
  }

  /** SaveLog: one line per entry, in enumeration order. */
  function SaveLines(log: Log): (lines: seq<string>)
    requires WellFormed(log)
    ensures |lines| == |log.names|
    ensures forall i :: 0 <= i < |lines| ==> lines[i] == EntryLine(log.names[i], log.counts[log.names[i]])
  {
    seq(|log.names|, i requires 0 <= i < |log.names| => EntryLine(log.names[i], log.counts[log.names[i]]))
  }

  /** A saved line reads back as its entry. */
  lemma EntryLineRoundTrip(name: string, count: int32)
    requires Saveable(name)
    ensures Split(EntryLine(name, count), ':') == [name, IntToString(count)]
    ensures ParseInt(IntToString(count)) == Parsed(count)
  {
    var digits := IntToString(count);
    assert ':' !in digits by {
      if count < 0 {
        assert digits == digits[..1] + digits[1..];
      }
    }
    assert EntryLine(name, count) == name + [':'] + digits;
    SplitAtFirst(name, digits, ':');
    SplitWithout(digits, ':');
    ParseIntRoundTrip(count);
  }

  /** A saved line, loaded, sets its entry. */
  lemma ApplyEntryLine(log: Log, name: string, count: int32)
    requires Saveable(name)
    ensures ApplyLine(log, EntryLine(name, count)) == Put(log, name, count)
  {
    EntryLineRoundTrip(name, count);
  }

  /** The entries of the first k keys. */
  function PrefixCounts(log: Log, k: nat): (r: map<string, int32>)
    requires WellFormed(log) && k <= |log.names|
    ensures forall i :: 0 <= i < k ==> log.names[i] in r && r[log.names[i]] == log.counts[log.names[i]]
    ensures forall i :: k <= i < |log.names| ==> log.names[i] !in r
    ensures forall n :: n in r ==> n in log.counts
  {
    if k == 0 then map[]
    else PrefixCounts(log, k - 1)[log.names[k - 1] := log.counts[log.names[k - 1]]]
  }

  /** The saved line of the k-th key extends the first k - 1 entries by
      that key. */
  lemma PrefixStep(log: Log, k: nat)
    requires WellFormed(log) && 0 < k <= |log.names| && Saveable(log.names[k - 1])
    ensures Put(Log(log.names[..k - 1], PrefixCounts(log, k - 1)), log.names[k - 1], log.counts[log.names[k - 1]])
            == Log(log.names[..k], PrefixCounts(log, k))
  {
    var name := log.names[k - 1];
    assert name !in PrefixCounts(log, k - 1);
    assert log.names[..k] == log.names[..k - 1] + [name];
  }

  /** Loading the first k saved lines into an empty log rebuilds the first
      k entries. */
  lemma {:induction false} SavePrefixLoads(log: Log, k: nat)
    requires WellFormed(log) && k <= |log.names|
    requires forall i :: 0 <= i < |log.names| ==> Saveable(log.names[i])
    ensures LoadLines(EmptyLog(), SaveLines(log)[..k]) == Log(log.names[..k], PrefixCounts(log, k))
  {
    if k > 0 {
      SavePrefixLoads(log, k - 1);
      SaveLineLoads(log, k);
    }
  }

  /** The step of SavePrefixLoads: the k-th saved line. */
  lemma SaveLineLoads(log: Log, k: nat)
    requires WellFormed(log) && 0 < k <= |log.names| && Saveable(log.names[k - 1])
    requires LoadLines(EmptyLog(), SaveLines(log)[..k - 1]) == Log(log.names[..k - 1], PrefixCounts(log, k - 1))
    ensures LoadLines(EmptyLog(), SaveLines(log)[..k]) == Log(log.names[..k], PrefixCounts(log, k))
  {
    var name := log.names[k - 1];
    LoadLinesSnoc(EmptyLog(), SaveLines(log), k);
    ApplyEntryLine(Log(log.names[..k - 1], PrefixCounts(log, k - 1)), name, log.counts[name]);
    PrefixStep(log, k);
  }

  /** Loading one line more. */
  lemma LoadLinesSnoc(log: Log, lines: seq<string>, k: nat)
    requires 0 < k <= |lines|
    ensures LoadLines(log, lines[..k]) == ApplyLine(LoadLines(log, lines[..k - 1]), lines[k - 1])
  {
    assert lines[..k][..k - 1] == lines[..k - 1];
  }

  /** SaveLog followed by LoadLog into an empty log gives back the same log,
      order included, provided no name holds ':' (the activity names do
      not, see ActivityNamesSaveable). */
  lemma SaveLoadRoundTrip(log: Log)
    requires WellFormed(log)
    requires forall i :: 0 <= i < |log.names| ==> Saveable(log.names[i])
    ensures LoadLines(EmptyLog(), SaveLines(log)) == log
  {
    var n := |log.names|;
    var lines := SaveLines(log);
    assert lines[..n] == lines;
    assert log.names[..n] == log.names;
    PrefixCountsAll(log);
    SavePrefixLoads(log, n);
  }

  /** All the keys' entries are the whole map. */
  lemma PrefixCountsAll(log: Log)
    requires WellFormed(log)
    ensures PrefixCounts(log, |log.names|) == log.counts
  {
  }

  /** A later line for a name wins over an earlier one. */
  lemma LaterLineWins(log: Log, name: string, first: int32, second: int32)
    requires Saveable(name)
    ensures name in LoadLines(log, [EntryLine(name, first), EntryLine(name, second)]).counts
    ensures LoadLines(log, [EntryLine(name, first), EntryLine(name, second)]).counts[name] == second
  {
    var lines := [EntryLine(name, first), EntryLine(name, second)];
    EntryLineRoundTrip(name, first);
    EntryLineRoundTrip(name, second);
    assert lines[..1][..0] == [];
    assert lines[..1] == [EntryLine(name, first)];
  }

  // ---------------------------------------------------------------- the menu

  /** One pass of the menu loop: the option typed, and the line typed at the
      duration prompt when the option starts an activity (None: end of
      input, read as "30"). What the activities themselves read and show
      while they run is timing and is not modelled. */
  datatype MenuEntry = MenuEntry(choice: Option<string>, duration: Option<string>)

  /** What an option does. */
  datatype Choice = RunActivity(name: string) | QuitChoice | InvalidChoice

  /** The switch on the option: "1" to "3" start an activity, "4" quits,
      anything else (end of input included) is invalid. */
  function Choose(choice: Option<string>): (c: Choice)
    ensures c == RunActivity(BreathingName) <==> choice == Some("1")
    ensures c == RunActivity(ReflectionName) <==> choice == Some("2")
    ensures c == RunActivity(ListingName) <==> choice == Some("3")
    ensures c == QuitChoice <==> choice == Some("4")
    ensures c.RunActivity? ==> c.name in {BreathingName, ReflectionName, ListingName}
  {
    match choice
    case Some("1") => RunActivity(BreathingName)
    case Some("2") => RunActivity(ReflectionName)
    case Some("3") => RunActivity(ListingName)
    case Some("4") => QuitChoice
    case _ => InvalidChoice
  }

  /** Activity.Start parses the duration with int.Parse, whose exception is
      not caught. */
  predicate DurationAccepted(duration: Option<string>)
  {
    ParseInt(if duration.Some? then duration.value else "30").Parsed?
  }

  /** How a run of the menu ends: "4" saves the log (the lines written),
      a bad duration ends the program, or the modelled input runs out. */
  datatype SessionEnd = Quit(saved: seq<string>) | DurationCrash | InputEnded

  datatype Session = Session(end: SessionEnd, log: Log)

  /** The menu loop over the given entries, from the given log. */
  function RunSession(log: Log, entries: seq<MenuEntry>): (r: Session)
    requires WellFormed(log)
    decreases |entries|
  {
    if entries == [] then Session(InputEnded, log)
    else
      match Choose(entries[0].choice)
      case QuitChoice => Session(Quit(SaveLines(log)), log)
      case InvalidChoice => RunSession(log, entries[1..])
      case RunActivity(name) =>
        if DurationAccepted(entries[0].duration) then
          IncrementCounts(log, name);
          RunSession(Increment(log, name), entries[1..])
        else Session(DurationCrash, log)
  }

  /** A session keeps every entry of the log it starts from, adds only
      the three activities, and what it saves is its final log. */
  lemma {:induction false} SessionKeys(log: Log, entries: seq<MenuEntry>)
    requires WellFormed(log)
    ensures WellFormed(RunSession(log, entries).log)
    ensures forall n :: n in log.counts ==> n in RunSession(log, entries).log.counts
    ensures forall n :: n in RunSession(log, entries).log.counts ==> n in log.counts || n in {BreathingName, ReflectionName, ListingName}
    ensures RunSession(log, entries).end.Quit? ==> RunSession(log, entries).end.saved == SaveLines(RunSession(log, entries).log)
    decreases |entries|
  {
    if entries != [] {
      match Choose(entries[0].choice)
      case QuitChoice =>
      case InvalidChoice =>
        SessionKeys(log, entries[1..]);
      case RunActivity(name) =>
        if DurationAccepted(entries[0].duration) {
          IncrementCounts(log, name);
          SessionKeys(Increment(log, name), entries[1..]);
        }
    }
  }

  /** An invalid option leaves the log as it is. */
  lemma InvalidChoiceKeepsLog(log: Log, entry: MenuEntry, rest: seq<MenuEntry>)
    requires WellFormed(log) && Choose(entry.choice) == InvalidChoice
    ensures RunSession(log, [entry] + rest) == RunSession(log, rest)
  {
    assert ([entry] + rest)[1..] == rest;
  }

  /** What a session saves loads back as the log it ended with, when the
      log it started from was saved from names without ':'. */
  lemma {:induction false} SessionSaveReloads(log: Log, entries: seq<MenuEntry>)
    requires WellFormed(log)
    requires forall i :: 0 <= i < |log.names| ==> Saveable(log.names[i])
    requires RunSession(log, entries).end.Quit?
    ensures LoadLines(EmptyLog(), RunSession(log, entries).end.saved) == RunSession(log, entries).log
    decreases |entries|
  {
    match Choose(entries[0].choice)
    case QuitChoice =>
      QuitSaves(log, entries);
      SaveLoadRoundTrip(log);
    case InvalidChoice =>
      SkipsInvalid(log, entries);
      SessionSaveReloads(log, entries[1..]);
    case RunActivity(name) =>
      RunsActivity(log, entries);
      IncrementSaveable(log, name);
      SessionSaveReloads(Increment(log, name), entries[1..]);
  }

  lemma QuitSaves(log: Log, entries: seq<MenuEntry>)
    requires WellFormed(log) && entries != [] && Choose(entries[0].choice) == QuitChoice
    ensures RunSession(log, entries) == Session(Quit(SaveLines(log)), log)
  {
  }

  lemma SkipsInvalid(log: Log, entries: seq<MenuEntry>)
    requires WellFormed(log) && entries != [] && Choose(entries[0].choice) == InvalidChoice
    ensures RunSession(log, entries) == RunSession(log, entries[1..])
  {
  }

  lemma RunsActivity(log: Log, entries: seq<MenuEntry>)
    requires WellFormed(log) && entries != [] && Choose(entries[0].choice).RunActivity?
    ensures WellFormed(Increment(log, Choose(entries[0].choice).name))
    ensures DurationAccepted(entries[0].duration) ==>
              RunSession(log, entries) == RunSession(Increment(log, Choose(entries[0].choice).name), entries[1..])
    ensures !DurationAccepted(entries[0].duration) ==> RunSession(log, entries) == Session(DurationCrash, log)
  {
    IncrementCounts(log, Choose(entries[0].choice).name);
  }

  /** Running one of the three activities keeps every name saveable. */
  lemma IncrementSaveable(log: Log, name: string)
    requires forall i :: 0 <= i < |log.names| ==> Saveable(log.names[i])
    requires name in {BreathingName, ReflectionName, ListingName}
    ensures WellFormed(log) ==> WellFormed(Increment(log, name))
    ensures forall i :: 0 <= i < |Increment(log, name).names| ==> Saveable(Increment(log, name).names[i])
  {
    ActivityNamesSaveable();
    IncrementCounts(log, name);
  }

  // ------------------------------------------------------------ the program

  /** The log at the start of the menu: the static dictionary starts empty
      and LoadLog reads the file when it exists. */
  function InitialLog(file: Option<seq<string>>): (log: Log)
    ensures WellFormed(log)
    ensures file.None? ==> log == EmptyLog()
  {
    if file.None? then EmptyLog()
    else
      LoadLinesWellFormed(EmptyLog(), file.value);
      LoadLines(EmptyLog(), file.value)
  }

  /** Every name read from the file can be saved again: an accepted line is
      cut at ':', so its name holds none. */
  lemma {:induction false} LoadedNamesSaveable(lines: seq<string>)
    ensures forall i :: 0 <= i < |LoadLines(EmptyLog(), lines).names| ==> Saveable(LoadLines(EmptyLog(), lines).names[i])
  {
    if lines != [] {
      var init := lines[..|lines| - 1];
      LoadedNamesSaveable(init);
      JoinSplit(lines[|lines| - 1], ':');
    }
  }

  /** The file a run saves on "4" is read by the next run as exactly the log
      the run ended with. */
  lemma ProgramSaveReloads(file: Option<seq<string>>, entries: seq<MenuEntry>)
    requires RunSession(InitialLog(file), entries).end.Quit?
    ensures InitialLog(Some(RunSession(InitialLog(file), entries).end.saved)) == RunSession(InitialLog(file), entries).log
  {
    if file.Some? {
      LoadedNamesSaveable(file.value);
    }
    SessionSaveReloads(InitialLog(file), entries);
  }

  /** The activity log of Program: a dictionary updated in place. */
  class ActivityLog {
    var names: seq<string>
    var counts: map<string, int32>

    function Contents(): Log
      reads this
    {
      Log(names, counts)
    }

    ghost predicate Valid()
      reads this
    {
      WellFormed(Contents())
    }

    constructor()
      ensures Valid() && Contents() == EmptyLog()
    {
      names, counts := [], map[];
    }

    /** The update in Main after an activity has run. */
    method Record(name: string)
      requires Valid()
      modifies this
      ensures Valid() && Contents() == Increment(old(Contents()), name)
    {
      IncrementCounts(Contents(), name);
      if name in counts {
        counts := counts[name := Wrap32(counts[name] as int + 1)];
      } else {
        names := names + [name];
        counts := counts[name := 1];
      }
    }

    /** LoadLog: the lines of the file (None when it does not exist). */
    method LoadLog(file: Option<seq<string>>)
      requires Valid()
      modifies this
      ensures Valid()
      ensures file.None? ==> Contents() == old(Contents())
      ensures file.Some? ==> Contents() == LoadLines(old(Contents()), file.value)
    {
      if file.None? {
        return;
      }
      var lines := file.value;
      var i := 0;
      while i < |lines|
        invariant 0 <= i <= |lines|
        invariant Contents() == LoadLines(old(Contents()), lines[..i])
      {
        LoadLinesSnoc(old(Contents()), lines, i + 1);
        var parts := Split(lines[i], ':');
        if |parts| == 2 {
          match ParseInt(parts[1]) {
            case Parsed(count) =>
              if parts[0] !in counts {
                names := names + [parts[0]];
              }
              counts := counts[parts[0] := count];
            case _ =>
          }
        }
        i := i + 1;
      }
      assert lines[..i] == lines;
      LoadLinesWellFormed(old(Contents()), lines);
    }

    /** SaveLog: the lines written, one per entry in enumeration order. */
    method SaveLog() returns (lines: seq<string>)
      requires Valid()
      ensures lines == SaveLines(Contents())
    {
      lines := [];
      var i := 0;
      while i < |names|
        invariant 0 <= i <= |names| && |lines| == i
        invariant forall j :: 0 <= j < i ==> lines[j] == EntryLine(names[j], counts[names[j]])
      {
        lines := lines + [EntryLine(names[i], counts[names[i]])];
        i := i + 1;
      }
    }
  }

  /** The menu loop of Main over the given entries. */
  method RunMenu(log: ActivityLog, entries: seq<MenuEntry>) returns (end: SessionEnd)
    requires log.Valid()
    modifies log
    ensures log.Valid()
    ensures Session(end, log.Contents()) == RunSession(old(log.Contents()), entries)
  {
    var k := 0;
    while k < |entries|
      invariant 0 <= k <= |entries| && log.Valid()
      invariant RunSession(log.Contents(), entries[k..]) == RunSession(old(log.Contents()), entries)
    {
      var entry := entries[k];
      assert entries[k..][1..] == entries[k + 1..];
      match Choose(entry.choice) {
        case QuitChoice =>
          QuitSaves(log.Contents(), entries[k..]);
          var saved := log.SaveLog();
          return Quit(saved);
        case InvalidChoice =>
          SkipsInvalid(log.Contents(), entries[k..]);
        case RunActivity(name) =>
          RunsActivity(log.Contents(), entries[k..]);
          if !DurationAccepted(entry.duration) {
            return DurationCrash;
          }
          log.Record(name);
      }
      k := k + 1;
    }
    end := InputEnded;
  }

  /** Program.Main: load the log, then run the menu. */
  method RunProgram(file: Option<seq<string>>, entries: seq<MenuEntry>) returns (end: SessionEnd)
    ensures end == RunSession(InitialLog(file), entries).end
  {
    var log := new ActivityLog();
    log.LoadLog(file);
    end := RunMenu(log, entries);
  }

  // --------------------------------------------------- the reflection pool

  /** ReflectionActivity.Run: a random prompt, then one question per pass of
      the timed loop (`rounds` passes), drawn from a pool that starts with
      all nine questions, loses each question drawn and is refilled only
      once empty. So questions never repeat within a block of nine. */
  method AskReflection(rounds: nat) returns (prompt: string, asked: seq<string>)
    ensures prompt in ReflectionPrompts
    ensures |asked| == rounds
    ensures forall i :: 0 <= i < |asked| ==> asked[i] in ReflectionQuestions
    ensures forall i, j :: 0 <= i < j < |asked| && i / 9 == j / 9 ==> asked[i] != asked[j]
  {
    var p :| 0 <= p < |ReflectionPrompts|;
    prompt := ReflectionPrompts[p];
    QuestionsDistinct();
    asked := DrawQuestions(ReflectionQuestions, rounds);
  }

  /** ListingActivity.Run's prompt: a random index within the five prompts. */
  method PickListingPrompt() returns (prompt: string)
    ensures prompt in ListingPrompts
  {
    var p :| 0 <= p < |ListingPrompts|;
    prompt := ListingPrompts[p];
  }

  /** The question loop over a list of nine distinct questions. */
  method DrawQuestions(questions: seq<string>, rounds: nat) returns (asked: seq<string>)
    requires |questions| == 9
    requires forall i, j :: 0 <= i < j < |questions| ==> questions[i] != questions[j]
    ensures |asked| == rounds
    ensures forall i :: 0 <= i < |asked| ==> asked[i] in questions
    ensures forall i, j :: 0 <= i < j < |asked| && i / 9 == j / 9 ==> asked[i] != asked[j]
  {
    var available := questions;
    asked := [];
    ghost var start := 0;
    while |asked| < rounds
      invariant |asked| <= rounds
      invariant 0 <= start <= |asked| && start % 9 == 0 && |asked| - start + |available| == 9
      invariant multiset(asked[start..]) + multiset(available) == multiset(questions)
      invariant forall i :: 0 <= i < |asked| ==> asked[i] in questions
      invariant forall i, j :: 0 <= i < j < |asked| && i / 9 == j / 9 ==> asked[i] != asked[j]
    {
      if |available| == 0 {
        available := questions;
        start := |asked|;
      }
      var idx :| 0 <= idx < |available|;
      var q := available[idx];
      PickFresh(questions, asked[start..], available, idx);
      NoRepeatStep(asked, start, q);
      MovePicked(asked, start, available, idx);
      available := available[..idx] + available[idx + 1..];
      asked := asked + [q];
    }
  }

  /** A question still in the pool has not been asked since the refill. */
  lemma PickFresh(questions: seq<string>, block: seq<string>, available: seq<string>, idx: nat)
    requires forall i, j :: 0 <= i < j < |questions| ==> questions[i] != questions[j]
    requires multiset(block) + multiset(available) == multiset(questions)
    requires idx < |available|
    ensures available[idx] !in block
    ensures available[idx] in questions
  {
    DistinctOnce(questions, available[idx]);
    assert available[idx] in multiset(available);
  }

  /** In a list of distinct items each occurs at most once. */
  lemma {:induction false} DistinctOnce(s: seq<string>, x: string)
    requires forall i, j :: 0 <= i < j < |s| ==> s[i] != s[j]
    ensures multiset(s)[x] <= 1
  {
    if s != [] {
      DistinctOnce(s[1..], x);
      assert s == [s[0]] + s[1..];
      if s[0] == x {
        assert x !in s[1..];
      }
    }
  }

  /** Appending a question not asked since the refill at `start` keeps
      every block of nine free of repeats. */
  lemma NoRepeatStep(asked: seq<string>, start: nat, q: string)
    requires start <= |asked| < start + 9 && start % 9 == 0
    requires forall i, j :: 0 <= i < j < |asked| && i / 9 == j / 9 ==> asked[i] != asked[j]
    requires q !in asked[start..]
    ensures forall i, j :: 0 <= i < j < |asked| + 1 && i / 9 == j / 9 ==> (asked + [q])[i] != (asked + [q])[j]
  {
    forall i | 0 <= i < |asked| && i / 9 == |asked| / 9
      ensures asked[i] != q
    {
      assert start <= i;
      assert asked[i] == asked[start..][i - start];
    }
  }

  /** Moving the drawn question from the pool to the block asked since the
      refill keeps their union the full list. */
  lemma MovePicked(asked: seq<string>, start: nat, available: seq<string>, idx: nat)
    requires start <= |asked| && idx < |available|
    ensures multiset((asked + [available[idx]])[start..]) + multiset(available[..idx] + available[idx + 1..])
            == multiset(asked[start..]) + multiset(available)
  {
    assert available == available[..idx] + [available[idx]] + available[idx + 1..];
    assert (asked + [available[idx]])[start..] == asked[start..] + [available[idx]];
  }
}
