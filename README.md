# cse210-projects console exercises, modelled in Dafny

This project models the program logic of six small C# console exercises and proves properties of that logic. Console and file I/O are stripped off.

- **Scripture Memorizer.**
  - A `Reference` value that renders as `Book Chapter:Verse` or `Book Chapter:Start-End`.
  - A `Scripture` made of `Word` objects whose hidden flags are flipped in place by "hide three random words" and "reveal one word".
  - A `ScriptureLibrary` that loads `Reference|Text` lines. It skips blank and ill-formed lines, reports references that raise a `FormatException`, and crashes on an `OverflowException`.
  - The command loop of `Main`.
- **Eternal Quest.**
  - Simple, eternal and checklist goals.
  - The goal manager's scoring and levelling.
  - The save format and the loader that reads it back. The reload is lossy for checklist goals.
- **Mindfulness.**
  - The activity log: a dictionary of run counts, saved and loaded as `name:count` lines.
  - The menu loop that feeds the log.
  - The reflection activity's question pool, which does not repeat a question until all nine have been asked.
- **YouTube videos.**
  - The `Video` class with its growing comment list, and both `ToString` renderings.
  - The listing printed for the videos.
- **Guessing game.** The Higher / Lower / "You guessed it!" rule and the `while (guess != magicNumber)` loop.
- **Square.** `number * number` in 32-bit arithmetic, and the result line.

## How the model is built

- Files and modules:
  - `text.dfy` (module `Text`) holds what the exercises take from .NET:
    - 32-bit `int` with unchecked wrap-around (`Wrap32`).
    - `int.ToString` and `int.Parse`. Parsing yields a value, a format fault or an overflow fault.
    - `bool.ToString` and `bool.Parse`.
    - `String.Split(char)`, which keeps empty pieces, and `String.Join`.
    - `Trim`, `LastIndexOf` and `IsNullOrWhiteSpace`.
  - Every other file models one source file or one exercise.
- State that the source updates in place is a Dafny `class`. This covers `Word`, `Scripture`, `ScriptureLibrary`, `GoalManager`, the Mindfulness `ActivityLog` and `Video`. Each method is proved against a specification function on values: `Render`, `HideAt`, `LoadLines`, `Record`, `LoadQuest`, `Increment`, `LoadLines`/`SaveLines` and `Listing`.
- Console input is a sequence of lines. `None` stands for end of input, where `Console.ReadLine` returns null.
- A file is `Option<seq<string>>`. `None` means the file does not exist.
- `System.Random` becomes a nondeterministic choice within the valid range. The indices chosen are returned so that contracts can speak about them.
- An uncaught exception becomes an explicit crash outcome. This covers `int.Parse` on bad input, `OverflowException` in the scripture loader, and a short goal line in `LoadGoals`.

## Model

| member | source | states |
|---|---|---|
| References.SingleVerse | week03/ScriptureMemorizer/reference.cs:9-15 | a single-verse reference has no end verse and displays as `book chapter:verse`; nothing is validated |
| References.VerseRange | week03/ScriptureMemorizer/reference.cs:18-24 | a range keeps start and end verse as given and displays as `book chapter:start-end` |
| References.RangeShowsDash | week03/ScriptureMemorizer/reference.cs:26-32 | for non-negative numbers, the text after the last ':' is the verse (and `-end`), and it holds a '-' exactly when the reference is a range |
| Scriptures.Word.constructor | week03/ScriptureMemorizer/scripture.cs:14 | a new word holds its text and is shown |
| Scriptures.Word.Hide | week03/ScriptureMemorizer/scripture.cs:22 | the word is hidden afterwards |
| Scriptures.Word.Show | week03/ScriptureMemorizer/scripture.cs:32 | the word is shown afterwards |
| Scriptures.Scripture.constructor | week03/ScriptureMemorizer/scripture.cs:11-15 | one fresh, shown word per `' '`-separated piece of the text, in order, empty pieces included; the reference is kept |
| Text.SplitCount | week03/ScriptureMemorizer/scripture.cs:14 | `Split` yields one more piece than there are separators, so a scripture always has at least one word |
| Text.JoinSplit | week03/ScriptureMemorizer/scripture.cs:14 | the pieces of `Split` contain no separator and joined with it give the text back |
| Scriptures.Scripture.HideRandomWords | week03/ScriptureMemorizer/scripture.cs:17-24 | picks max(n, 0) indices in range, each possibly repeated, and the new flags are the old ones with those positions hidden |
| Scriptures.HideAtHides | week03/ScriptureMemorizer/scripture.cs:19-23 | after hiding the picks, a word is hidden iff it was hidden before or was picked: nothing is un-hidden |
| Scriptures.HideAtBound | week03/ScriptureMemorizer/scripture.cs:19-23 | hiding never lowers the hidden count and raises it by at most the number of picks |
| Scriptures.Scripture.RevealOneWord | week03/ScriptureMemorizer/scripture.cs:26-34 | with no hidden word nothing changes; otherwise exactly one previously hidden word is shown and every other flag is unchanged |
| Scriptures.HiddenPositions | week03/ScriptureMemorizer/scripture.cs:28 | the hidden-word list holds exactly the hidden positions, as many as the hidden count |
| Scriptures.CountAfterSet | week03/ScriptureMemorizer/scripture.cs:22 | setting one flag moves the hidden count by exactly that flag's change |
| Scriptures.Shown | week03/ScriptureMemorizer/scripture.cs:39 | each word displays its masked form when hidden and its text otherwise, in order |
| Scriptures.Scripture.DisplayText | week03/ScriptureMemorizer/scripture.cs:36-40 | the display is the reference display, `" - "`, and the word displays joined by single spaces |
| Scriptures.RenderUnhidden | week03/ScriptureMemorizer/scripture.cs:36-40 | with no word hidden, the display is the reference display, `" - "` and the original text |
| Scriptures.Scripture.IsCompletelyHidden | week03/ScriptureMemorizer/scripture.cs:42-45 | true iff the hidden count equals the number of words |
| Scriptures.AllHiddenIffCount | week03/ScriptureMemorizer/scripture.cs:44 | every flag is set iff the hidden count equals the length |
| Scriptures.NoneHiddenIffCount | week03/ScriptureMemorizer/scripture.cs:28-29 | no flag is set iff the hidden count is zero |
| Text.LastIndexOf | week03/ScriptureMemorizer/scriipturelibrary.cs:56 | -1 iff the character is absent; otherwise the position of its last occurrence |
| ScriptureLibraries.ParseReference | week03/ScriptureMemorizer/scriipturelibrary.cs:51-82 | no space gives a FormatException; so does a text after the last space that is not exactly two ':' pieces; a chapter int.Parse rejects gives its FormatException or OverflowException; a parsed reference's book is the text before the last space, its chapter is int.Parse of the first ':' piece, and it is a range iff the second piece holds '-' |
| ScriptureLibraries.ParseVerses | week03/ScriptureMemorizer/scriipturelibrary.cs:67-81 | a parsed reference keeps the book and chapter, and is a range iff the verse part holds a '-' |
| ScriptureLibraries.SingleVerseRoundTrip | week03/ScriptureMemorizer/scriipturelibrary.cs:78-81 | a single verse's text parses back to the same reference iff the verse is non-negative |
| ScriptureLibraries.VerseRangeRoundTrip | week03/ScriptureMemorizer/scriipturelibrary.cs:70-76 | a range's `start-end` text parses back to the same range iff both verses are non-negative |
| ScriptureLibraries.LeadingDashSplits | week03/ScriptureMemorizer/scriipturelibrary.cs:72-73 | a verse part that starts with '-' splits into an empty first piece, which int.Parse rejects |
| ScriptureLibraries.ParseDisplayRoundTrip | week03/ScriptureMemorizer/scriipturelibrary.cs:56-81 | parsing a reference's display gives the reference back iff its verses are non-negative |
| ScriptureLibraries.ProcessLine | week03/ScriptureMemorizer/scriipturelibrary.cs:30-46 | a blank line and a line that is not exactly two '|' pieces are skipped; otherwise the trimmed first piece is parsed: a reference is accepted with the trimmed second piece as its text, a FormatException reports the untrimmed first piece, and an OverflowException escapes |
| ScriptureLibraries.LoadLinesShape | week03/ScriptureMemorizer/scriipturelibrary.cs:28-48 | the load crashes iff some line overflows; otherwise at most one passage or report per line |
| ScriptureLibraries.LoadLinesAppend | week03/ScriptureMemorizer/scriipturelibrary.cs:28-48 | lines are handled independently and in order: the load of `a + b` is the load of `a` followed by the load of `b` |
| ScriptureLibraries.DisplayedLineLoads | week03/ScriptureMemorizer/scriipturelibrary.cs:34-41 | a `display|text` line for a non-negative reference and a trimmed text is accepted as exactly that passage |
| ScriptureLibraries.ScriptureLibrary.LoadFromFile | week03/ScriptureMemorizer/scriipturelibrary.cs:15-49 | a missing file leaves the library empty; otherwise it crashes iff the file overflows, and builds one fresh scripture per accepted line in file order, every word shown, with the reports |
| ScriptureLibraries.ScriptureLibrary.LoadOutcomes | week03/ScriptureMemorizer/scriipturelibrary.cs:28-48 | the loop over the lines builds the library the fold of the line outcomes describes, each passage with every word shown |
| ScriptureLibraries.ScriptureLibrary.Add | week03/ScriptureMemorizer/scriipturelibrary.cs:41 | appends one new scripture built from the passage with every word shown, leaving the earlier ones |
| ScriptureLibraries.ScriptureLibrary.GetRandomScripture | week03/ScriptureMemorizer/scriipturelibrary.cs:85-92 | null iff the library is empty; otherwise one of the loaded scriptures |
| Memorizer.Classify | week03/ScriptureMemorizer/Program.cs:26-31 | "quit" quits, "reveal" reveals, and every other line, null included, hides |
| Memorizer.Step | week03/ScriptureMemorizer/Program.cs:26-31 | quit changes nothing; reveal shows one hidden word or nothing; hide hides three in-range picks |
| Memorizer.Pass | week03/ScriptureMemorizer/Program.cs:24-39 | one pass: "quit" stops with the flags unchanged; any other line has Step's effect, and the session stops iff that left every word hidden |
| Memorizer.RunSession | week03/ScriptureMemorizer/Program.cs:19-40 | the returned flag history starts at the passage's flags and ends at its final flags, each consumed line moves it by Step's effect ("quit" by none), no state before the last is fully hidden, and the loop stops on the first "quit" or as soon as every word is hidden, otherwise reading all input |
| Memorizer.LoadPassage | week03/ScriptureMemorizer/Program.cs:7-17 | crashes iff the file overflows; null iff nothing was loaded; otherwise a passage built from one loaded entry, with every word shown |
| Memorizer.RunProgram | week03/ScriptureMemorizer/Program.cs:5-41 | an overflowing file crashes; no scripture means a message and no loop; otherwise the session starts with every word shown, each line moves the flags by Step's effect, no "quit" precedes the last line read, and the session ends on "quit", on the all-hidden state after a non-quit line, or with all input read and no "quit" in it |
| EternalQuest.NewSimpleGoal | week06/EternalQuest/Program.cs:62-66 | a new simple goal holds its fields and is incomplete |
| EternalQuest.NewEternalGoal | week06/EternalQuest/Program.cs:85-88 | a new eternal goal holds its fields and is incomplete |
| EternalQuest.NewChecklistGoal | week06/EternalQuest/Program.cs:110-116 | a new checklist goal has count 0 and is complete iff its target is at most 0 |
| EternalQuest.RecordGoalEvent | week06/EternalQuest/Program.cs:68-128 | recording completes a simple goal, leaves an eternal goal alone and adds one (wrapping) to a checklist count; name, description, points and kind are kept |
| EternalQuest.SimpleStaysComplete | week06/EternalQuest/Program.cs:68-74 | a simple goal is complete after any positive number of records |
| EternalQuest.EternalNeverComplete | week06/EternalQuest/Program.cs:90-95 | an eternal goal is unchanged and incomplete however often it is recorded |
| EternalQuest.ChecklistCounts | week06/EternalQuest/Program.cs:118-130 | without overflow, n records raise the count by n, and the goal is complete iff the count reaches the target |
| EternalQuest.DetailsShape | week06/EternalQuest/Program.cs:48-51 | the details start with the name; a checklist's end with its target, the others' with ')' |
| EternalQuest.RepresentationShape | week06/EternalQuest/Program.cs:76-79 | a goal line is its type tag, ':', and its fields joined by ',' |
| EternalQuest.InitialQuest | week06/EternalQuest/Program.cs:151-153 | a new manager has no goals, score 0 and level 1 |
| EternalQuest.Record | week06/EternalQuest/Program.cs:248-284 | an index outside the goal list changes nothing; otherwise only the chosen goal is recorded |
| EternalQuest.RecordScores | week06/EternalQuest/Program.cs:266-276 | without overflow the score rises by the goal's points plus a checklist bonus when complete afterwards; repeated records re-award both |
| EternalQuest.RecordLevels | week06/EternalQuest/Program.cs:278-283 | the level rises by at most one per record, exactly when the new score reaches level × 1000 |
| EternalQuest.GoalManager.constructor | week06/EternalQuest/Program.cs:151-153 | the manager starts as the initial quest |
| EternalQuest.GoalManager.CreateGoal | week06/EternalQuest/Program.cs:209-224 | types 1, 2 and 3 append the matching new goal; any other type appends nothing; score and level are kept |
| EternalQuest.GoalManager.RecordEvent | week06/EternalQuest/Program.cs:248-284 | the new state is `Record` of the old state and the index |
| EternalQuest.SaveLines | week06/EternalQuest/Program.cs:296-304 | the save has the score, the level, then one representation line per goal in list order |
| EternalQuest.GoalManager.SaveGoals | week06/EternalQuest/Program.cs:291-306 | writes exactly the save lines of the current state |
| EternalQuest.ParseGoalLine | week06/EternalQuest/Program.cs:327-329 | a line without ':' is malformed |
| EternalQuest.ParseGoalFields | week06/EternalQuest/Program.cs:331-347 | a parsed goal has the line's tag, name and description and a zero checklist count; an unknown tag is skipped |
| EternalQuest.ParseSimpleFields | week06/EternalQuest/Program.cs:333-337 | a simple goal reads points and completion from fields 3 and 4; anything else is malformed |
| EternalQuest.ParseEternalFields | week06/EternalQuest/Program.cs:339-341 | an eternal goal reads its points from field 3; anything else is malformed |
| EternalQuest.ParseChecklistFields | week06/EternalQuest/Program.cs:343-346 | a checklist goal reads points, target and bonus from fields 3 to 5, and its count is 0 |
| EternalQuest.LoadQuest | week06/EternalQuest/Program.cs:320-348 | fewer than two lines is a crash |
| EternalQuest.CollectGoalsStep | week06/EternalQuest/Program.cs:325-348 | each line appends its goal or is skipped for an unknown tag |
| EternalQuest.CollectMalformed | week06/EternalQuest/Program.cs:325-348 | one malformed line makes the whole load crash |
| EternalQuest.GoalManager.LoadGoals | week06/EternalQuest/Program.cs:309-351 | a missing file changes nothing; otherwise the load crashes iff the lines are unreadable, and replaces goals, score and level with what they hold |
| EternalQuest.GoalLineRoundTrip | week06/EternalQuest/Program.cs:76-79 | a goal whose texts hold no ',' or ':' reads back from its line as itself, except a checklist's count is 0 |
| EternalQuest.SaveLoadRoundTrip | week06/EternalQuest/Program.cs:291-351 | saving then loading gives back score, level and goals, with checklist counts reset to 0 |
| EternalQuest.ChecklistCompletionLost | week06/EternalQuest/Program.cs:343-346 | a completed checklist goal with a positive target is no longer complete after a save and a load |
| Mindfulness.QuestionsDistinct | week05/Mindfulness/Program.cs:133-144 | the nine reflection questions are pairwise different |
| Mindfulness.ActivityNamesSaveable | week05/Mindfulness/Program.cs:93 | the three activity names hold no ':' |
| Mindfulness.EmptyLog | week05/Mindfulness/Program.cs:221 | the log starts empty |
| Mindfulness.IncrementCounts | week05/Mindfulness/Program.cs:263-267 | running an activity adds one to its count (int.MaxValue wraps to int.MinValue), or inserts 1 when absent; every other entry is unchanged |
| Mindfulness.ActivityLog.Record | week05/Mindfulness/Program.cs:263-267 | the dictionary is updated in place to the incremented log |
| Mindfulness.ApplyLine | week05/Mindfulness/Program.cs:277-281 | a line is used iff it splits into exactly two pieces and the second parses; it then sets that name's count |
| Mindfulness.LaterLineWins | week05/Mindfulness/Program.cs:280 | of two lines for the same name, the later count is kept |
| Mindfulness.LoadLinesWellFormed | week05/Mindfulness/Program.cs:275-282 | loading lines keeps the key list and the dictionary in step |
| Mindfulness.ActivityLog.LoadLog | week05/Mindfulness/Program.cs:271-284 | a missing file changes nothing; otherwise the log is what the lines make of it |
| Mindfulness.SaveLines | week05/Mindfulness/Program.cs:290-293 | one `name:count` line per entry, in key order |
| Mindfulness.ActivityLog.SaveLog | week05/Mindfulness/Program.cs:286-295 | writes exactly the save lines of the current log |
| Mindfulness.EntryLineRoundTrip | week05/Mindfulness/Program.cs:277-293 | a saved line of a name without ':' splits back into the name and a count that parses to itself |
| Mindfulness.SaveLoadRoundTrip | week05/Mindfulness/Program.cs:271-295 | loading what was saved reproduces the log, for names without ':' |
| Mindfulness.Choose | week05/Mindfulness/Program.cs:241-261 | "1", "2" and "3" start the three activities, "4" quits, everything else is invalid |
| Mindfulness.InvalidChoiceKeepsLog | week05/Mindfulness/Program.cs:257-260 | an invalid choice leaves the log and the rest of the session unchanged |
| Mindfulness.QuitSaves | week05/Mindfulness/Program.cs:252-256 | "4" saves the current log and ends the program |
| Mindfulness.RunsActivity | week05/Mindfulness/Program.cs:226-268 | an activity with a parseable duration counts one run; a bad duration crashes with the log unchanged |
| Mindfulness.SessionKeys | week05/Mindfulness/Program.cs:226-268 | a session keeps every entry, adds only the three activity names, and saves its final log |
| Mindfulness.SessionSaveReloads | week05/Mindfulness/Program.cs:252-295 | what a session saves on quit loads back as its final log |
| Mindfulness.InitialLog | week05/Mindfulness/Program.cs:271-284 | the loaded log is well formed, and empty when there is no file |
| Mindfulness.LoadedNamesSaveable | week05/Mindfulness/Program.cs:277-281 | every name loaded from a file has no ':' |
| Mindfulness.ProgramSaveReloads | week05/Mindfulness/Program.cs:223-295 | the file written on quit makes the next run start from the log the run ended with |
| Mindfulness.RunMenu | week05/Mindfulness/Program.cs:226-268 | the loop over the in-place log ends as the session function says |
| Mindfulness.RunProgram | week05/Mindfulness/Program.cs:223-269 | loading the log and then the menu loop end as the session from the loaded log |
| Mindfulness.AskReflection | week05/Mindfulness/Program.cs:151-176 | the prompt is one of the four, and every question asked is one of the nine, none repeated within a block of nine |
| Mindfulness.DrawQuestions | week05/Mindfulness/Program.cs:160-170 | drawing and removing from a pool refilled only when empty never repeats a question between refills |
| Mindfulness.PickListingPrompt | week05/Mindfulness/Program.cs:181-198 | the listing prompt is one of the five |
| Mindfulness.PickFresh | week05/Mindfulness/Program.cs:167-169 | a question still in the pool has not been asked since the last refill |
| YouTubeVideos.CommentStringShape | week04/YouTubeVideos/Program.cs:70-73 | the timestamp does not appear in a comment's rendering |
| YouTubeVideos.CommentStringReadsBack | week04/YouTubeVideos/Program.cs:70-73 | when ids and authors hold no quote, two comments render alike iff they have the same id, author and text |
| YouTubeVideos.Video.constructor | week04/YouTubeVideos/Program.cs:22-31 | a new video holds the given properties and no comment |
| YouTubeVideos.Video.AddComment | week04/YouTubeVideos/Program.cs:86-89 | the comment is appended at the end, the count grows by one, earlier comments and the other properties are unchanged, and the video's rendering shows the new count and so differs from before |
| YouTubeVideos.VideoStringTracksCount | week04/YouTubeVideos/Program.cs:43-46 | with the other properties fixed, two comment counts render alike iff they are equal |
| YouTubeVideos.VideoBlockShape | week04/YouTubeVideos/Program.cs:121-136 | each block is numbered, shows the comment count, has "Comments:" iff there is a comment, lists comments in order and ends with the rule |
| YouTubeVideos.VideoBlocks | week04/YouTubeVideos/Program.cs:118-137 | one block per video, the k-th numbered k+1 |
| YouTubeVideos.ListingShowsVideo | week04/YouTubeVideos/Program.cs:117-137 | the listing holds video i's block right after the header and the blocks of the videos before it |
| YouTubeVideos.Infos | week04/YouTubeVideos/Program.cs:120-125 | the listing reads each video's properties and comments in list order |
| YouTubeVideos.ListVideos | week04/YouTubeVideos/Program.cs:117-137 | the loop prints exactly the listing of the videos |
| YouTubeVideos.ListComments | week04/YouTubeVideos/Program.cs:128-135 | the comment loop prints exactly the comment section |
| GuessingGame.Respond | week01/Exercise2/Program.cs:19-30 | Higher iff the guess is below, Lower iff above, Correct iff equal |
| GuessingGame.MessagesTellApart | week01/Exercise2/Program.cs:19-30 | each guess prints one of the three messages, and different answers print different messages |
| GuessingGame.ReadInt | week01/Exercise2/Program.cs:9-17 | a number is read iff the line exists and int.Parse accepts it |
| GuessingGame.Guesses | week01/Exercise2/Program.cs:17 | the guess on line k is int.Parse of line k |
| GuessingGame.GuessLoop | week01/Exercise2/Program.cs:11-31 | one reply per guess read, no Correct before the last, the loop ends exactly on Correct or at once when the magic number is -1, a crash on an unparseable guess |
| GuessingGame.Play | week01/Exercise2/Program.cs:5-32 | an unparseable magic number crashes before any guess; otherwise the loop's runs are as `Plays` says |
| GuessingGame.PlaysDeterministic | week01/Exercise2/Program.cs:13-31 | the magic number and the guesses decide the ending and every reply |
| Square.SquareNumber | week01/Exercise5/Program.cs:44-47 | the result is the square modulo 2^32, and the exact, non-negative square when \|n\| ≤ 46340 |
| Square.SquareOverflows | week01/Exercise5/Program.cs:44-47 | from \|n\| = 46341 on, the result is not the square |
| Square.SquareExamples | week01/Exercise5/Program.cs:44-47 | 46341 and -46341 give -2147479015; 65536 and int.MinValue give 0 |
| Square.SquareSymmetric | week01/Exercise5/Program.cs:46 | a number and its negation, int.MinValue included, have the same square |
| Square.ResultLine | week01/Exercise5/Program.cs:50-53 | the line is the name, ", the square of your number is ", and the number's text |
| Square.ResultLineReadsBack | week01/Exercise5/Program.cs:50-53 | the line starts with the name, and its number reads back as the square |
| Square.RunProgram | week01/Exercise5/Program.cs:5-21 | it prints the welcome, then crashes iff the number line is missing or unparseable; otherwise it prints the welcome and the square of exactly the number read with the name read |
| Text.Wrap32 | week06/EternalQuest/Program.cs:270 | an int result equals the true value when in range, and differs from it by a multiple of 2^32 |
| Text.ParseIntRoundTrip | week06/EternalQuest/Program.cs:321-322 | int.Parse reads back what int.ToString wrote |
| Text.ParseBoolRoundTrip | week06/EternalQuest/Program.cs:335 | bool.Parse reads back "True" and "False" |
| Text.Trim | week03/ScriptureMemorizer/scriipturelibrary.cs:39-40 | the result is the text with its leading and trailing Unicode white space (char.IsWhiteSpace) removed: a slice of the text, with only white space before and after it and none at its own ends, empty iff the text is blank |
| Text.SplitJoin | week06/EternalQuest/Program.cs:327-329 | joining separator-free pieces and splitting again gives the pieces back |

## Left out

- Console output, prompts, menus, `Console.Clear`, emoji messages and `Thread.Sleep` are left out. Console input and file contents are parameters.
- Mindfulness timing is left out: `ShowSpinner`, `ShowCountdown`, the breathing animation, and the `while (DateTime.Now < end)` loops. `AskReflection` takes the number of questions asked as a parameter in place of the clock.
- The listing activity's responses are left out. They are read and counted, then only printed.
- Word.cs is not part of this model. `Word` keeps only its text and hidden flag. Its masked display is an abstract function parameter (`mask`) of `Scriptures.Shown` and `Scriptures.Render`.
- `ListGoalDetails`, the `Start` menu loop of Eternal Quest and the random motivation message are console plumbing. `DetailsString` renders the details text.
- The sample videos and comments built in the YouTube `Main` are left out. `ListVideos` takes any list of videos.
- Journal, OnlineOrdering and ExerciseTracking are not part of this model. They rest on floating point, JSON serialisation and `DateTime`.
- `int.Parse` is modelled as invariant-culture decimal parsing with an optional sign, trimming the white space .NET allows around an integer (U+0009 to U+000D and U+0020). `bool.Parse` trims Unicode white space. .NET culture settings are not modelled.
- `Text.ParseInt`: .NET `int.Parse` also accepts trailing NUL characters (U+0000) after the trailing white space. The model rejects them, so `"5\0"` is a format fault here and 5 in .NET.
- `EternalQuest.GoalManager.CreateGoal` takes the goal kind, points, target and bonus already parsed. The source reads them with `int.Parse` (week06/EternalQuest/Program.cs:200, 207, 219, 221), and a bad kind or points line crashes even for an unknown kind. Those crashes are not modelled.
- `Text.ParseBool`: `bool.Parse` also trims the NUL character U+0000; the model does not, so a saved flag padded with NUL is rejected where .NET would accept it.
- Modelling artefacts:
  - `Memorizer.RunSession` has an `InputExhausted` ending, `Mindfulness.RunSession` has `InputEnded`, and `GuessingGame.Plays` has `OutOfInput`. Each marks where the finite list of modelled console lines runs out. The real console never runs out: past its end, `ReadLine` gives null.
- `GuessingGame.Play` and `ScriptureLibraries.ScriptureLibrary.LoadFromFile` parse every line before their loop runs. Parsing is a pure function of the line, so the outcome is the same as parsing inside the loop. A crash still stops at the first bad line the loop reaches.
- `ScriptureLibraries.ScriptureLibrary.LoadFromFile` states freshness word by word. It does not state it as one set for the whole library.
- `EternalQuest.RecordScores`: the exact score equation is stated only where the sums stay within 32 bits. Beyond that, `Record` wraps (`Wrap32`), and only the wrapped value is modelled.
- `EternalQuest.ChecklistCounts` assumes the count stays below `int.MaxValue`. `RecordGoalEvent` states the wrapped increment for every count.
- `EternalQuest.SaveLoadRoundTrip`, `EternalQuest.GoalLineRoundTrip` and `Mindfulness.SaveLoadRoundTrip` need names and descriptions without the format's separators. A ',' or ':' inside a name breaks the line apart in the source too.
- `EternalQuest.Saveable`: it rules out only the separators ':' and ','. A name or description holding a line break would also split the saved line when the file is read back line by line. The model takes the file as a list of lines and does not model that split.
- `Mindfulness.Saveable`: it rules out only ':'. A name holding a line break is not excluded, for the same reason.
- Reloading goals loses a checklist goal's progress. `SaveGoals` writes the completed count as the sixth field (week06/EternalQuest/Program.cs:139). `LoadGoals` never reads that field (week06/EternalQuest/Program.cs:343-346), so a reloaded checklist goal starts again at 0. `EternalQuest.ChecklistCompletionLost` states this.
