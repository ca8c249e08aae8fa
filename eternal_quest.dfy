/** The Eternal Quest goal tracker: three kinds of goal, a manager that
    scores recorded events and levels up every 1000 points, and the save file
    that holds the score, the level and one line per goal. C# `int`
    arithmetic is unchecked, so every sum and product wraps at 32 bits. */
module EternalQuest {
  import opened Text

  // ------------------------------------------------------------------ goals

  /** A goal. The source's abstract class and its three subclasses become one
      tagged value; recording an event yields the updated goal. */
  datatype Goal =
    | Simple(name: string, description: string, points: int32, isComplete: bool)
    | Eternal(name: string, description: string, points: int32)
    | Checklist(name: string, description: string, points: int32,
                target: int32, bonus: int32, amountCompleted: int32)

  /** Goal.IsComplete: a simple goal once recorded, an eternal goal never, a
      checklist goal once its count reaches the target. */
  predicate IsComplete(g: Goal)
  {
    match g
    case Simple(_, _, _, done) => done
    case Eternal(_, _, _) => false
    case Checklist(_, _, _, target, _, count) => count >= target
  }

  /** The SimpleGoal constructor: not yet complete. */
  function NewSimpleGoal(name: string, description: string, points: int32): (g: Goal)
    ensures g.Simple? && g.name == name && g.description == description && g.points == points
    ensures !IsComplete(g)
  {
    Simple(name, description, points, false)
  }

  /** The EternalGoal constructor. */
  function NewEternalGoal(name: string, description: string, points: int32): (g: Goal)
    ensures g.Eternal? && g.name == name && g.description == description && g.points == points
    ensures !IsComplete(g)
  {
    Eternal(name, description, points)
  }

  /** The ChecklistGoal constructor: nothing done yet, so a target of zero or
      less is complete from the start. */
  function NewChecklistGoal(name: string, description: string, points: int32, target: int32, bonus: int32): (g: Goal)
    ensures g.Checklist? && g.name == name && g.description == description && g.points == points
    ensures g.target == target && g.bonus == bonus && g.amountCompleted == 0
    ensures IsComplete(g) <==> target <= 0
  {
    Checklist(name, description, points, target, bonus, 0)
  }

  /** Goal.RecordEvent: a simple goal becomes complete, an eternal goal is
      unchanged, a checklist goal counts one more (`_amountCompleted++`,
      wrapping at 32 bits). Nothing else about the goal changes. */
  function RecordGoalEvent(g: Goal): (r: Goal)
    ensures r.name == g.name && r.description == g.description && r.points == g.points
    ensures r.Simple? == g.Simple? && r.Eternal? == g.Eternal? && r.Checklist? == g.Checklist?
    ensures g.Simple? ==> IsComplete(r)
    ensures g.Eternal? ==> r == g
    ensures g.Checklist? ==> r == g.(amountCompleted := Wrap32(g.amountCompleted + 1))
  {
    match g
    case Simple(n, d, p, _) => Simple(n, d, p, true)
    case Eternal(_, _, _) => g
    case Checklist(n, d, p, t, b, c) => Checklist(n, d, p, t, b, Wrap32(c + 1))
  }

  /** The goal after `n` recorded events. */
  function RecordTimes(g: Goal, n: nat): Goal
  {
    if n == 0 then g else RecordGoalEvent(RecordTimes(g, n - 1))
  }

  /** A simple goal is complete after any positive number of events, and
      stays so. */
  lemma {:induction false} SimpleStaysComplete(g: Goal, n: nat)
    requires g.Simple? && n > 0
    ensures RecordTimes(g, n).Simple? && IsComplete(RecordTimes(g, n))
  {
    if n > 1 {
      SimpleStaysComplete(g, n - 1);
    }
  }

  /** An eternal goal is never complete, however many events are recorded. */
  lemma {:induction false} EternalNeverComplete(g: Goal, n: nat)
    requires g.Eternal?
    ensures RecordTimes(g, n) == g && !IsComplete(RecordTimes(g, n))
  {
    if n > 0 {
      EternalNeverComplete(g, n - 1);
    }
  }

  /** Each event raises a checklist goal's count by exactly one (while the
      count stays in range), so it is complete after `n` events exactly when
      the old count plus `n` reaches the target. */
  lemma {:induction false} ChecklistCounts(g: Goal, n: nat)
    requires g.Checklist? && g.amountCompleted + n <= INT_MAX
    ensures RecordTimes(g, n) == g.(amountCompleted := g.amountCompleted + n)
    ensures IsComplete(RecordTimes(g, n)) <==> g.amountCompleted + n >= g.target
  {
    if n > 0 {
      ChecklistCounts(g, n - 1);
    }
  }

  /** Goal.GetDetailsString, with the checklist override. */
  function DetailsString(g: Goal): string
  {
    var common := g.name + " (" + g.description + ")";
    if g.Checklist? then
      common + " -- Completed: " + IntToString(g.amountCompleted) + "/" + IntToString(g.target)
    else common
  }

  /** The details start with the name; a checklist's end with its target,
      the others' with the closing parenthesis after the description. */
  lemma DetailsShape(g: Goal)
    ensures |g.name| < |DetailsString(g)| && DetailsString(g)[..|g.name|] == g.name
    ensures g.Checklist? ==>
              (|IntToString(g.target)| <= |DetailsString(g)|
               && DetailsString(g)[|DetailsString(g)| - |IntToString(g.target)|..] == IntToString(g.target))
    ensures !g.Checklist? ==> DetailsString(g)[|DetailsString(g)| - 1] == ')'
  {
  }

  // -------------------------------------------------------------- save lines

  /** The type tag written before the ':'. */
  function Tag(g: Goal): string
  {
    match g
    case Simple(_, _, _, _) => "SimpleGoal"
    case Eternal(_, _, _) => "EternalGoal"
    case Checklist(_, _, _, _, _, _) => "ChecklistGoal"
  }

  /** The ','-separated fields written after the ':'. */
  function Fields(g: Goal): seq<string>
  {
    match g
    case Simple(n, d, p, done) => [n, d, IntToString(p), BoolToString(done)]
    case Eternal(n, d, p) => [n, d, IntToString(p)]
    case Checklist(n, d, p, t, b, c) => [n, d, IntToString(p), IntToString(t), IntToString(b), IntToString(c)]
  }

  /** Goal.GetStringRepresentation. */
  function StringRepresentation(g: Goal): string
  {
    match g
    case Simple(n, d, p, done) =>
      "SimpleGoal:" + n + "," + d + "," + IntToString(p) + "," + BoolToString(done)
    case Eternal(n, d, p) =>
      "EternalGoal:" + n + "," + d + "," + IntToString(p)
    case Checklist(n, d, p, t, b, c) =>
      "ChecklistGoal:" + n + "," + d + "," + IntToString(p) + "," + IntToString(t) + "," + IntToString(b) + "," + IntToString(c)
  }

  /** A goal line is its tag, ':', and its fields joined by ','. */
  lemma RepresentationShape(g: Goal)
    ensures StringRepresentation(g) == Tag(g) + [':'] + Join(Fields(g), ',')
  {
    match g
    case Simple(n, d, p, done) => SimpleShape(n, d, IntToString(p), BoolToString(done));
    case Eternal(n, d, p) => EternalShape(n, d, IntToString(p));
    case Checklist(n, d, p, t, b, c) =>
      ChecklistShape(n, d, IntToString(p), IntToString(t), IntToString(b), IntToString(c));
  }

  lemma SimpleShape(n: string, d: string, ps: string, bs: string)
    ensures "SimpleGoal:" + n + "," + d + "," + ps + "," + bs == "SimpleGoal" + [':'] + Join([n, d, ps, bs], ',')
  {
    JoinCons(ps, [bs], ',');
    JoinCons(d, [ps, bs], ',');
    JoinCons(n, [d, ps, bs], ',');
    Regroup4("SimpleGoal", n, d, ps, bs);
  }

  lemma EternalShape(n: string, d: string, ps: string)
    ensures "EternalGoal:" + n + "," + d + "," + ps == "EternalGoal" + [':'] + Join([n, d, ps], ',')
  {
    JoinCons(d, [ps], ',');
    JoinCons(n, [d, ps], ',');
    Regroup3("EternalGoal", n, d, ps);
  }

  lemma ChecklistShape(n: string, d: string, ps: string, ts: string, bs: string, cs: string)
    ensures "ChecklistGoal:" + n + "," + d + "," + ps + "," + ts + "," + bs + "," + cs
            == "ChecklistGoal" + [':'] + Join([n, d, ps, ts, bs, cs], ',')
  {
    JoinCons(bs, [cs], ',');
    JoinCons(ts, [bs, cs], ',');
    JoinCons(ps, [ts, bs, cs], ',');
    JoinCons(d, [ps, ts, bs, cs], ',');
    JoinCons(n, [d, ps, ts, bs, cs], ',');
    Regroup6("ChecklistGoal", n, d, ps, ts, bs, cs);
  }

  lemma Regroup3(tag: string, a: string, b: string, c: string)
    ensures tag + ":" + a + "," + b + "," + c == tag + [':'] + (a + [','] + (b + [','] + c))
  {
  }

  lemma Regroup4(tag: string, a: string, b: string, c: string, d: string)
    ensures tag + ":" + a + "," + b + "," + c + "," + d
            == tag + [':'] + (a + [','] + (b + [','] + (c + [','] + d)))
  {
    Regroup3(tag, a, b, c + [','] + d);
  }

  lemma Regroup6(tag: string, a: string, b: string, c: string, d: string, e: string, f: string)
    ensures tag + ":" + a + "," + b + "," + c + "," + d + "," + e + "," + f
            == tag + [':'] + (a + [','] + (b + [','] + (c + [','] + (d + [','] + (e + [','] + f)))))
  {
    Regroup4(tag, a, b, c, d + [','] + (e + [','] + f));
  }

  lemma JoinCons(a: string, rest: seq<string>, sep: char)
    requires |rest| > 0
    ensures Join([a] + rest, sep) == a + [sep] + Join(rest, sep)
  {
    assert ([a] + rest)[1..] == rest;
  }

  /** What the loader makes of one goal line. */
  datatype GoalLine =
    | ParsedGoal(goal: Goal)
    | UnknownType      // a tag none of the cases names: the line is skipped
    | Malformed        // a missing field or a bad number: an uncaught exception

  /** The body of the LoadGoals loop for one line: the tag is the text before
      the first ':', the fields are the text between the first and second
      ':' cut at ','. */
  function ParseGoalLine(line: string): (r: GoalLine)
    ensures |Split(line, ':')| < 2 ==> r == Malformed
  {
    var parts := Split(line, ':');
    if |parts| < 2 then Malformed
    else ParseGoalFields(parts[0], Split(parts[1], ','))
  }

  /** The switch on the tag. A checklist's saved count (its sixth field) is
      never read, and a saved "True" is restored by recording an event on a
      fresh simple goal. */
  function ParseGoalFields(tag: string, data: seq<string>): (r: GoalLine)
    ensures r.ParsedGoal? ==> Tag(r.goal) == tag
    ensures r.ParsedGoal? ==> |data| >= 3 && r.goal.name == data[0] && r.goal.description == data[1]
    ensures r.ParsedGoal? && r.goal.Checklist? ==> r.goal.amountCompleted == 0
    ensures tag !in {"SimpleGoal", "EternalGoal", "ChecklistGoal"} ==> r == UnknownType
  {
    if tag == "SimpleGoal" then ParseSimpleFields(data)
    else if tag == "EternalGoal" then ParseEternalFields(data)
    else if tag == "ChecklistGoal" then ParseChecklistFields(data)
    else UnknownType
  }

  /** A simple goal's fields: name, description, points, done. */
  function ParseSimpleFields(data: seq<string>): (r: GoalLine)
    ensures r.ParsedGoal? ==> |data| >= 4 && r.goal.Simple? && r.goal.name == data[0] && r.goal.description == data[1]
    ensures r.ParsedGoal? ==> ParseInt(data[2]) == Parsed(r.goal.points) && ParseBool(data[3]) == Parsed(r.goal.isComplete)
    ensures !r.ParsedGoal? ==> r == Malformed
  {
    if |data| < 4 then Malformed
    else
      match (ParseInt(data[2]), ParseBool(data[3]))
      case (Parsed(p), Parsed(done)) =>
        var simple := NewSimpleGoal(data[0], data[1], p);
        ParsedGoal(if done then RecordGoalEvent(simple) else simple)
      case _ => Malformed
  }

  /** An eternal goal's fields: name, description, points. */
  function ParseEternalFields(data: seq<string>): (r: GoalLine)
    ensures r.ParsedGoal? ==> |data| >= 3 && r.goal.Eternal? && r.goal.name == data[0] && r.goal.description == data[1]
    ensures r.ParsedGoal? ==> ParseInt(data[2]) == Parsed(r.goal.points)
    ensures !r.ParsedGoal? ==> r == Malformed
  {
    if |data| < 3 then Malformed
    else
      match ParseInt(data[2])
      case Parsed(p) => ParsedGoal(NewEternalGoal(data[0], data[1], p))
      case _ => Malformed
  }

  /** A checklist goal's fields: name, description, points, target, bonus;
      the saved count that follows is never read. */
  function ParseChecklistFields(data: seq<string>): (r: GoalLine)
    ensures r.ParsedGoal? ==> |data| >= 5 && r.goal.Checklist? && r.goal.name == data[0] && r.goal.description == data[1]
    ensures r.ParsedGoal? ==> ParseInt(data[2]) == Parsed(r.goal.points) && ParseInt(data[3]) == Parsed(r.goal.target)
    ensures r.ParsedGoal? ==> ParseInt(data[4]) == Parsed(r.goal.bonus) && r.goal.amountCompleted == 0
    ensures !r.ParsedGoal? ==> r == Malformed
  {
    if |data| < 5 then Malformed
    else
      match (ParseInt(data[2]), ParseInt(data[3]), ParseInt(data[4]))
      case (Parsed(p), Parsed(t), Parsed(b)) => ParsedGoal(NewChecklistGoal(data[0], data[1], p, t, b))
      case _ => Malformed
  }

  /** The goals of the goal lines in order, unknown tags skipped; None as
      soon as a line is malformed (the exception ends the load). */
  function CollectGoals(lines: seq<string>): Option<seq<Goal>>
  {
    if lines == [] then Some([])
    else
      match CollectGoals(lines[..|lines| - 1])
      case None => None
      case Some(goals) =>
        match ParseGoalLine(lines[|lines| - 1])
        case ParsedGoal(g) => Some(goals + [g])
        case UnknownType => Some(goals)
        case Malformed => None
  }

  // ------------------------------------------------------------- the manager

  /** The manager's state as a value: goal list, score and level. */
  datatype Quest = Quest(goals: seq<Goal>, score: int32, level: int32)

  /** A new manager: no goals, score 0, level 1. */
  function InitialQuest(): (q: Quest)
    ensures q.goals == [] && q.score == 0 && q.level == 1
  {
    Quest([], 0, 1)
  }

  /** GoalManager.RecordEvent with the typed number already turned into an
      index: outside [0, count) nothing happens; otherwise the goal records
      the event, its points are added, a checklist's bonus is added when it
      is complete after the event, and the level rises by one when the score
      reaches level * 1000 (all 32-bit). */
  function Record(q: Quest, index: int): (r: Quest)
    ensures !(0 <= index < |q.goals|) ==> r == q
    ensures 0 <= index < |q.goals| ==> r.goals == q.goals[index := RecordGoalEvent(q.goals[index])]
  {
    if |q.goals| == 0 || index < 0 || index >= |q.goals| then q
    else
      var goal := RecordGoalEvent(q.goals[index]);
      var score := Wrap32(q.score + goal.points);
      var score' := if goal.Checklist? && IsComplete(goal) then Wrap32(score + goal.bonus) else score;
      var level := if score' >= Wrap32(q.level * 1000) then Wrap32(q.level + 1) else q.level;
      Quest(q.goals[index := goal], score', level)
  }

  /** The points a valid record earns: the goal's points, plus the bonus of a
      checklist goal that is complete after the event. */
  function Earned(g: Goal): int
  {
    var after := RecordGoalEvent(g);
    g.points + (if after.Checklist? && IsComplete(after) then after.bonus else 0)
  }

  /** Without overflow, a valid record raises the score by exactly what the
      goal earns; a completed simple goal earns its points again, and a
      checklist goal past its target earns its bonus again. */
  lemma RecordScores(q: Quest, index: int)
    requires 0 <= index < |q.goals|
    requires INT_MIN <= q.score + q.goals[index].points <= INT_MAX
    requires INT_MIN <= q.score + Earned(q.goals[index]) <= INT_MAX
    ensures Record(q, index).score == q.score + Earned(q.goals[index])
    ensures q.goals[index].Simple? ==> Earned(q.goals[index]) == q.goals[index].points
    ensures q.goals[index].Checklist? && q.goals[index].amountCompleted < INT_MAX
            && q.goals[index].amountCompleted + 1 >= q.goals[index].target
            ==> Earned(q.goals[index]) == q.goals[index].points + q.goals[index].bonus
  {
  }

  /** A record raises the level by at most one, and does so exactly when the
      new score reaches the (32-bit) product of the old level and 1000. */
  lemma RecordLevels(q: Quest, index: int)
    requires 0 <= index < |q.goals|
    ensures Record(q, index).level == q.level || Record(q, index).level == Wrap32(q.level + 1)
    ensures Record(q, index).level != q.level <==> Record(q, index).score >= Wrap32(q.level * 1000)
  {
    WrapNext(q.level);
  }

  /** Adding one always changes a 32-bit value: INT_MAX wraps to INT_MIN. */
  lemma WrapNext(n: int32)
    ensures Wrap32(n + 1) != n
  {
    if n < INT_MAX {
      assert Wrap32(n + 1) == n + 1;
    } else {
      var r := Wrap32(n + 1);
      assert (n + 1 - r) % 0x1_0000_0000 == 0;
      assert n + 1 - r >= 1;
    }
  }

  /** SaveGoals: the score, the level, then one line per goal in order. */
  function SaveLines(q: Quest): (lines: seq<string>)
    ensures |lines| == |q.goals| + 2
    ensures lines[0] == IntToString(q.score) && lines[1] == IntToString(q.level)
    ensures forall k :: 0 <= k < |q.goals| ==> lines[k + 2] == StringRepresentation(q.goals[k])
  {
    [IntToString(q.score), IntToString(q.level)] + Map(StringRepresentation, q.goals)
  }

  /** LoadGoals on the lines of an existing file: None when the program would
      crash (fewer than two lines, a bad number, a malformed goal line). */
  function LoadQuest(lines: seq<string>): (r: Option<Quest>)
    ensures |lines| < 2 ==> r == None
  {
    if |lines| < 2 then None
    else
      match (ParseInt(lines[0]), ParseInt(lines[1]))
      case (Parsed(score), Parsed(level)) =>
        (match CollectGoals(lines[2..])
         case Some(goals) => Some(Quest(goals, score, level))
         case None => None)
      case _ => None
  }

  /** What a goal becomes after a save and a load: the same, except that a
      checklist goal's count is back to zero. */
  function Reloaded(g: Goal): (r: Goal)
    ensures !g.Checklist? ==> r == g
    ensures g.Checklist? ==> r == g.(amountCompleted := 0)
  {
    if g.Checklist? then g.(amountCompleted := 0) else g
  }

  /** Names and descriptions that survive the save format. */
  predicate Saveable(g: Goal)
  {
    ':' !in g.name && ',' !in g.name && ':' !in g.description && ',' !in g.description
  }

  lemma FieldsClean(g: Goal)
    requires Saveable(g)
    ensures |Fields(g)| > 0
    ensures forall i :: 0 <= i < |Fields(g)| ==> ',' !in Fields(g)[i] && ':' !in Fields(g)[i]
    ensures ':' !in Join(Fields(g), ',')
  {
    match g {
      case Simple(_, _, p, done) =>
        NumberClean(p);
      case Eternal(_, _, p) =>
        NumberClean(p);
      case Checklist(_, _, p, t, b, c) =>
        NumberClean(p);
        NumberClean(t);
        NumberClean(b);
        NumberClean(c);
    }
    JoinWithout(Fields(g), ',', ':');
  }

  /** A rendered number holds neither separator. */
  lemma NumberClean(n: int)
    ensures ',' !in IntToString(n) && ':' !in IntToString(n)
  {
    var s := IntToString(n);
    if n < 0 {
      assert s == [s[0]] + s[1..];
    }
  }

  /** Joining pieces that lack a character gives a string that lacks it,
      unless it is the separator. */
  lemma {:induction false} JoinWithout(parts: seq<string>, sep: char, c: char)
    requires c != sep
    requires forall i :: 0 <= i < |parts| ==> c !in parts[i]
    ensures c !in Join(parts, sep)
  {
    if |parts| > 1 {
      JoinWithout(parts[1..], sep, c);
    }
  }

  /** A saved goal line splits back into its tag and its fields. */
  lemma GoalLineSplits(g: Goal)
    requires Saveable(g)
    ensures ParseGoalLine(StringRepresentation(g)) == ParseGoalFields(Tag(g), Fields(g))
  {
    var fs := Fields(g);
    var body := Join(fs, ',');
    RepresentationShape(g);
    FieldsClean(g);
    assert ':' !in Tag(g);
    SplitAtFirst(Tag(g), body, ':');
    SplitWithout(body, ':');
    assert Split(StringRepresentation(g), ':') == [Tag(g), body];
    SplitJoin(fs, ',');
  }

  /** The fields of a goal parse back as the goal, its checklist count reset. */
  lemma GoalFieldsRoundTrip(g: Goal)
    ensures ParseGoalFields(Tag(g), Fields(g)) == ParsedGoal(Reloaded(g))
  {
    match g
    case Simple(n, d, p, done) => SimpleFieldsRoundTrip(n, d, p, done);
    case Eternal(n, d, p) => EternalFieldsRoundTrip(n, d, p);
    case Checklist(n, d, p, t, b, c) => ChecklistFieldsRoundTrip(n, d, p, t, b, c);
  }

  lemma SimpleFieldsRoundTrip(n: string, d: string, p: int32, done: bool)
    ensures ParseGoalFields("SimpleGoal", [n, d, IntToString(p), BoolToString(done)]) == ParsedGoal(Simple(n, d, p, done))
  {
    SimpleDispatch([n, d, IntToString(p), BoolToString(done)]);
    SimpleFieldsParse(n, d, p, done);
  }

  lemma SimpleDispatch(data: seq<string>)
    ensures ParseGoalFields("SimpleGoal", data) == ParseSimpleFields(data)
  {
  }

  lemma SimpleFieldsParse(n: string, d: string, p: int32, done: bool)
    ensures ParseSimpleFields([n, d, IntToString(p), BoolToString(done)]) == ParsedGoal(Simple(n, d, p, done))
  {
    ParseIntRoundTrip(p);
    ParseBoolRoundTrip(done);
  }

  lemma EternalFieldsRoundTrip(n: string, d: string, p: int32)
    ensures ParseGoalFields("EternalGoal", [n, d, IntToString(p)]) == ParsedGoal(Eternal(n, d, p))
  {
    EternalDispatch([n, d, IntToString(p)]);
    EternalFieldsParse(n, d, p);
  }

  lemma EternalDispatch(data: seq<string>)
    ensures ParseGoalFields("EternalGoal", data) == ParseEternalFields(data)
  {
  }

  lemma EternalFieldsParse(n: string, d: string, p: int32)
    ensures ParseEternalFields([n, d, IntToString(p)]) == ParsedGoal(Eternal(n, d, p))
  {
    ParseIntRoundTrip(p);
  }

  lemma ChecklistFieldsRoundTrip(n: string, d: string, p: int32, t: int32, b: int32, c: int32)
    ensures ParseGoalFields("ChecklistGoal", [n, d, IntToString(p), IntToString(t), IntToString(b), IntToString(c)])
            == ParsedGoal(Checklist(n, d, p, t, b, 0))
  {
    ChecklistDispatch([n, d, IntToString(p), IntToString(t), IntToString(b), IntToString(c)]);
    ChecklistFieldsParse(n, d, p, t, b, c);
  }

  lemma ChecklistDispatch(data: seq<string>)
    ensures ParseGoalFields("ChecklistGoal", data) == ParseChecklistFields(data)
  {
  }

  lemma ChecklistFieldsParse(n: string, d: string, p: int32, t: int32, b: int32, c: int32)
    ensures ParseChecklistFields([n, d, IntToString(p), IntToString(t), IntToString(b), IntToString(c)])
            == ParsedGoal(Checklist(n, d, p, t, b, 0))
  {
    ParseIntRoundTrip(p);
    ParseIntRoundTrip(t);
    ParseIntRoundTrip(b);
  }

  /** One goal line reads back as the goal, its checklist count reset. */
  lemma GoalLineRoundTrip(g: Goal)
    requires Saveable(g)
    ensures ParseGoalLine(StringRepresentation(g)) == ParsedGoal(Reloaded(g))
  {
    GoalLineSplits(g);
    GoalFieldsRoundTrip(g);
  }

  /** Goal lines written from saveable goals load back as those goals,
      each checklist count reset. */
  lemma {:induction false} GoalLinesRoundTrip(goals: seq<Goal>)
    requires forall k :: 0 <= k < |goals| ==> Saveable(goals[k])
    ensures CollectGoals(Map(StringRepresentation, goals)) == Some(Map(Reloaded, goals))
  {
    if goals != [] {
      var n := |goals| - 1;
      var init, g := goals[..n], goals[n];
      assert goals == init + [g];
      assert Map(StringRepresentation, goals) == Map(StringRepresentation, init) + [StringRepresentation(g)] by {
        MapSnoc(StringRepresentation, init, g);
      }
      assert Map(Reloaded, goals) == Map(Reloaded, init) + [Reloaded(g)] by {
        MapSnoc(Reloaded, init, g);
      }
      assert CollectGoals(Map(StringRepresentation, init) + [StringRepresentation(g)])
             == Some(Map(Reloaded, init) + [Reloaded(g)]) by {
        GoalLinesRoundTrip(init);
        GoalLineRoundTrip(g);
        CollectSnoc(Map(StringRepresentation, init), StringRepresentation(g), Map(Reloaded, init), Reloaded(g));
      }
    }
  }

  lemma CollectSnoc(lines: seq<string>, line: string, goals: seq<Goal>, g: Goal)
    requires CollectGoals(lines) == Some(goals) && ParseGoalLine(line) == ParsedGoal(g)
    ensures CollectGoals(lines + [line]) == Some(goals + [g])
  {
    assert (lines + [line])[..|lines|] == lines;
  }

  /** Saving and loading gives back the score, the level and every goal, in
      order, provided no name or description holds ':' or ','; the one loss
      is that each checklist goal's count restarts at zero. */
  lemma SaveLoadRoundTrip(q: Quest)
    requires forall k :: 0 <= k < |q.goals| ==> Saveable(q.goals[k])
    ensures LoadQuest(SaveLines(q)) == Some(Quest(Map(Reloaded, q.goals), q.score, q.level))
  {
    var lines := SaveLines(q);
    ParseIntRoundTrip(q.score);
    ParseIntRoundTrip(q.level);
    assert lines[2..] == Map(StringRepresentation, q.goals);
    GoalLinesRoundTrip(q.goals);
    LoadQuestLoaded(lines, q.score, q.level, Map(Reloaded, q.goals));
  }

  /** The round trip loses completion: a checklist goal that has reached a
      positive target is complete before the save and incomplete after the
      load. */
  lemma ChecklistCompletionLost(g: Goal)
    requires g.Checklist? && 0 < g.target <= g.amountCompleted
    ensures IsComplete(g) && !IsComplete(Reloaded(g))
  {
  }

  // ------------------------------------------------------------ the object

  class GoalManager {
    var goals: seq<Goal>
    var score: int32
    var level: int32

    /** Score 0, level 1, no goals. */
    constructor ()
      ensures State() == InitialQuest()
    {
      goals, score, level := [], 0, 1;
    }

    function State(): Quest
      reads this
    {
      Quest(goals, score, level)
    }

    /** CreateGoal with the typed goal kind and fields: 1, 2 and 3 add a
        simple, eternal or checklist goal at the end of the list (the target
        and bonus are read only for 3); any other number adds nothing. */
    method CreateGoal(kind: int32, name: string, description: string, points: int32, target: int32, bonus: int32)
      modifies this
      ensures score == old(score) && level == old(level)
      ensures kind == 1 ==> goals == old(goals) + [NewSimpleGoal(name, description, points)]
      ensures kind == 2 ==> goals == old(goals) + [NewEternalGoal(name, description, points)]
      ensures kind == 3 ==> goals == old(goals) + [NewChecklistGoal(name, description, points, target, bonus)]
      ensures kind !in {1, 2, 3} ==> goals == old(goals)
    {
      if kind == 1 {
        goals := goals + [NewSimpleGoal(name, description, points)];
      } else if kind == 2 {
        goals := goals + [NewEternalGoal(name, description, points)];
      } else if kind == 3 {
        goals := goals + [NewChecklistGoal(name, description, points, target, bonus)];
      }
    }

    /** RecordEvent for the goal at `index` (the typed number minus one). */
    method RecordEvent(index: int)
      modifies this
      ensures State() == Record(old(State()), index)
    {
      if |goals| == 0 {
        return;
      }
      if index < 0 || index >= |goals| {
        return;
      }
      var goal := RecordGoalEvent(goals[index]);
      goals := goals[index := goal];
      score := Wrap32(score + goal.points);
      if goal.Checklist? && IsComplete(goal) {
        score := Wrap32(score + goal.bonus);
      }
      if score >= Wrap32(level * 1000) {
        level := Wrap32(level + 1);
      }
    }

    /** SaveGoals: the lines written to the file. */
    method SaveGoals() returns (lines: seq<string>)
      ensures lines == SaveLines(State())
    {
      lines := [IntToString(score), IntToString(level)];
      var i := 0;
      while i < |goals|
        invariant 0 <= i <= |goals|
        invariant lines == [IntToString(score), IntToString(level)] + Map(StringRepresentation, goals[..i])
      {
        assert goals[..i + 1] == goals[..i] + [goals[i]];
        MapAppend(StringRepresentation, goals[..i], [goals[i]]);
        lines := lines + [StringRepresentation(goals[i])];
        i := i + 1;
      }
      assert goals[..i] == goals;
    }

    /** LoadGoals: a missing file (None) changes nothing; otherwise the
        score, the level and the goal list are replaced by what the lines
        hold, or `crashed` reports the exception that ends the program. */
    method LoadGoals(file: Option<seq<string>>) returns (crashed: bool)
      modifies this
      ensures file.None? ==> !crashed && State() == old(State())
      ensures file.Some? ==> (crashed <==> LoadQuest(file.value).None?)
      ensures file.Some? && !crashed ==> State() == LoadQuest(file.value).value
    {
      crashed := false;
      if file.None? {
        return;
      }
      var lines := file.value;
      if |lines| < 2 {
        return true;
      }
      match ParseInt(lines[0]) {
        case Parsed(s) => score := s;
        case _ => return true;
      }
      match ParseInt(lines[1]) {
        case Parsed(l) => level := l;
        case _ => return true;
      }
      goals := [];
      ghost var rest := lines[2..];
      var i := 2;
      while i < |lines|
        invariant 2 <= i <= |lines|
        invariant ParseInt(lines[0]) == Parsed(score) && ParseInt(lines[1]) == Parsed(level)
        invariant CollectGoals(rest[..i - 2]) == Some(goals)
      {
        assert rest[i - 2] == lines[i];
        CollectGoalsStep(rest, i - 2, goals);
        match ParseGoalLine(lines[i]) {
          case ParsedGoal(g) => goals := goals + [g];
          case UnknownType =>
          case Malformed =>
            CollectMalformed(rest, i - 1);
            return true;
        }
        i := i + 1;
      }
      assert rest[..i - 2] == rest;
      LoadQuestLoaded(lines, score, level, goals);
    }
  }

  /** How LoadQuest puts the parsed header and goal lines together. */
  lemma LoadQuestLoaded(lines: seq<string>, score: int32, level: int32, goals: seq<Goal>)
    requires |lines| >= 2 && ParseInt(lines[0]) == Parsed(score) && ParseInt(lines[1]) == Parsed(level)
    requires CollectGoals(lines[2..]) == Some(goals)
    ensures LoadQuest(lines) == Some(Quest(goals, score, level))
  {
  }

  /** One more goal line: its goal is appended, an unknown tag is skipped
      and a malformed line fails the load. */
  lemma CollectGoalsStep(lines: seq<string>, k: nat, goals: seq<Goal>)
    requires k < |lines| && CollectGoals(lines[..k]) == Some(goals)
    ensures ParseGoalLine(lines[k]).ParsedGoal? ==> CollectGoals(lines[..k + 1]) == Some(goals + [ParseGoalLine(lines[k]).goal])
    ensures ParseGoalLine(lines[k]).UnknownType? ==> CollectGoals(lines[..k + 1]) == Some(goals)
  {
    assert lines[..k + 1][..k] == lines[..k];
  }

  /** A malformed line anywhere makes the whole load fail. */
  lemma {:induction false} CollectMalformed(lines: seq<string>, k: nat)
    requires 0 < k <= |lines| && ParseGoalLine(lines[k - 1]) == Malformed
    ensures CollectGoals(lines) == None
    decreases |lines|
  {
    if k < |lines| {
      CollectMalformed(lines[..|lines| - 1], k);
    }
  }
}
