/** The passage library: parsing citations, reading the `Reference|Text`
    lines of the library file, and picking a passage at random. */
module ScriptureLibraries {
  import opened Text
  import opened References
  import opened Scriptures

  // ------------------------------------------------------ citation parsing

  /** ScriptureLibrary.ParseReference: the book is everything before the last
      space, the rest must be "chapter:verse" with exactly one ':'. A
      malformed citation is a FormatException; a number out of the int range
      is an OverflowException. */
  function ParseReference(refString: string): (r: Parsed<Reference>)
    ensures ' ' !in refString ==> r == FormatFault
    ensures ' ' in refString && |ChapterVerseParts(refString)| != 2 ==> r == FormatFault
    ensures ' ' in refString && |ChapterVerseParts(refString)| == 2 ==>
              (ParseInt(ChapterVerseParts(refString)[0]).FormatFault? ==> r == FormatFault) &&
              (ParseInt(ChapterVerseParts(refString)[0]).OverflowFault? ==> r == OverflowFault)
    ensures r.Parsed? ==> r.value.book == refString[..LastIndexOf(refString, ' ')]
    ensures r.Parsed? ==> ParseInt(ChapterVerseParts(refString)[0]).Parsed?
                          && r.value.chapter == ParseInt(ChapterVerseParts(refString)[0]).value
    ensures r.Parsed? ==> (r.value.endVerse.Some? <==> '-' in ChapterVerseParts(refString)[1])
  {
    var lastSpaceIndex := LastIndexOf(refString, ' ');
    if lastSpaceIndex == -1 then FormatFault
    else
      var book := refString[..lastSpaceIndex];
      var chapterAndVerse := refString[lastSpaceIndex + 1..];
      var chapterVerseParts := Split(chapterAndVerse, ':');
      if |chapterVerseParts| != 2 then FormatFault
      else
        var chapter :- ParseInt(chapterVerseParts[0]);
        ParseVerses(book, chapter, chapterVerseParts[1])
  }

  /** The ':'-separated pieces of what follows the last space of a citation. */
  function ChapterVerseParts(refString: string): seq<string>
    requires ' ' in refString
  {
    Split(refString[LastIndexOf(refString, ' ') + 1..], ':')
  }

  /** The verse part of ParseReference: with a '-' it is a range built from
      the first two '-'-separated pieces (any further pieces are ignored),
      otherwise a single verse. */
  function ParseVerses(book: string, chapter: int32, versePart: string): (r: Parsed<Reference>)
    ensures r.Parsed? ==> r.value.book == book && r.value.chapter == chapter
    ensures r.Parsed? ==> (r.value.endVerse.Some? <==> '-' in versePart)
  {
    if '-' in versePart then
      var verseRange := Split(versePart, '-');
      var startVerse :- ParseInt(verseRange[0]);
      var endVerse :- ParseInt(verseRange[1]);
      Parsed(VerseRange(book, chapter, startVerse, endVerse))
    else
      var verse :- ParseInt(versePart);
      Parsed(SingleVerse(book, chapter, verse))
  }

  /** A rendered citation splits into its book, its chapter and its verse
      part, whatever the book holds. */
  lemma ParseDisplaySplits(r: Reference)
    ensures ParseReference(DisplayText(r)) == ParseVerses(r.book, r.chapter, VerseText(r))
  {
    var chapterText := IntToString(r.chapter);
    var versePart := VerseText(r);
    var rest := chapterText + [':'] + versePart;
    assert DisplayText(r) == r.book + [' '] + rest;
    ParseSplits(r.book, r.chapter, versePart);
  }

  /** "book chapter:verses" is cut at its last space and its one ':'. */
  lemma ParseSplits(book: string, chapter: int32, versePart: string)
    requires ':' !in versePart && ' ' !in versePart
    ensures ParseReference(book + [' '] + (IntToString(chapter) + [':'] + versePart))
              == ParseVerses(book, chapter, versePart)
  {
    var chapterText := IntToString(chapter);
    var rest := chapterText + [':'] + versePart;
    var s := book + [' '] + rest;
    assert ' ' !in chapterText;
    assert ' ' !in rest;
    LastIndexOfAt(book, ' ', rest);
    assert s[..|book|] == book;
    assert s[|book| + 1..] == rest;
    assert ':' !in chapterText;
    SplitAtFirst(chapterText, versePart, ':');
    SplitWithout(versePart, ':');
    assert Split(rest, ':') == [chapterText, versePart];
    ParseIntRoundTrip(chapter);
  }

  /** The rendered verse part: "Verse" or "Start-End". */
  function VerseText(r: Reference): (t: string)
    ensures ':' !in t && ' ' !in t
  {
    IntToString(r.verse) + (if r.endVerse.Some? then "-" + IntToString(r.endVerse.value) else "")
  }

  /** A single verse reads back exactly when it is non-negative. */
  lemma SingleVerseRoundTrip(book: string, chapter: int32, verse: int32)
    ensures ParseVerses(book, chapter, IntToString(verse)) == Parsed(SingleVerse(book, chapter, verse)) <==> verse >= 0
  {
    var t := IntToString(verse);
    if verse >= 0 {
      ParseIntRoundTrip(verse);
      assert '-' !in t;
    } else {
      LeadingDashSplits(t);
    }
  }

  /** A verse range reads back exactly when both ends are non-negative. */
  lemma VerseRangeRoundTrip(book: string, chapter: int32, startVerse: int32, endVerse: int32)
    ensures ParseVerses(book, chapter, IntToString(startVerse) + "-" + IntToString(endVerse))
              == Parsed(VerseRange(book, chapter, startVerse, endVerse))
            <==> startVerse >= 0 && endVerse >= 0
  {
    var startText := IntToString(startVerse);
    var endText := IntToString(endVerse);
    var versePart := startText + "-" + endText;
    assert versePart[|startText|] == '-';
    if startVerse >= 0 {
      assert '-' !in startText;
      SplitAtFirst(startText, endText, '-');
      ParseIntRoundTrip(startVerse);
      assert ParseInt(Split(versePart, '-')[0]) == Parsed(startVerse);
      if endVerse >= 0 {
        SplitWithout(endText, '-');
        assert Split(versePart, '-') == [startText, endText];
        ParseIntRoundTrip(endVerse);
        assert ParseInt(Split(versePart, '-')[1]) == Parsed(endVerse);
      } else {
        LeadingDashSplits(endText);
        assert Split(versePart, '-')[1] == "";
      }
    } else {
      LeadingDashSplits(versePart);
    }
  }

  /** Text starting with '-' has an empty first '-'-separated piece, which
      does not parse as a number. */
  lemma LeadingDashSplits(t: string)
    requires |t| > 0 && t[0] == '-'
    ensures |Split(t, '-')| >= 2 && Split(t, '-')[0] == "" && ParseInt(Split(t, '-')[0]) == FormatFault
  {
    assert t == [] + ['-'] + t[1..];
    SplitAtFirst([], t[1..], '-');
  }

  /** The verse part reads back as the citation's verses exactly when they
      are non-negative. */
  lemma ParseVersesRoundTrip(r: Reference)
    ensures ParseVerses(r.book, r.chapter, VerseText(r)) == Parsed(r) <==> NonNegativeVerses(r)
  {
    match r.endVerse
    case None =>
      assert VerseText(r) == IntToString(r.verse);
      assert r == SingleVerse(r.book, r.chapter, r.verse);
      SingleVerseRoundTrip(r.book, r.chapter, r.verse);
    case Some(e) =>
      assert VerseText(r) == IntToString(r.verse) + "-" + IntToString(e);
      assert r == VerseRange(r.book, r.chapter, r.verse, e);
      VerseRangeRoundTrip(r.book, r.chapter, r.verse, e);
  }

  /** Parsing the rendering of a citation gives the citation back exactly when
      its verse numbers are non-negative: a negative verse renders a '-' that
      the parser reads as a range separator. The book may be any text, spaces
      included, and the chapter any int. */
  lemma ParseDisplayRoundTrip(r: Reference)
    ensures ParseReference(DisplayText(r)) == Parsed(r) <==> NonNegativeVerses(r)
  {
    ParseDisplaySplits(r);
    ParseVersesRoundTrip(r);
  }

  // ------------------------------------------------------ library file lines

  /** A loaded passage: its citation and its (trimmed) text. */
  datatype Entry = Entry(reference: Reference, text: string)

  /** What the loader does with one line of the file. */
  datatype LineOutcome =
    | Skipped                          // blank, or not exactly one '|'
    | Rejected(rawReference: string)   // FormatException, reported and skipped
    | Accepted(entry: Entry)
    | Overflowed                       // OverflowException, not caught

  function ProcessLine(line: string): (o: LineOutcome)
    ensures IsBlank(line) ==> o == Skipped
    ensures !IsBlank(line) && |Split(line, '|')| != 2 ==> o == Skipped
    ensures !IsBlank(line) && |Split(line, '|')| == 2 ==>
              (ParseReference(Trim(Split(line, '|')[0])).Parsed? ==>
                 o == Accepted(Entry(ParseReference(Trim(Split(line, '|')[0])).value, Trim(Split(line, '|')[1])))) &&
              (ParseReference(Trim(Split(line, '|')[0])).FormatFault? ==> o == Rejected(Split(line, '|')[0])) &&
              (ParseReference(Trim(Split(line, '|')[0])).OverflowFault? ==> o == Overflowed)
  {
    if IsBlank(line) then Skipped
    else
      var parts := Split(line, '|');
      if |parts| != 2 then Skipped
      else
        match ParseReference(Trim(parts[0]))
        case Parsed(reference) => Accepted(Entry(reference, Trim(parts[1])))
        case FormatFault => Rejected(parts[0])
        case OverflowFault => Overflowed
  }

  /** The result of loading a whole file: the passages in file order and the
      raw citations reported as invalid, or a crash when an overflowing
      number escapes the loader. */
  datatype LoadResult = Loaded(entries: seq<Entry>, rejected: seq<string>) | Crashed

  /** The outcome of each line, in file order. */
  function Outcomes(lines: seq<string>): (os: seq<LineOutcome>)
  {
    Map(ProcessLine, lines)
  }

  /** Folds the line outcomes in order: passages and reports are appended,
      skipped lines leave the result alone, and an overflow ends the load. */
  function Collect(outcomes: seq<LineOutcome>): LoadResult
  {
    if outcomes == [] then Loaded([], [])
    else
      var acc := Collect(outcomes[..|outcomes| - 1]);
      match acc
      case Crashed => Crashed
      case Loaded(entries, rejected) =>
        match outcomes[|outcomes| - 1]
        case Skipped => acc
        case Rejected(raw) => Loaded(entries, rejected + [raw])
        case Accepted(e) => Loaded(entries + [e], rejected)
        case Overflowed => Crashed
  }

  /** ScriptureLibrary.LoadFromFile on the lines of an existing file. */
  function LoadLines(lines: seq<string>): LoadResult
  {
    Collect(Outcomes(lines))
  }

  /** One more outcome in the fold. */
  lemma CollectStep(outcomes: seq<LineOutcome>, i: nat, entries: seq<Entry>, rejected: seq<string>)
    requires i < |outcomes| && Collect(outcomes[..i]) == Loaded(entries, rejected)
    ensures outcomes[i].Skipped? ==> Collect(outcomes[..i + 1]) == Loaded(entries, rejected)
    ensures outcomes[i].Rejected? ==> Collect(outcomes[..i + 1]) == Loaded(entries, rejected + [outcomes[i].rawReference])
    ensures outcomes[i].Accepted? ==> Collect(outcomes[..i + 1]) == Loaded(entries + [outcomes[i].entry], rejected)
    ensures outcomes[i].Overflowed? ==> Collect(outcomes[..i + 1]) == Crashed
  {
    assert outcomes[..i + 1][..i] == outcomes[..i];
  }

  /** A crash in the first outcomes is a crash of the whole fold. */
  lemma CollectCrashes(outcomes: seq<LineOutcome>, i: nat)
    requires i < |outcomes| && Collect(outcomes[..i + 1]) == Crashed
    ensures Collect(outcomes) == Crashed
  {
    CollectShape(outcomes[..i + 1]);
    var j :| 0 <= j < i + 1 && outcomes[..i + 1][j] == Overflowed;
    assert outcomes[j] == Overflowed;
    CollectShape(outcomes);
  }

  /** Each outcome adds at most one passage or one report, and the fold
      crashes exactly when some outcome is an overflow. */
  lemma {:induction false} CollectShape(outcomes: seq<LineOutcome>)
    ensures Collect(outcomes).Loaded? ==> |Collect(outcomes).entries| + |Collect(outcomes).rejected| <= |outcomes|
    ensures Collect(outcomes).Crashed? <==> Overflowed in outcomes
  {
    if outcomes != [] {
      var init := outcomes[..|outcomes| - 1];
      CollectShape(init);
      assert outcomes == init + [outcomes[|outcomes| - 1]];
    }
  }

  /** Each line yields at most one passage or one report, so nothing is
      invented; and the load crashes exactly when some line overflows. */
  lemma LoadLinesShape(lines: seq<string>)
    ensures LoadLines(lines).Loaded? ==> |LoadLines(lines).entries| + |LoadLines(lines).rejected| <= |lines|
    ensures LoadLines(lines).Crashed? <==> exists i :: 0 <= i < |lines| && ProcessLine(lines[i]) == Overflowed
  {
    var os := Outcomes(lines);
    CollectShape(os);
    assert Overflowed in os <==> exists i :: 0 <= i < |lines| && os[i] == Overflowed;
  }

  /** Folding two runs of outcomes: a rejected or skipped line does not stop
      the lines after it from being processed. */
  lemma {:induction false} CollectAppend(a: seq<LineOutcome>, b: seq<LineOutcome>)
    requires Collect(a).Loaded? && Collect(b).Loaded?
    ensures Collect(a + b) == Loaded(Collect(a).entries + Collect(b).entries,
                                     Collect(a).rejected + Collect(b).rejected)
  {
    if b == [] {
      assert a + b == a;
    } else {
      var init := b[..|b| - 1];
      assert (a + b)[..|a + b| - 1] == a + init;
      assert (a + b)[|a + b| - 1] == b[|b| - 1];
      assert Collect(init).Loaded?;
      CollectAppend(a, init);
    }
  }

  /** Loading a file in two parts gives the passages and reports of each part,
      in order, as long as neither part overflows. */
  lemma LoadLinesAppend(a: seq<string>, b: seq<string>)
    requires LoadLines(a).Loaded? && LoadLines(b).Loaded?
    ensures LoadLines(a + b) == Loaded(LoadLines(a).entries + LoadLines(b).entries,
                                       LoadLines(a).rejected + LoadLines(b).rejected)
  {
    MapAppend(ProcessLine, a, b);
    CollectAppend(Outcomes(a), Outcomes(b));
  }

  /** The line a passage would be written as, `citation|text`, is loaded back
      as that passage when the citation and text are trimmed, hold no '|',
      and the verse numbers are non-negative. */
  lemma DisplayedLineLoads(r: Reference, text: string)
    requires NonNegativeVerses(r)
    requires |r.book| > 0 && !IsWhiteSpace(r.book[0]) && '|' !in r.book
    requires |text| > 0 && !IsWhiteSpace(text[0]) && !IsWhiteSpace(text[|text| - 1]) && '|' !in text
    ensures ProcessLine(DisplayText(r) + "|" + text) == Accepted(Entry(r, text))
  {
    var d := DisplayText(r);
    var line := d + "|" + text;
    assert d[0] == r.book[0];
    assert !IsBlank(line) by { assert line[0] == r.book[0]; }
    assert '|' !in d by {
      assert d == r.book + " " + IntToString(r.chapter) + ":" + IntToString(r.verse)
                 + (if r.endVerse.Some? then "-" + IntToString(r.endVerse.value) else "");
    }
    SplitJoin([d, text], '|');
    assert Split(line, '|') == [d, text];
    TrimUnchanged(d, IsWhiteSpace);
    TrimUnchanged(text, IsWhiteSpace);
    ParseDisplayRoundTrip(r);
  }

  // ------------------------------------------------------------ the library

  /** Each passage is valid, was built from the entry at its position, and
      has every word shown. */
  ghost predicate BuiltFrom(ss: seq<Scripture>, es: seq<Entry>)
    reads set k, i | 0 <= k < |ss| && 0 <= i < |ss[k].words| :: ss[k].words[i]
  {
    |ss| == |es| &&
    forall k :: 0 <= k < |ss| ==>
      && ss[k].Valid() && ss[k].reference == es[k].reference && ss[k].Texts() == Split(es[k].text, ' ')
      && NoneHidden(ss[k].Flags())
  }

  lemma BuiltFromAppend(ss: seq<Scripture>, es: seq<Entry>, s: Scripture, e: Entry)
    requires BuiltFrom(ss, es)
    requires s.Valid() && s.reference == e.reference && s.Texts() == Split(e.text, ' ')
    requires NoneHidden(s.Flags())
    ensures BuiltFrom(ss + [s], es + [e])
  {
  }


  class ScriptureLibrary {
    var scriptures: seq<Scripture>

    constructor ()
      ensures scriptures == []
    {
      scriptures := [];
    }

    /** Reads the library file (None when it does not exist) into the empty
        library. `crashed` is an OverflowException escaping the loader;
        `rejected` lists the citations reported as invalid. */
    method LoadFromFile(file: Option<seq<string>>) returns (crashed: bool, rejected: seq<string>)
      requires scriptures == []
      modifies this
      ensures file.None? ==> !crashed && scriptures == [] && rejected == []
      ensures file.Some? ==> crashed == LoadLines(file.value).Crashed?
      ensures file.Some? && !crashed ==>
        rejected == LoadLines(file.value).rejected && BuiltFrom(scriptures, LoadLines(file.value).entries)
      ensures !crashed ==> forall k, w :: 0 <= k < |scriptures| && w in scriptures[k].words ==> fresh(w)
    {
      crashed, rejected := false, [];
      if file.None? {
        return;
      }
      // ProcessLine is a pure function of the line, so the outcomes can be
      // computed up front; the loop consumes them in file order.
      crashed, rejected := LoadOutcomes(Outcomes(file.value));
    }

    /** The loop of LoadFromFile over the outcomes of the file's lines. */
    method LoadOutcomes(outcomes: seq<LineOutcome>) returns (crashed: bool, rejected: seq<string>)
      requires scriptures == []
      modifies this
      ensures crashed == Collect(outcomes).Crashed?
      ensures !crashed ==> rejected == Collect(outcomes).rejected && BuiltFrom(scriptures, Collect(outcomes).entries)
      ensures !crashed ==> forall k, w :: 0 <= k < |scriptures| && w in scriptures[k].words ==> fresh(w)
    {
      crashed, rejected := false, [];
      ghost var entries: seq<Entry> := [];
      var i := 0;
      while i < |outcomes|
        invariant 0 <= i <= |outcomes|
        invariant Collect(outcomes[..i]) == Loaded(entries, rejected)
        invariant BuiltFrom(scriptures, entries)
        invariant forall k, w :: 0 <= k < |scriptures| && w in scriptures[k].words ==> fresh(w)
      {
        CollectStep(outcomes, i, entries, rejected);
        match outcomes[i] {
          case Skipped =>
          case Accepted(entry) =>
            var _ := Add(entry, entries);
            entries := entries + [entry];
          case Rejected(raw) =>
            rejected := rejected + [raw];
          case Overflowed =>
            CollectCrashes(outcomes, i);
            crashed := true;
            return;
        }
        i := i + 1;
      }
      assert outcomes[..i] == outcomes;
    }

    /** `_scriptures.Add(new Scripture(...))` for an accepted line. */
    method Add(entry: Entry, ghost entries: seq<Entry>) returns (s: Scripture)
      requires BuiltFrom(scriptures, entries)
      modifies this
      ensures BuiltFrom(scriptures, entries + [entry])
      ensures scriptures == old(scriptures) + [s]
      ensures forall w :: w in s.words ==> fresh(w)
    {
      s := new Scripture(entry.reference, entry.text);
      BuiltFromAppend(scriptures, entries, s, entry);
      scriptures := scriptures + [s];
    }

    /** A random passage, or null when the library is empty. */
    method GetRandomScripture() returns (s: Scripture?)
      ensures s == null <==> scriptures == []
      ensures s != null ==> s in scriptures
    {
      if |scriptures| == 0 {
        return null;
      }
      var index :| 0 <= index < |scriptures|;
      s := scriptures[index];
    }
  }
}
