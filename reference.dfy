/** A scripture citation: book, chapter, first verse and, for a range, the
    last verse. Every field is set once by a constructor and never changes,
    so the citation is a value. */
module References {
  import opened Text

  datatype Reference = Reference(book: string, chapter: int32, verse: int32, endVerse: Option<int32>)

  /** The single-verse constructor. Nothing is validated: zero or negative
      numbers are stored as given. */
  function SingleVerse(book: string, chapter: int32, verse: int32): (r: Reference)
    ensures r.endVerse.None?
    ensures DisplayText(r) == book + " " + IntToString(chapter) + ":" + IntToString(verse)
  {
    Reference(book, chapter, verse, None)
  }

  /** The verse-range constructor. An end verse before the start verse is
      accepted and shown as given. */
  function VerseRange(book: string, chapter: int32, startVerse: int32, endVerse: int32): (r: Reference)
    ensures r.endVerse == Some(endVerse) && r.verse == startVerse
    ensures DisplayText(r) == book + " " + IntToString(chapter) + ":" + IntToString(startVerse) + "-" + IntToString(endVerse)
  {
    Reference(book, chapter, startVerse, Some(endVerse))
  }

  /** "Book Chapter:Verse" or "Book Chapter:Start-End". */
  function DisplayText(r: Reference): string
  {
    match r.endVerse
    case Some(e) => r.book + " " + IntToString(r.chapter) + ":" + IntToString(r.verse) + "-" + IntToString(e)
    case None => r.book + " " + IntToString(r.chapter) + ":" + IntToString(r.verse)
  }

  /** The verse numbers render without a '-' sign. */
  predicate NonNegativeVerses(r: Reference)
  {
    r.verse >= 0 && (r.endVerse.Some? ==> r.endVerse.value >= 0)
  }

  /** The text after the last ':' of a rendered citation: the verse part. */
  function VersePartOf(s: string): string
  {
    s[LastIndexOf(s, ':') + 1..]
  }

  /** With non-negative verse numbers, the verse part of the rendering holds a
      '-' exactly when the citation is a range, whatever the book's name. */
  lemma RangeShowsDash(r: Reference)
    requires NonNegativeVerses(r)
    ensures VersePartOf(DisplayText(r)) == IntToString(r.verse) + (if r.endVerse.Some? then "-" + IntToString(r.endVerse.value) else "")
    ensures '-' in VersePartOf(DisplayText(r)) <==> r.endVerse.Some?
  {
    var head := r.book + " " + IntToString(r.chapter);
    var tail := IntToString(r.verse) + (if r.endVerse.Some? then "-" + IntToString(r.endVerse.value) else "");
    assert DisplayText(r) == head + [':'] + tail;
    assert ':' !in tail;
    LastIndexOfAt(head, ':', tail);
    assert VersePartOf(DisplayText(r)) == tail;
    if r.endVerse.None? {
      assert '-' !in tail;
    } else {
      assert tail[|IntToString(r.verse)|] == '-';
    }
  }
}
