/** A passage being memorised: its citation and its words, each of which can
    be hidden and shown again. The word list is fixed at construction; only
    the words' hidden flags ever change. */
module Scriptures {
  import opened Text
  import opened References

  // ------------------------------------------------ hidden flags as values

  /** How many words are hidden. */
  function CountHidden(flags: seq<bool>): (n: nat)
    ensures n <= |flags|
  {
    if flags == [] then 0
    else CountHidden(flags[..|flags| - 1]) + (if flags[|flags| - 1] then 1 else 0)
  }

  predicate AllHidden(flags: seq<bool>) { forall i :: 0 <= i < |flags| ==> flags[i] }

  predicate NoneHidden(flags: seq<bool>) { forall i :: 0 <= i < |flags| ==> !flags[i] }

  /** Setting one flag moves the count by exactly that flag's change. */
  lemma {:induction false} CountAfterSet(flags: seq<bool>, k: nat, b: bool)
    requires k < |flags|
    ensures CountHidden(flags[k := b]) == CountHidden(flags) - (if flags[k] then 1 else 0) + (if b then 1 else 0)
  {
    var n := |flags|;
    var g := flags[k := b];
    if k < n - 1 {
      assert g[..n - 1] == flags[..n - 1][k := b];
      CountAfterSet(flags[..n - 1], k, b);
    } else {
      assert g[..n - 1] == flags[..n - 1];
    }
  }

  /** Every word is hidden exactly when the hidden count is the word count. */
  lemma {:induction false} AllHiddenIffCount(flags: seq<bool>)
    ensures AllHidden(flags) <==> CountHidden(flags) == |flags|
  {
    if flags != [] {
      var init := flags[..|flags| - 1];
      AllHiddenIffCount(init);
      assert AllHidden(flags) <==> AllHidden(init) && flags[|flags| - 1];
    }
  }

  /** No word is hidden exactly when the hidden count is zero. */
  lemma {:induction false} NoneHiddenIffCount(flags: seq<bool>)
    ensures NoneHidden(flags) <==> CountHidden(flags) == 0
  {
    if flags != [] {
      var init := flags[..|flags| - 1];
      NoneHiddenIffCount(init);
      assert NoneHidden(flags) <==> NoneHidden(init) && !flags[|flags| - 1];
    }
  }

  /** The flags after hiding the words at `picks`, one pick after another. */
  function HideAt(flags: seq<bool>, picks: seq<nat>): (r: seq<bool>)
    requires forall i :: 0 <= i < |picks| ==> picks[i] < |flags|
    ensures |r| == |flags|
  {
    if picks == [] then flags
    else HideAt(flags, picks[..|picks| - 1])[picks[|picks| - 1] := true]
  }

  /** After hiding, a word is hidden exactly when it was hidden before or was
      picked: nothing is ever shown again, and nothing unpicked is hidden. */
  lemma {:induction false} HideAtHides(flags: seq<bool>, picks: seq<nat>)
    requires forall i :: 0 <= i < |picks| ==> picks[i] < |flags|
    ensures forall k :: 0 <= k < |flags| ==> (HideAt(flags, picks)[k] <==> flags[k] || k in picks)
  {
    if picks != [] {
      var init := picks[..|picks| - 1];
      HideAtHides(flags, init);
      assert picks == init + [picks[|picks| - 1]];
    }
  }

  /** Hiding `n` picks hides at most `n` new words (fewer when picks repeat
      or land on hidden words). */
  lemma {:induction false} HideAtBound(flags: seq<bool>, picks: seq<nat>)
    requires forall i :: 0 <= i < |picks| ==> picks[i] < |flags|
    ensures CountHidden(flags) <= CountHidden(HideAt(flags, picks)) <= CountHidden(flags) + |picks|
  {
    if picks != [] {
      var init := picks[..|picks| - 1];
      HideAtBound(flags, init);
      CountAfterSet(HideAt(flags, init), picks[|picks| - 1], true);
    }
  }

  /** The positions of the hidden words, in word order. */
  function HiddenPositions(flags: seq<bool>): (ps: seq<nat>)
    ensures |ps| == CountHidden(flags)
    ensures forall i :: 0 <= i < |ps| ==> ps[i] < |flags| && flags[ps[i]]
    ensures forall k :: 0 <= k < |flags| && flags[k] ==> k in ps
  {
    if flags == [] then []
    else HiddenPositions(flags[..|flags| - 1]) + (if flags[|flags| - 1] then [|flags| - 1] else [])
  }

  /** What one word shows: its text, or its mask when hidden. The mask of the
      word class is not part of this model, so it is a parameter. */
  function Shown(texts: seq<string>, flags: seq<bool>, mask: string -> string): (r: seq<string>)
    requires |texts| == |flags|
    ensures |r| == |texts|
    ensures forall i :: 0 <= i < |texts| ==> r[i] == if flags[i] then mask(texts[i]) else texts[i]
  {
    seq(|texts|, i requires 0 <= i < |texts| => if flags[i] then mask(texts[i]) else texts[i])
  }

  /** Scripture.GetDisplayText on values: the citation, " - ", then each
      word's display joined by single spaces. */
  function Render(reference: Reference, texts: seq<string>, flags: seq<bool>, mask: string -> string): string
    requires |texts| == |flags|
  {
    References.DisplayText(reference) + " - " + Join(Shown(texts, flags, mask), ' ')
  }

  /** A passage built from `text` with no word hidden shows its text verbatim
      after the citation, repeated spaces included. */
  lemma RenderUnhidden(reference: Reference, text: string, flags: seq<bool>, mask: string -> string)
    requires |flags| == |Split(text, ' ')| && NoneHidden(flags)
    ensures Render(reference, Split(text, ' '), flags, mask) == References.DisplayText(reference) + " - " + text
  {
    assert Shown(Split(text, ' '), flags, mask) == Split(text, ' ');
    JoinSplit(text, ' ');
  }

  // ------------------------------------------------------------ the objects

  class Word {
    const text: string
    var hidden: bool

    constructor (text: string)
      ensures this.text == text && !hidden
    {
      this.text := text;
      hidden := false;
    }

    method Hide()
      modifies this
      ensures hidden
    {
      hidden := true;
    }

    method Show()
      modifies this
      ensures !hidden
    {
      hidden := false;
    }

    function IsHidden(): bool
      reads this
    {
      hidden
    }
  }

  class Scripture {
    const reference: Reference
    const words: seq<Word>

    /** At least one word, and no word object appears twice. */
    ghost predicate Valid()
    {
      |words| > 0 && forall i, j :: 0 <= i < j < |words| ==> words[i] != words[j]
    }

    /** The words' texts, in order. */
    function Texts(): (ts: seq<string>)
      ensures |ts| == |words|
    {
      seq(|words|, i requires 0 <= i < |words| => words[i].text)
    }

    /** The words' hidden flags, in order. */
    function Flags(): (fs: seq<bool>)
      reads words
      ensures |fs| == |words|
      ensures forall i :: 0 <= i < |words| ==> fs[i] == words[i].hidden
    {
      seq(|words|, i requires 0 <= i < |words| reads words => words[i].hidden)
    }

    /** One word per ' '-separated token, empty tokens included, in order,
        none hidden. */
    constructor (reference: Reference, text: string)
      ensures this.reference == reference
      ensures Valid() && Texts() == Split(text, ' ') && NoneHidden(Flags())
      ensures forall w :: w in words ==> fresh(w)
    {
      this.reference := reference;
      var ws := NewWords(Split(text, ' '));
      words := ws;
      new;
      assert Texts() == Split(text, ' ');
    }

    /** A fresh, visible word for each token. */
    static method NewWords(tokens: seq<string>) returns (ws: seq<Word>)
      requires |tokens| > 0
      ensures |ws| == |tokens| > 0
      ensures forall k :: 0 <= k < |ws| ==> ws[k].text == tokens[k] && !ws[k].hidden
      ensures forall w :: w in ws ==> fresh(w)
      ensures forall k, l :: 0 <= k < l < |ws| ==> ws[k] != ws[l]
    {
      ws := [];
      var i := 0;
      while i < |tokens|
        invariant 0 <= i <= |tokens| && |ws| == i
        invariant forall k :: 0 <= k < i ==> ws[k].text == tokens[k] && !ws[k].hidden
        invariant forall w :: w in ws ==> fresh(w)
        invariant forall k, l :: 0 <= k < l < i ==> ws[k] != ws[l]
      {
        var w := new Word(tokens[i]);
        ws := ws + [w];
        i := i + 1;
      }
    }

    /** Hides the word at a randomly chosen position, `numberToHide` times;
        the positions chosen are returned. */
    method HideRandomWords(numberToHide: int) returns (picked: seq<nat>)
      requires Valid()
      modifies words
      ensures |picked| == if numberToHide > 0 then numberToHide else 0
      ensures forall i :: 0 <= i < |picked| ==> picked[i] < |words|
      ensures Flags() == HideAt(old(Flags()), picked)
    {
      picked := [];
      var i := 0;
      while i < numberToHide
        invariant 0 <= i <= (if numberToHide > 0 then numberToHide else 0) && |picked| == i
        invariant forall k :: 0 <= k < |picked| ==> picked[k] < |words|
        invariant Flags() == HideAt(old(Flags()), picked)
      {
        ghost var before := Flags();
        var index :| 0 <= index < |words|;
        words[index].Hide();
        assert Flags() == before[index := true];
        picked := picked + [index];
        i := i + 1;
      }
    }

    /** Shows one randomly chosen hidden word, if any word is hidden; the
        position shown is returned. */
    method RevealOneWord() returns (revealed: Option<nat>)
      requires Valid()
      modifies words
      ensures revealed.None? <==> NoneHidden(old(Flags()))
      ensures revealed.None? ==> Flags() == old(Flags())
      ensures revealed.Some? ==> revealed.value < |words| && old(Flags())[revealed.value]
      ensures revealed.Some? ==> Flags() == old(Flags())[revealed.value := false]
    {
      var hiddenWords := HiddenPositions(Flags());
      NoneHiddenIffCount(Flags());
      if |hiddenWords| > 0 {
        ghost var before := Flags();
        var index :| 0 <= index < |hiddenWords|;
        words[hiddenWords[index]].Show();
        assert Flags() == before[hiddenWords[index] := false];
        revealed := Some(hiddenWords[index]);
      } else {
        revealed := None;
      }
    }

    /** The citation, " - ", and each word's text or mask, space-joined. */
    function DisplayText(mask: string -> string): (s: string)
      reads words
      ensures s == Render(reference, Texts(), Flags(), mask)
    {
      var shown := seq(|words|, i requires 0 <= i < |words| reads words =>
        if words[i].IsHidden() then mask(words[i].text) else words[i].text);
      assert shown == Shown(Texts(), Flags(), mask);
      References.DisplayText(reference) + " - " + Join(shown, ' ')
    }

    /** True when every word is hidden. */
    function IsCompletelyHidden(): (b: bool)
      reads words
      ensures b <==> CountHidden(Flags()) == |words|
    {
      AllHiddenIffCount(Flags());
      forall i :: 0 <= i < |words| ==> words[i].IsHidden()
    }
  }
}
