/** The text highlights of one agent: the "good wins" taken from explanation
    fields of excellent conversations, the recommendations taken from the
    focus areas of poor or average ones, and `summarizeText`, which shortens
    each to its first sentence and keeps at most three. */
module Highlights {
  import opened Wrappers
  import opened Seqs
  import opened Text
  import opened Csv

  const WritingExplanationField := "Writing style (Explanation)"
  const EmpathyExplanationField := "Empathy & Helpfulness (Explanation)"
  const FocusAreasField := "Feedback Focus Areas"

  predicate NotBlank(s: string)
  {
    !IsBlank(s)
  }

  predicate EndsWithPeriod(s: string)
  {
    |s| > 0 && s[|s| - 1] == '.'
  }

  /** `text.split('.').filter(s => s.trim())`: the non-blank period-free
      fragments of the text, in order. */
  function Sentences(text: string): (r: seq<string>)
    ensures forall i :: 0 <= i < |r| ==> NotBlank(r[i]) && '.' !in r[i]
  {
    var pieces := Split(text, '.');
    var r := Filter(pieces, NotBlank);
    assert forall i :: 0 <= i < |r| ==> '.' !in r[i] by {
      forall i | 0 <= i < |r| ensures '.' !in r[i] {
        assert r[i] in pieces;
      }
    }
    r
  }

  /** A period-free fragment and its period open the text: it is the first
      fragment when not blank, and is skipped when blank. */
  lemma SentencesOfPrefix(x: string, rest: string)
    requires '.' !in x
    ensures NotBlank(x) ==> Sentences(x + "." + rest) == [x] + Sentences(rest)
    ensures !NotBlank(x) ==> Sentences(x + "." + rest) == Sentences(rest)
  {
    SplitPrefix(x, "." + rest, '.');
    assert x + "." + rest == x + ("." + rest);
    assert ("." + rest)[1..] == rest;
    assert Split("." + rest, '.') == [""] + Split(rest, '.');
    var tail := Split(rest, '.');
    assert Split(x + "." + rest, '.') == [x] + tail by {
      assert x + "" == x;
      assert ([""] + tail)[1..] == tail;
    }
    FilterAppend([x], tail, NotBlank);
    assert Filter([x], NotBlank) == (if NotBlank(x) then [x] else []) by {
      assert [x][..0] == [];
    }
  }

  /** A text without a period is one fragment: its only sentence when it
      is not blank, none otherwise. With `SentencesOfPrefix` this fixes the
      sentences of every text. */
  lemma SentencesOfLast(x: string)
    requires '.' !in x
    ensures Sentences(x) == if NotBlank(x) then [x] else []
  {
    SplitPrefix(x, "", '.');
    assert x + "" == x;
    assert Split(x, '.') == [x];
    assert Filter([x], NotBlank) == (if NotBlank(x) then [x] else []) by {
      assert [x][..0] == [];
    }
  }

  /** A blank text has no sentences. */
  lemma SentencesOfPeriod()
    ensures Sentences(".") == []
  {
    SentencesOfPrefix("", "");
    assert "" + "." + "" == ".";
    assert Split("", '.') == [""];
    assert Filter([""], NotBlank) == [] by {
      assert [""][..0] == [];
      assert !NotBlank("");
    }
  }

  /** `sentences.slice(0, 1).join('.') + '.'`, the shortening applied by
      `summarizeText`: the first sentence with one period, or "." for a text
      without any. The result holds exactly one period, at its end. */
  function Shorten(text: string): (r: string)
    ensures |r| >= 1 && r[|r| - 1] == '.'
    ensures '.' !in r[..|r| - 1]
  {
    var sentences := Sentences(text);
    var r := (if |sentences| == 0 then "" else sentences[0]) + ".";
    assert r[..|r| - 1] == (if |sentences| == 0 then "" else sentences[0]);
    r
  }

  /** A text opening with a non-blank period-free fragment shortens to that
      fragment and a period: "Great tone. Also accurate." gives "Great tone.".
      A blank opening fragment is skipped. */
  lemma ShortenSentence(x: string, rest: string)
    requires '.' !in x
    ensures NotBlank(x) ==> Shorten(x + "." + rest) == x + "."
    ensures !NotBlank(x) ==> Shorten(x + "." + rest) == Shorten(rest)
  {
    SentencesOfPrefix(x, rest);
  }

  /** A text without a period shortens to itself and a period ("Be more
      concise" gives "Be more concise."), or to "." when it is blank. */
  lemma ShortenPlain(x: string)
    requires '.' !in x
    ensures Shorten(x) == (if NotBlank(x) then x else "") + "."
  {
    SentencesOfLast(x);
  }

  /** Shortening is idempotent. */
  lemma ShortenIdempotent(text: string)
    ensures Shorten(Shorten(text)) == Shorten(text)
  {
    var sentences := Sentences(text);
    if |sentences| == 0 {
      SentencesOfPeriod();
    } else {
      ShortenSentence(sentences[0], "");
      assert sentences[0] + "." + "" == sentences[0] + ".";
    }
  }

  /** `summarizeText`: no entries for no texts, otherwise the first three
      texts (or all, when there are fewer), each shortened, in order. */
  function SummarizeText(texts: seq<string>): (r: seq<string>)
    ensures |r| == if |texts| <= 3 then |texts| else 3
    ensures forall i :: 0 <= i < |r| ==> r[i] == Shorten(texts[i])
  {
    if |texts| == 0 then []
    else if |texts| <= 3 then seq(|texts|, i requires 0 <= i < |texts| => Shorten(texts[i]))
    else seq(3, i requires 0 <= i < 3 => Shorten(texts[i]))
  }

  /** Every summary entry ends with a period. */
  lemma SummaryEndsWithPeriod(texts: seq<string>)
    ensures forall i :: 0 <= i < |SummarizeText(texts)| ==> EndsWithPeriod(SummarizeText(texts)[i])
  {
    var r := SummarizeText(texts);
    forall i | 0 <= i < |r| ensures EndsWithPeriod(r[i]) {
      assert r[i] == Shorten(texts[i]);
    }
  }

  /** Summarising a summary changes nothing. */
  lemma SummarizeIdempotent(texts: seq<string>)
    ensures SummarizeText(SummarizeText(texts)) == SummarizeText(texts)
  {
    var r := SummarizeText(texts);
    forall i | 0 <= i < |r| ensures Shorten(r[i]) == r[i] {
      ShortenIdempotent(texts[i]);
    }
  }

  /** `firstSentence + '.'` guarded by `if (firstSentence)`: the trimmed
      first sentence with a period, or nothing for a text without one. */
  function FirstSentence(text: string): (w: Option<string>)
    ensures w.Some? <==> |Sentences(text)| > 0
    ensures w.Some? ==> |w.value| >= 2 && w.value[|w.value| - 1] == '.'
    ensures w.Some? ==> var core := w.value[..|w.value| - 1];
                        '.' !in core && NotBlank(core) && IsTrimmed(core)
    ensures w.Some? ==> w.value == Trim(Sentences(text)[0]) + "."
  {
    var sentences := Sentences(text);
    if |sentences| == 0 then None
    else
      var core := Trim(sentences[0]);
      var w := core + ".";
      assert w[..|w| - 1] == core;
      assert '.' !in core by {
        TrimSlice(sentences[0]);
      }
      Some(w)
  }

  /** The win of a text opening with a non-blank fragment is that fragment,
      trimmed, with a period; a blank opening fragment is skipped. */
  lemma FirstSentenceOf(x: string, rest: string)
    requires '.' !in x
    ensures NotBlank(x) ==> FirstSentence(x + "." + rest) == Some(Trim(x) + ".")
    ensures !NotBlank(x) ==> FirstSentence(x + "." + rest) == FirstSentence(rest)
  {
    SentencesOfPrefix(x, rest);
  }

  /** The win of a text without a period is the whole text trimmed, with a
      period, and there is none when the text is blank. */
  lemma FirstSentencePlain(x: string)
    requires '.' !in x
    ensures FirstSentence(x) == if NotBlank(x) then Some(Trim(x) + ".") else None
  {
    SentencesOfLast(x);
  }

  /** A win is already in summarised form, so `summarizeText` leaves it be. */
  lemma ShortenWin(text: string)
    requires FirstSentence(text).Some?
    ensures Shorten(FirstSentence(text).value) == FirstSentence(text).value
  {
    var w := FirstSentence(text).value;
    var core := w[..|w| - 1];
    assert w == core + "." + "";
    ShortenSentence(core, "");
  }

  /** The filter predicate `c[field] && c[field].trim()`. */
  function HasText(field: string): Record -> bool
  {
    c => field in c && NotBlank(c[field])
  }

  /** `excellentConversations.find(...)` on a field, then its first
      sentence; absent when no conversation has text in the field. */
  function Win(excellent: seq<Record>, field: string): (w: Option<string>)
    ensures (forall i :: 0 <= i < |excellent| ==> !HasText(field)(excellent[i])) ==> w.None?
    ensures w.Some? ==> |w.value| >= 2 && w.value[|w.value| - 1] == '.'
  {
    match FindFirst(excellent, HasText(field))
    case None => None
    case Some(i) => FirstSentence(excellent[i][field])
  }

  /** The win is the first sentence of the first conversation, in record
      order, whose field is non-blank. */
  lemma WinFromFirst(excellent: seq<Record>, field: string, i: nat)
    requires i < |excellent| && HasText(field)(excellent[i])
    requires forall j :: 0 <= j < i ==> !HasText(field)(excellent[j])
    ensures Win(excellent, field) == FirstSentence(excellent[i][field])
  {
    var f := FindFirst(excellent, HasText(field));
    assert f.Some?;
    assert f.value == i;
  }

  /** `goodWins`: at most one writing-style win followed by at most one
      empathy win, and none without excellent conversations. */
  function GoodWins(excellent: seq<Record>): (wins: seq<string>)
    ensures |wins| <= 2
    ensures |excellent| == 0 ==> wins == []
    ensures |wins| == (if Win(excellent, WritingExplanationField).Some? then 1 else 0)
                    + (if Win(excellent, EmpathyExplanationField).Some? then 1 else 0)
    ensures var w := Win(excellent, WritingExplanationField);
            w.Some? ==> wins[0] == w.value
    ensures var e := Win(excellent, EmpathyExplanationField);
            e.Some? ==> wins[|wins| - 1] == e.value
  {
    if |excellent| > 0 then
      var w := Win(excellent, WritingExplanationField);
      var e := Win(excellent, EmpathyExplanationField);
      w.ToSeq() + e.ToSeq()
    else []
  }

  /** `summarizeText(goodWins)` is `goodWins` itself. */
  lemma SummarizeWins(excellent: seq<Record>)
    ensures SummarizeText(GoodWins(excellent)) == GoodWins(excellent)
  {
    var wins := GoodWins(excellent);
    if |excellent| > 0 {
      var w := Win(excellent, WritingExplanationField);
      var e := Win(excellent, EmpathyExplanationField);
      if w.Some? { WinIsShort(excellent, WritingExplanationField); }
      if e.Some? { WinIsShort(excellent, EmpathyExplanationField); }
      ShortOptions(w, e);
      SummarizeShort(wins);
    }
  }

  lemma ShortOptions(w: Option<string>, e: Option<string>)
    requires w.Some? ==> Shorten(w.value) == w.value
    requires e.Some? ==> Shorten(e.value) == e.value
    ensures forall i :: 0 <= i < |w.ToSeq() + e.ToSeq()| ==>
              Shorten((w.ToSeq() + e.ToSeq())[i]) == (w.ToSeq() + e.ToSeq())[i]
  {
  }

  /** Texts already in shortened form, at most three of them, are their own
      summary. */
  lemma SummarizeShort(texts: seq<string>)
    requires |texts| <= 3
    requires forall i :: 0 <= i < |texts| ==> Shorten(texts[i]) == texts[i]
    ensures SummarizeText(texts) == texts
  {
  }

  lemma WinIsShort(excellent: seq<Record>, field: string)
    requires Win(excellent, field).Some?
    ensures Shorten(Win(excellent, field).value) == Win(excellent, field).value
  {
    var i := FindFirst(excellent, HasText(field)).value;
    ShortenWin(excellent[i][field]);
  }

  /** `recommendations`: the trimmed focus areas of the conversations whose
      focus-area field is non-blank, in order. The source maps to the field
      before filtering; filtering the conversations on the field first keeps
      the same entries. */
  function Recommendations(improvement: seq<Record>): (recs: seq<string>)
    ensures |recs| == |Filter(improvement, HasText(FocusAreasField))|
    ensures forall i :: 0 <= i < |recs| ==>
              recs[i] == Trim(Filter(improvement, HasText(FocusAreasField))[i][FocusAreasField])
    ensures forall i :: 0 <= i < |recs| ==> NotBlank(recs[i]) && IsTrimmed(recs[i])
  {
    var withText := Filter(improvement, HasText(FocusAreasField));
    var recs := seq(|withText|, i requires 0 <= i < |withText| => Trim(withText[i][FocusAreasField]));
    assert forall i :: 0 <= i < |recs| ==> NotBlank(recs[i]) by {
      forall i | 0 <= i < |recs| ensures NotBlank(recs[i]) {
        assert HasText(FocusAreasField)(withText[i]);
        assert recs[i] != "" && !IsSpace(recs[i][0]);
      }
    }
    recs
  }
}
