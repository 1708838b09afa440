/** Lexical context detection: assertion (negated or affirmed) and
    temporality (historical, hypothetical or current) of an entity, decided
    by literal cue phrases in a fixed-width, lower-cased window of the text
    that ends where the entity starts. */
module Context {

  import opened Text
  import opened Entities

  const AssertionWidth: nat := 60
  const TemporalityWidth: nat := 80

  const NegationCues: seq<string> := [
    "no ", "not ", "denies ", "denied ", "without ", "negative ", "absent ",
    "no evidence of", "ruled out", "rules out", "unlikely"
  ]

  const HistoryCues: seq<string> := [
    "history of", "h/o", "previous", "prior", "past", "former"
  ]

  const HypotheticalCues: seq<string> := [
    "if ", "should ", "consider ", "possible ", "suspect"
  ]

  /** Some cue of the list is a literal substring of the window. */
  ghost predicate CueIn(cues: seq<string>, window: string)
  {
    exists c :: c in cues && Occurs(c, window)
  }

  /** The lower-cased text an entity starting at `spanStart` is judged by. */
  function Scope(text: string, spanStart: nat, width: nat): (w: string)
    ensures |w| <= width && |w| <= spanStart
    ensures spanStart <= |text| ==>
      var lo := if spanStart < width then 0 else spanStart - width;
      w == Lower(text[lo..spanStart])
  {
    Lower(Window(text, spanStart, width))
  }

  /** `detect_assertion`: negated exactly when a negation cue occurs in the
      60 characters before the entity (fewer at the start of the text). */
  function DetectAssertion(text: string, spanStart: nat): (a: Assertion)
    ensures a == Negated <==> CueIn(NegationCues, Scope(text, spanStart, AssertionWidth))
    ensures spanStart <= |text| ==>
      var lo := if spanStart < 60 then 0 else spanStart - 60;
      (a == Negated <==> CueIn(NegationCues, Lower(text[lo..spanStart])))
  {
    if ContainsAny(Scope(text, spanStart, AssertionWidth), NegationCues) then Negated
    else Affirmed
  }

  /** `detect_temporality`: history cues are tried first and win over
      hypothetical cues; with neither the entity is current. */
  function DetectTemporality(text: string, spanStart: nat): (t: Temporality)
    ensures var w := Scope(text, spanStart, TemporalityWidth);
      && (t == Historical <==> CueIn(HistoryCues, w))
      && (t == Hypothetical <==> !CueIn(HistoryCues, w) && CueIn(HypotheticalCues, w))
      && (t == Current <==> !CueIn(HistoryCues, w) && !CueIn(HypotheticalCues, w))
  {
    var w := Scope(text, spanStart, TemporalityWidth);
    if ContainsAny(w, HistoryCues) then Historical
    else if ContainsAny(w, HypotheticalCues) then Hypothetical
    else Current
  }

  /** The assertion detector looks at no character at or after the entity
      start. */
  lemma AssertionIgnoresTextAfterStart(t1: string, t2: string, spanStart: nat)
    requires spanStart <= |t1| && spanStart <= |t2|
    requires t1[..spanStart] == t2[..spanStart]
    ensures DetectAssertion(t1, spanStart) == DetectAssertion(t2, spanStart)
  {
    WindowOfPrefix(t1, t2, spanStart, AssertionWidth);
    assert Scope(t1, spanStart, AssertionWidth) == Scope(t2, spanStart, AssertionWidth);
  }

  /** Nor does the temporality detector. */
  lemma TemporalityIgnoresTextAfterStart(t1: string, t2: string, spanStart: nat)
    requires spanStart <= |t1| && spanStart <= |t2|
    requires t1[..spanStart] == t2[..spanStart]
    ensures DetectTemporality(t1, spanStart) == DetectTemporality(t2, spanStart)
  {
    WindowOfPrefix(t1, t2, spanStart, TemporalityWidth);
    assert Scope(t1, spanStart, TemporalityWidth) == Scope(t2, spanStart, TemporalityWidth);
  }

  /** A history cue in the window makes the entity historical, whatever
      hypothetical cues the window also holds. */
  lemma HistoryTakesPrecedence(text: string, spanStart: nat, cue: string, i: nat)
    requires cue in HistoryCues
    requires OccursAt(cue, Scope(text, spanStart, TemporalityWidth), i)
    ensures DetectTemporality(text, spanStart) == Historical
  {
  }

  /** The example note "Patient denies chest pain. HR: 110. History of
      COPD.", assembled from its phrases: "denies " starts at 8, "HR: 110" at
      27 and "History of" at 36. */
  const ScenarioNote: string :=
    "Patient " + "denies " + "chest pain. HR: 110. " + "History of" + " COPD."

  /** The cue lies at position i of the lower-cased window of text ending
      at spanStart, given as a slice of the original text. */
  lemma CueInScope(text: string, spanStart: nat, width: nat, lo: nat, i: nat, cue: string)
    requires spanStart <= |text| && lo == (if spanStart < width then 0 else spanStart - width)
    requires i + |cue| <= spanStart - lo
    requires Lower(text[lo + i..lo + i + |cue|]) == cue
    ensures OccursAt(cue, Scope(text, spanStart, width), i)
  {
    var piece := text[lo..spanStart];
    assert piece[i..i + |cue|] == text[lo + i..lo + i + |cue|];
    LowerSlice(piece, i, i + |cue|);
  }

  lemma NegatedByCue(text: string, spanStart: nat, cue: string, i: nat)
    requires cue in NegationCues
    requires OccursAt(cue, Scope(text, spanStart, AssertionWidth), i)
    ensures DetectAssertion(text, spanStart) == Negated
  {
  }

  /** In the note, "chest pain" (offset 15) is negated by "denies ". */
  lemma ScenarioChestPainNegated(note: string)
    requires note == ScenarioNote
    ensures DetectAssertion(note, 15) == Negated
  {
    assert note[8..15] == "denies ";
    assert Lower("denies ") == "denies ";
    CueInScope(note, 15, AssertionWidth, 0, 8, "denies ");
    assert "denies " in NegationCues by { assert NegationCues[2] == "denies "; }
    NegatedByCue(note, 15, "denies ", 8);
  }

  /** The window is character based and crosses sentence boundaries: "HR: 110"
      (offset 27) is negated too, since "denies " lies in its 60-character
      window. */
  lemma ScenarioHeartRateNegated(note: string)
    requires note == ScenarioNote
    ensures DetectAssertion(note, 27) == Negated
  {
    assert note[8..15] == "denies ";
    assert Lower("denies ") == "denies ";
    CueInScope(note, 27, AssertionWidth, 0, 8, "denies ");
    assert "denies " in NegationCues by { assert NegationCues[2] == "denies "; }
    NegatedByCue(note, 27, "denies ", 8);
  }

  lemma LowerHistoryOf()
    ensures Lower("History of") == "history of"
  {
    var r := Lower("History of");
    assert r[0] == 'h';
    assert r[1..] == "istory of";
  }

  /** "COPD" (offset 47) follows "History of" and is historical. */
  lemma ScenarioCopdHistorical(note: string)
    requires note == ScenarioNote
    ensures DetectTemporality(note, 47) == Historical
  {
    assert note[36..46] == "History of";
    LowerHistoryOf();
    CueInScope(note, 47, TemporalityWidth, 0, 36, "history of");
    assert "history of" in HistoryCues by { assert HistoryCues[0] == "history of"; }
    HistoryTakesPrecedence(note, 47, "history of", 36);
  }
}
