/** Entity normalisation: the body of the `for ent in doc.ents` loop of
    `extract_clinical_entities`, which turns a span of the external NLP
    pipeline into an entity. The pipeline itself is not modelled; its
    output is the input sequence of `ExternalSpan` records. */
module Normalize {

  import opened Wrappers
  import opened Text
  import opened Context
  import opened Entities
  import opened Codes

  /** An entity span of the external pipeline: `ent.text`, `ent.label_`,
      `ent.start_char`, `ent.end_char`, and the optional `ent._.is_negated`
      attribute (`None` where the pipeline does not provide it). */
  datatype ExternalSpan = ExternalSpan(
    text: string,
    entityLabel: string,
    startChar: nat,
    endChar: nat,
    isNegated: Option<bool>)

  /** What the external pipeline guarantees of an entity span of `text`:
      a non-empty token range inside the text whose text is `ent.text`. */
  predicate ValidSpan(text: string, ent: ExternalSpan)
  {
    ent.startChar < ent.endChar <= |text| && ent.text == text[ent.startChar..ent.endChar]
  }

  /** One external span as an entity. Only a flag that is present and true
      forces "negated"; an absent or false flag falls back to the lexical
      detector. Temporality is always lexical. */
  function NormalizeSpan(text: string, ent: ExternalSpan): (e: Entity)
    ensures e.text == ent.text && e.spans == [Span(ent.startChar, ent.endChar)]
    ensures e.etype == TypeOf(ent.entityLabel) && e.etype != Lab
    ensures LookupCode(ent.text).None? ==> e.code == None && e.codeSystem == None
    ensures LookupCode(ent.text).Some? ==>
      e.code == Some(LookupCode(ent.text).value.code) && e.codeSystem == Some(Icd10Cm)
    ensures e.codeDisplay == None && e.numericValue == None && e.unit == None
    ensures e.assertion == Negated <==>
      ent.isNegated == Some(true) || CueIn(NegationCues, Scope(text, ent.startChar, AssertionWidth))
    ensures ent.isNegated != Some(true) ==> e.assertion == DetectAssertion(text, ent.startChar)
    ensures e.temporality == DetectTemporality(text, ent.startChar)
  {
    var info := LookupCode(ent.text);
    var assertion :=
      if ent.isNegated == Some(true) then Negated else DetectAssertion(text, ent.startChar);
    Entity(ent.text, TypeOf(ent.entityLabel),
           if info.Some? then Some(info.value.code) else None,
           if info.Some? then Some(info.value.system) else None,
           None, assertion, DetectTemporality(text, ent.startChar), None, None,
           [Span(ent.startChar, ent.endChar)])
  }

  /** The entities of the external spans, in the pipeline's order. */
  function Normalized(text: string, ents: seq<ExternalSpan>): (es: seq<Entity>)
  {
    seq(|ents|, k requires 0 <= k < |ents| => NormalizeSpan(text, ents[k]))
  }

  /** The `for ent in doc.ents` loop, with the loop body given as
      `normalize`: one entity per span, appended in order. */
  method NormalizeEach(ents: seq<ExternalSpan>, normalize: ExternalSpan -> Entity)
    returns (entities: seq<Entity>)
    ensures |entities| == |ents|
    ensures forall k :: 0 <= k < |ents| ==> entities[k] == normalize(ents[k])
  {
    entities := [];
    for i := 0 to |ents|
      invariant |entities| == i
      invariant forall k :: 0 <= k < i ==> entities[k] == normalize(ents[k])
    {
      var entity := normalize(ents[i]);
      entities := entities + [entity];
    }
  }

  /** The `doc.ents` loop of `extract_clinical_entities`, its body being
      `NormalizeSpan`. */
  method NormalizeAll(text: string, ents: seq<ExternalSpan>) returns (entities: seq<Entity>)
    ensures entities == Normalized(text, ents)
  {
    entities := NormalizeEach(ents, ent => NormalizeSpan(text, ent));
  }

  /** With valid external spans every normalised entity has a single
      non-empty span inside the text that covers exactly its text. */
  lemma NormalizedWithinText(text: string, ents: seq<ExternalSpan>, k: nat)
    requires forall i :: 0 <= i < |ents| ==> ValidSpan(text, ents[i])
    requires k < |ents|
    ensures SpannedWithin(Normalized(text, ents)[k], text)
  {
  }

  /** "chest pain" labelled PROBLEM in the scenario note, with no flag from
      the pipeline: a negated problem coded R07.9. */
  lemma ScenarioChestPain(note: string)
    requires note == ScenarioNote
    ensures var e := NormalizeSpan(note, ExternalSpan("chest pain", "PROBLEM", 15, 25, None));
      e.etype == Problem && e.assertion == Negated && e.code == Some("R07.9")
  {
    ScenarioChestPainNegated(note);
    var key := Lower("chest pain");
    assert key == "chest pain";
  }
}
