/** The unified entity record every producer emits (NLP spans and lab
    matches alike). A field the source leaves out of the JSON object or
    sets to null is `None` here. */
module Entities {

  import opened Wrappers

  /** The `assertion` field. */
  datatype Assertion = Affirmed | Negated

  /** The `temporality` field. */
  datatype Temporality = Historical | Current | Hypothetical

  /** The `type` field: "problem", "medication", "sign_symptom", "lab" or
      "other". */
  datatype EntityType = Problem | Medication | SignSymptom | Lab | Other

  /** A `{start, end}` character-offset pair. */
  datatype Span = Span(start: nat, end: nat)

  /** `numericValue` is carried as a `real`; the model never computes with it. */
  datatype Entity = Entity(
    text: string,
    etype: EntityType,
    code: Option<string>,
    codeSystem: Option<string>,
    codeDisplay: Option<string>,
    assertion: Assertion,
    temporality: Temporality,
    numericValue: Option<real>,
    unit: Option<string>,
    spans: seq<Span>)

  /** The entity has the single span every producer gives it; the span is
      non-empty, lies within the document and covers exactly the entity's
      text. */
  predicate SpannedWithin(e: Entity, text: string)
  {
    && |e.spans| == 1
    && e.spans[0].start < e.spans[0].end <= |text|
    && e.text == text[e.spans[0].start..e.spans[0].end]
  }
}
