/** `extract_clinical_entities`: normalise the external pipeline's spans,
    append the lab entities, and deduplicate. */
module Pipeline {

  import opened Wrappers
  import opened Entities
  import opened Normalize
  import opened Labs
  import opened Dedupe

  lemma NormalizedKeyed(text: string, ents: seq<ExternalSpan>)
    ensures Keyed(Normalized(text, ents))
  {
    var es := Normalized(text, ents);
    forall e | e in es
      ensures |e.spans| > 0
    {
      var k :| 0 <= k < |es| && es[k] == e;
    }
  }

  lemma LabEntitiesKeyed(text: string, matches: seq<seq<Match>>, parse: string -> Option<real>)
    requires |matches| == |LabPatterns|
    ensures Keyed(LabEntities(text, matches, parse))
  {
    var es := LabEntities(text, matches, parse);
    forall e | e in es
      ensures |e.spans| > 0
    {
      var k :| 0 <= k < |es| && es[k] == e;
      LabEntitiesShape(text, matches, parse, k);
    }
  }

  /** The reference result: NLP entities, then lab entities, deduplicated. */
  function Extracted(text: string, ents: seq<ExternalSpan>, matches: seq<seq<Match>>,
                     parse: string -> Option<real>): seq<Entity>
    requires |matches| == |LabPatterns|
  {
    NormalizedKeyed(text, ents);
    LabEntitiesKeyed(text, matches, parse);
    Merge(Normalized(text, ents), LabEntities(text, matches, parse))
  }

  /** The whole post-processing of `extract_clinical_entities`, with the
      external pipeline's spans and the regex matches as inputs. */
  method ExtractClinicalEntities(text: string, ents: seq<ExternalSpan>, matches: seq<seq<Match>>,
                                 parse: string -> Option<real>)
    returns (entities: seq<Entity>)
    requires |matches| == |LabPatterns|
    ensures entities == Extracted(text, ents, matches, parse)
    ensures Keyed(entities) && DistinctKeys(entities)
  {
    var nlp := NormalizeAll(text, ents);
    var labs := ExtractLabValues(text, matches, parse);
    NormalizedKeyed(text, ents);
    LabEntitiesKeyed(text, matches, parse);
    KeySetConcat(nlp, labs);
    entities := DedupEntities(nlp + labs);
  }

  /** Every key of an NLP or lab entity is represented in the result, and
      no key twice. */
  lemma ExtractedKeys(text: string, ents: seq<ExternalSpan>, matches: seq<seq<Match>>,
                      parse: string -> Option<real>)
    requires |matches| == |LabPatterns|
    ensures Keyed(Normalized(text, ents)) && Keyed(LabEntities(text, matches, parse))
      && Keyed(Extracted(text, ents, matches, parse))
      && DistinctKeys(Extracted(text, ents, matches, parse))
      && KeySet(Extracted(text, ents, matches, parse))
         == KeySet(Normalized(text, ents)) + KeySet(LabEntities(text, matches, parse))
  {
    var nlp, labs := Normalized(text, ents), LabEntities(text, matches, parse);
    NormalizedKeyed(text, ents);
    LabEntitiesKeyed(text, matches, parse);
    KeySetConcat(nlp, labs);
    DedupKeySet(nlp + labs);
    DedupDistinct(nlp + labs);
  }

  lemma NormalizedNotLab(text: string, ents: seq<ExternalSpan>)
    ensures forall e :: e in Normalized(text, ents) ==> e.etype != Lab
  {
    var es := Normalized(text, ents);
    forall e | e in es
      ensures e.etype != Lab
    {
      var k :| 0 <= k < |es| && es[k] == e;
    }
  }

  lemma LabEntitiesAreLab(text: string, matches: seq<seq<Match>>, parse: string -> Option<real>)
    requires |matches| == |LabPatterns|
    ensures forall e :: e in LabEntities(text, matches, parse) ==> e.etype == Lab
  {
    var es := LabEntities(text, matches, parse);
    forall e | e in es
      ensures e.etype == Lab
    {
      var k :| 0 <= k < |es| && es[k] == e;
      LabEntitiesShape(text, matches, parse, k);
    }
  }

  /** An NLP entity is never of type lab, so no lab entity is dropped in
      favour of an NLP entity, nor the reverse: the result is the NLP
      entities deduplicated followed by the lab entities deduplicated. */
  lemma ExtractedSplits(text: string, ents: seq<ExternalSpan>, matches: seq<seq<Match>>,
                        parse: string -> Option<real>)
    requires |matches| == |LabPatterns|
    ensures Keyed(Normalized(text, ents)) && Keyed(LabEntities(text, matches, parse))
      && Extracted(text, ents, matches, parse)
      == Dedup(Normalized(text, ents)) + Dedup(LabEntities(text, matches, parse))
  {
    var nlp, labs := Normalized(text, ents), LabEntities(text, matches, parse);
    NormalizedKeyed(text, ents);
    LabEntitiesKeyed(text, matches, parse);
    NormalizedNotLab(text, ents);
    LabEntitiesAreLab(text, matches, parse);
    LabKeysApart(nlp, labs);
    DedupDisjoint(nlp, labs);
  }

  lemma NormalizedAllWithinText(text: string, ents: seq<ExternalSpan>)
    requires forall i :: 0 <= i < |ents| ==> ValidSpan(text, ents[i])
    ensures forall e :: e in Normalized(text, ents) ==> SpannedWithin(e, text)
  {
    var es := Normalized(text, ents);
    forall e | e in es
      ensures SpannedWithin(e, text)
    {
      var k :| 0 <= k < |es| && es[k] == e;
      NormalizedWithinText(text, ents, k);
    }
  }

  lemma LabEntitiesAllWithinText(text: string, matches: seq<seq<Match>>, parse: string -> Option<real>)
    requires |matches| == |LabPatterns|
    requires forall i, j :: 0 <= i < |matches| && 0 <= j < |matches[i]| ==> ValidMatch(text, matches[i][j])
    ensures forall e :: e in LabEntities(text, matches, parse) ==> SpannedWithin(e, text)
  {
    var es := LabEntities(text, matches, parse);
    forall e | e in es
      ensures SpannedWithin(e, text)
    {
      var k :| 0 <= k < |es| && es[k] == e;
      LabEntitiesWithinText(text, matches, parse, k);
    }
  }

  /** With valid spans from the pipeline and valid regex matches, every
      returned entity has exactly one span; it is non-empty, lies within the
      text and covers exactly the entity's text. */
  lemma ExtractedWithinText(text: string, ents: seq<ExternalSpan>, matches: seq<seq<Match>>,
                            parse: string -> Option<real>)
    requires |matches| == |LabPatterns|
    requires forall i :: 0 <= i < |ents| ==> ValidSpan(text, ents[i])
    requires forall i, j :: 0 <= i < |matches| && 0 <= j < |matches[i]| ==> ValidMatch(text, matches[i][j])
    ensures forall e :: e in Extracted(text, ents, matches, parse) ==> SpannedWithin(e, text)
  {
    var nlp, labs := Normalized(text, ents), LabEntities(text, matches, parse);
    NormalizedKeyed(text, ents);
    LabEntitiesKeyed(text, matches, parse);
    NormalizedAllWithinText(text, ents);
    LabEntitiesAllWithinText(text, matches, parse);
    assert forall e :: e in nlp + labs ==> e in nlp || e in labs;
  }
}
