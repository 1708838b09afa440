# Clinical entity post-processing, modelled in Dafny

The `docker/ctakes` service takes a free-text clinical note and returns its
clinical entities: problems, medications, signs and symptoms, and lab or
vital values. Each entity carries:

- an assertion (affirmed or negated) and a temporality (historical, current
  or hypothetical);
- an ICD-10-CM or LOINC code where one is known;
- a character span.

This project models the deterministic core around the external NLP engine:

- **Context detection** (`Context`): `detect_assertion` looks for a negation
  cue in the lower-cased 60 characters before an entity. `detect_temporality`
  looks for history cues, then hypothetical cues, in the 80 characters before
  it.
- **Lab extraction** (`Labs`): the `LAB_PATTERNS` table and the two nested
  loops of `extract_lab_values`. The regex engine is left out, so the matches
  of each rule are an input, given in the order `re.finditer` would find them.
- **Code and type lookup** (`Codes`): the `CODE_MAP` table, which is looked up
  by the lower-cased text, and `type_map`.
- **Normalisation** (`Normalize`): the body and loop of `for ent in doc.ents`.
  The NLP engine's spans are an input (`ExternalSpan`), and each carries an
  optional negation flag.
- **Merge and deduplication** (`Dedupe`, `Pipeline`): the lab entities are
  appended to the NLP entities. Then the `seen`/`deduped` loop keeps the first
  entity for each key, which is the lower-cased text, the type and the first
  span's start.

Python slicing clamps its bounds, and `Text.Window` models that, so none of
the detectors has a precondition on the offset. Float parsing
(`float(value_str)`) is a parameter `parse: string -> Option<real>`, where
`None` stands for `ValueError`.

Three behaviours of the code are easy to expect otherwise. The model follows
the code and proves each one.

- **Negation crosses sentences.** In "Patient denies chest pain. HR: 110.
  History of COPD." one might expect `HR: 110` to be affirmed. But the window
  before it, `text[0:27]`, contains "denies ", so `detect_assertion` negates
  it. `Context.ScenarioHeartRateNegated` and `Labs.ScenarioHeartRate` prove
  this.
- **The negation flag is trusted only when it is true.** A true flag from the
  pipeline forces "negated". A false or absent flag falls back to lexical
  detection, so an entity the pipeline flagged false can still come out
  negated. `Normalize.NormalizeSpan` states exactly that.
- **Deduplication never joins the two producers.** The dedup key includes the
  type, and no NLP entity is typed "lab". So a lab match and an NLP entity
  never collide, even with the same text at the same offset. The result is
  the deduplicated NLP entities followed by the deduplicated lab entities
  (`Dedupe.LabKeysApart`, `Pipeline.ExtractedSplits`).

## Model

| member | source | states |
|---|---|---|
| Text.Lower | docker/ctakes/app.py:129 | `str.lower()` on ASCII: same length, each upper-case letter mapped to its lower-case form and every other character kept |
| Text.LowerFixed | docker/ctakes/app.py:129 | lower-casing leaves a string unchanged iff it has no upper-case letter |
| Text.ContainsAny | docker/ctakes/app.py:131-134 | true iff some cue of the list occurs as a literal substring of the text (the `for cue … if cue in …` scan) |
| Text.Contains | docker/ctakes/app.py:132 | `cue in preceding`: true iff the needle occurs at some position of the text |
| Text.Window | docker/ctakes/app.py:128-129 | `text[max(0, o - w):o]` with Python's clamping: at most `w` characters, a suffix of `text[:o]`, exactly `min(o, w)` characters when `o` is within the text |
| Text.WindowOfPrefix | docker/ctakes/app.py:128-129 | the window depends only on the text before the offset |
| Context.Scope | docker/ctakes/app.py:128-129 | the lower-cased window holds at most `width` characters and none at or after the start; in range it is `lower(text[lo:start])` with `lo = max(0, start - width)` |
| Context.NegationCues | docker/ctakes/app.py:119-122 | the eleven negation cues of `NEGATION_CUES`, in order and character for character |
| Context.HistoryCues | docker/ctakes/app.py:142 | the six history cues, tried first |
| Context.HypotheticalCues | docker/ctakes/app.py:147 | the five hypothetical cues, tried only when no history cue is present |
| Context.DetectAssertion | docker/ctakes/app.py:125-134 | negated iff some negation cue occurs in the lower-cased 60 characters before the start, and affirmed otherwise |
| Context.DetectTemporality | docker/ctakes/app.py:137-152 | historical iff a history cue is in the 80-character scope; hypothetical iff there is no history cue and a hypothetical cue is present; current iff neither |
| Context.AssertionIgnoresTextAfterStart | docker/ctakes/app.py:128-129 | two texts that agree before the start give the same assertion |
| Context.TemporalityIgnoresTextAfterStart | docker/ctakes/app.py:139-140 | two texts that agree before the start give the same temporality |
| Context.HistoryTakesPrecedence | docker/ctakes/app.py:142-150 | a history cue in the scope makes the entity historical whatever hypothetical cues are present |
| Context.CueInScope | docker/ctakes/app.py:128-129 | a cue found, lower-cased, in the text slice before the start occurs in the scope at the same relative position |
| Context.NegatedByCue | docker/ctakes/app.py:131-133 | one negation cue occurrence in the scope makes the entity negated |
| Context.ScenarioChestPainNegated | docker/ctakes/app.py:125-134 | in "Patient denies chest pain. …" the mention at offset 15 is negated |
| Context.ScenarioHeartRateNegated | docker/ctakes/app.py:125-134 | in the same note the `HR: 110` match at offset 27 is negated, because "denies " lies in its window |
| Context.ScenarioCopdHistorical | docker/ctakes/app.py:137-145 | in the same note `COPD` at offset 47 is historical, because "history of" lies in its window |
| Codes.LookupCode | docker/ctakes/app.py:88-103 | `CODE_MAP.get(text.lower())`: found iff the lower-cased text is a key, with that key's code, always in ICD-10-CM; absent otherwise |
| Codes.CodeMap | docker/ctakes/app.py:88-103 | the fourteen entries of `CODE_MAP`, with their ICD-10-CM codes |
| Codes.CodeMapKeysReachable | docker/ctakes/app.py:88-103 | every key of `CODE_MAP` is lower case, so looking it up finds its own entry |
| Codes.LookupIgnoresCase | docker/ctakes/app.py:209 | looking up a surface text and its lower-cased form gives the same result |
| Codes.LookupCopd | docker/ctakes/app.py:91 | the upper-case mention "COPD" finds J44.1 |
| Codes.TypeOf | docker/ctakes/app.py:201-206 | each of the three known labels maps to its type, any other label maps to "other", and no label maps to "lab" |
| Codes.TypeMap | docker/ctakes/app.py:201-205 | `type_map`: PROBLEM, MEDICATION and SIGN_SYMPTOM mapped to their types |
| Labs.LabEntity | docker/ctakes/app.py:160-184 | one match as an entity. It is typed lab, its text and span are the match, its code, LOINC system and display come from the rule, and assertion and temporality come from the match start. It has a numericValue iff the captured value has no "/" and parses, and a unit (the rule's) iff it has a numericValue |
| Labs.LabPatterns | docker/ctakes/app.py:106-116 | the nine rules of `LAB_PATTERNS` in order: regex, LOINC code, unit and display |
| Labs.LabCodesDistinct | docker/ctakes/app.py:106-116 | no two rules share a LOINC code, so an entity's code names the rule that produced it |
| Labs.RuleEntities | docker/ctakes/app.py:159-184 | one entity per match of a rule |
| Labs.RuleEntitiesAt | docker/ctakes/app.py:159-184 | entity j of a rule is built from match j |
| Labs.AssembleLabEntities | docker/ctakes/app.py:157-186 | the two nested loops build exactly the reference sequence of all rules' entities |
| Labs.Assemble | docker/ctakes/app.py:157-186 | reference definition of the nested loops: the entities of the first n rules, rule by rule |
| Labs.LabEntities | docker/ctakes/app.py:155-186 | reference definition of what `extract_lab_values` returns: `Assemble` over all of `LAB_PATTERNS` |
| Labs.ExtractLabValues | docker/ctakes/app.py:155-186 | `extract_lab_values` returns the entities of the first rule's matches, then of the second rule's, and so on through `LAB_PATTERNS` |
| Labs.OffsetMonotone | docker/ctakes/app.py:158 | the position where a rule's entities begin never decreases along the table |
| Labs.AssembleLength | docker/ctakes/app.py:157-186 | the output has one entity per match |
| Labs.AssembleAt | docker/ctakes/app.py:157-186 | match j of rule i is at position `Offset(i) + j` of the output |
| Labs.AssembleOrigin | docker/ctakes/app.py:157-186 | every output entity comes from some match of some rule |
| Labs.LabEntitiesOrder | docker/ctakes/app.py:158-159 | entities are ordered by rule in table order, then by match order |
| Labs.LabEntityOrigin | docker/ctakes/app.py:158-184 | every lab entity is the entity of some match i, j |
| Labs.LabEntitiesShape | docker/ctakes/app.py:165-184 | every lab entity is typed lab and coded in LOINC with some rule's code and display; numericValue and unit appear together, and there is exactly one span |
| Labs.LabEntitiesWithinText | docker/ctakes/app.py:161-173 | for valid matches each span is non-empty, lies in the text and covers exactly the entity's text |
| Labs.BloodPressureHasNoNumericValue | docker/ctakes/app.py:176-182 | "120/80" gets code 85354-9 but neither numericValue nor unit |
| Labs.HeartRateHasNumericValue | docker/ctakes/app.py:176-180 | "110" under the heart-rate rule gets code 8867-4, numericValue 110.0 and unit "/min" |
| Labs.ScenarioHeartRate | docker/ctakes/app.py:159-184 | in the example note the match `HR: 110` at 27..34 is valid; its entity has code 8867-4, numericValue 110.0 and unit "/min", covers exactly "HR: 110", and is negated |
| Normalize.NormalizeSpan | docker/ctakes/app.py:196-230 | one NLP span as an entity: the text and single span come from the span and the type from `type_map`; code and system come from `CODE_MAP`, or are absent on a miss. It is negated iff the flag is true or a lexical cue is found; without a true flag the assertion is the lexical one; temporality is always lexical |
| Normalize.NormalizeEach | docker/ctakes/app.py:196-230 | the loop appends one entity per span, in order, each the loop body applied to that span |
| Normalize.Normalized | docker/ctakes/app.py:196-230 | reference definition of the `doc.ents` loop: entity k is span k normalised |
| Normalize.NormalizeAll | docker/ctakes/app.py:196-230 | the `doc.ents` loop yields exactly the normalised spans in pipeline order |
| Normalize.NormalizedWithinText | docker/ctakes/app.py:222-230 | for valid pipeline spans, each entity has one non-empty span within the text that covers exactly its text |
| Normalize.ScenarioChestPain | docker/ctakes/app.py:208-220 | "chest pain" labelled PROBLEM in the scenario note, with no flag, is a negated problem coded R07.9 |
| Dedupe.Dedup | docker/ctakes/app.py:236-243 | reference dedup: the output's entities all come from the input, and each has a span to key on |
| Dedupe.KeyOf | docker/ctakes/app.py:240 | the dedup key `(text.lower(), type, spans[0].start)` |
| Dedupe.KeySetSnoc | docker/ctakes/app.py:239-242 | appending an entity adds exactly its key to the key set |
| Dedupe.Merge | docker/ctakes/app.py:233-243 | `entities.extend(lab_entities)` then dedup: no key twice, and the key set is the union of both lists' key sets |
| Dedupe.DedupKeySet | docker/ctakes/app.py:236-243 | every key of the input is represented in the output, and no other |
| Dedupe.DedupDistinct | docker/ctakes/app.py:236-243 | no two output entities share a key |
| Dedupe.DistinctPrefix | docker/ctakes/app.py:236-243 | the prefix of a key-distinct list is key-distinct and excludes the last key |
| Dedupe.DedupOfDistinct | docker/ctakes/app.py:236-243 | a list with distinct keys is left unchanged |
| Dedupe.DedupIdempotent | docker/ctakes/app.py:236-243 | deduplicating twice equals deduplicating once |
| Dedupe.MergeIdempotent | docker/ctakes/app.py:233-243 | merging a merged list with no lab entities changes nothing |
| Dedupe.IsFirstInPrefix | docker/ctakes/app.py:240-241 | whether an earlier position is first does not depend on the last entity |
| Dedupe.IsFirstLast | docker/ctakes/app.py:240-241 | the last entity is first iff its key is not among the earlier keys |
| Dedupe.KeptPositionsSelect | docker/ctakes/app.py:238-243 | the kept positions are in range, strictly increase, and pick out the output entities in order |
| Dedupe.KeptPositionsAreFirsts | docker/ctakes/app.py:238-243 | a position is kept iff it holds the first entity with its key |
| Dedupe.DedupKeepsFirstOccurrences | docker/ctakes/app.py:236-243 | the output is an order-preserving subsequence of the input that keeps exactly the first occurrence of each key |
| Dedupe.KeySetConcat | docker/ctakes/app.py:234 | the key set of a concatenation is the union of the key sets |
| Dedupe.LabKeysApart | docker/ctakes/app.py:239 | lab and non-lab entities never share a key, because the key includes the type |
| Dedupe.DedupDisjoint | docker/ctakes/app.py:233-243 | if two lists share no key, deduplicating their concatenation is deduplicating each list separately |
| Dedupe.DedupEntities | docker/ctakes/app.py:236-245 | the `seen`/`deduped` loop returns exactly the reference dedup, with distinct keys and the input's key set |
| Pipeline.NormalizedKeyed | docker/ctakes/app.py:229 | every NLP entity has a span to key on |
| Pipeline.LabEntitiesKeyed | docker/ctakes/app.py:173 | every lab entity has a span to key on |
| Pipeline.ExtractClinicalEntities | docker/ctakes/app.py:189-245 | `extract_clinical_entities` returns the NLP entities followed by the lab entities, deduplicated, and no two returned entities share a key |
| Pipeline.Extracted | docker/ctakes/app.py:189-245 | reference definition of `extract_clinical_entities`: `Merge` of the normalised spans and the lab entities |
| Pipeline.ExtractedKeys | docker/ctakes/app.py:233-245 | the result has distinct keys, and its key set is the union of the NLP and lab key sets |
| Pipeline.NormalizedNotLab | docker/ctakes/app.py:201-206 | no NLP entity is typed lab |
| Pipeline.LabEntitiesAreLab | docker/ctakes/app.py:167 | every lab entity is typed lab |
| Pipeline.ExtractedSplits | docker/ctakes/app.py:233-245 | the result is the NLP entities deduplicated followed by the lab entities deduplicated: dedup never drops an entity of one kind in favour of the other |
| Pipeline.NormalizedAllWithinText | docker/ctakes/app.py:222-230 | with valid pipeline spans every NLP entity's span is non-empty, within the text and covers its text |
| Pipeline.LabEntitiesAllWithinText | docker/ctakes/app.py:161-173 | with valid matches every lab entity's span is non-empty, within the text and covers its text |
| Pipeline.ExtractedWithinText | docker/ctakes/app.py:189-245 | with valid pipeline spans and valid matches, every returned entity has exactly one span; it is non-empty, lies within the text and covers exactly the entity's text |

## Left out

- The Flask routes, JSON request parsing and the "missing text" 400 reply (app.py:251-265) are not modelled. They are I/O around the core.
- The medspaCy pipeline and its `TargetRule` tables (app.py:14-83) are an external NLP engine. Its entity spans, and the optional `is_negated` attribute, are the input `ExternalSpan`.
- Match and span validity are hypotheses. `Labs.ValidMatch` says a match is non-empty, lies in the text and has the text it covers; every pattern begins with a non-empty literal. `Normalize.ValidSpan` says the same of a pipeline span. The model assumes these rather than deriving them.
- Regex semantics are not modelled. The nine patterns are kept as text, and the matches of each pattern (start, end, whole match, group 1) are an input. That leaves out where a pattern matches and what it captures, which is also what the numeric parse depends on.
- `float()` is the parameter `parse`. The model does not fix which strings parse.
- `str.lower()` is modelled for ASCII letters only. Unicode case mapping, including characters whose lower case changes the length, is not modelled.
- JSON shape is not modelled. NLP entities have no `codeDisplay`, `numericValue` or `unit` key, and the model gives them `None`, the same value as an absent field. A code miss, which the source writes as JSON null, is also `None`.
- Python truthiness of `ent._.is_negated` and the `hasattr` tests are modelled as `Option<bool>`. A truthy non-boolean value is not modelled.
- The `entity_text` argument of `detect_assertion` is unused by the source and omitted.
- An entity with an empty `spans` list would make the source raise `IndexError`. The dedup model requires every entity to have a span. That requirement is proved for everything the pipeline itself produces.
- Lab extraction being idempotent is not stated as a lemma: `extract_lab_values` is a function of the text alone.
