/** The two static tables of the normaliser: `CODE_MAP`, from the lower-cased
    surface text of a concept to its ICD-10-CM code, and `type_map`, from the
    external pipeline's label to the entity type. */
module Codes {

  import opened Wrappers
  import opened Text
  import opened Entities

  datatype CodeInfo = CodeInfo(code: string, system: string)

  const Icd10Cm: string := "http://hl7.org/fhir/sid/icd-10-cm"

  const CodeMap: map<string, CodeInfo> := map[
    "acute respiratory failure" := CodeInfo("J96.00", Icd10Cm),
    "respiratory failure" := CodeInfo("J96.9", Icd10Cm),
    "copd" := CodeInfo("J44.1", Icd10Cm),
    "copd exacerbation" := CodeInfo("J44.1", Icd10Cm),
    "chronic obstructive pulmonary disease" := CodeInfo("J44.9", Icd10Cm),
    "pneumonia" := CodeInfo("J18.9", Icd10Cm),
    "sepsis" := CodeInfo("A41.9", Icd10Cm),
    "dyspnea" := CodeInfo("R06.00", Icd10Cm),
    "shortness of breath" := CodeInfo("R06.02", Icd10Cm),
    "hypoxia" := CodeInfo("R09.02", Icd10Cm),
    "hypercapnia" := CodeInfo("R06.89", Icd10Cm),
    "chest pain" := CodeInfo("R07.9", Icd10Cm),
    "fever" := CodeInfo("R50.9", Icd10Cm),
    "cough" := CodeInfo("R05.9", Icd10Cm)
  ]

  /** `CODE_MAP.get(text.lower(), {})`: an exact match on the lower-cased
      text; a miss is not an error and leaves code and system null. */
  function LookupCode(surface: string): (r: Option<CodeInfo>)
    ensures r.Some? <==> Lower(surface) in CodeMap
    ensures r.Some? ==> r.value == CodeMap[Lower(surface)]
    ensures r.Some? ==> r.value.system == Icd10Cm
  {
    var key := Lower(surface);
    if key in CodeMap then Some(CodeMap[key]) else None
  }

  /** The keys of `CODE_MAP` have no upper-case letter (in five groups, to
      keep each proof small). */
  lemma CodeMapKeysLower1()
    ensures Lower("acute respiratory failure") == "acute respiratory failure"
    ensures Lower("respiratory failure") == "respiratory failure"
  {
    LowerFixed("acute respiratory failure");
    LowerFixed("respiratory failure");
  }

  lemma CodeMapKeysLower2()
    ensures Lower("copd") == "copd"
    ensures Lower("copd exacerbation") == "copd exacerbation"
    ensures Lower("pneumonia") == "pneumonia"
    ensures Lower("sepsis") == "sepsis"
  {
    LowerFixed("copd");
    LowerFixed("copd exacerbation");
    LowerFixed("pneumonia");
    LowerFixed("sepsis");
  }

  lemma CodeMapKeysLower3()
    ensures Lower("chronic obstructive pulmonary disease") == "chronic obstructive pulmonary disease"
  {
    LowerFixed("chronic obstructive pulmonary disease");
  }

  lemma CodeMapKeysLower4()
    ensures Lower("dyspnea") == "dyspnea"
    ensures Lower("shortness of breath") == "shortness of breath"
    ensures Lower("hypoxia") == "hypoxia"
  {
    LowerFixed("dyspnea");
    LowerFixed("shortness of breath");
    LowerFixed("hypoxia");
  }

  lemma CodeMapKeysLower5()
    ensures Lower("hypercapnia") == "hypercapnia"
    ensures Lower("chest pain") == "chest pain"
    ensures Lower("fever") == "fever"
    ensures Lower("cough") == "cough"
  {
    LowerFixed("hypercapnia");
    LowerFixed("chest pain");
    LowerFixed("fever");
    LowerFixed("cough");
  }

  /** Every key of `CODE_MAP` is written in lower case, so every entry is
      reached by its own key (and, by `LookupIgnoresCase`, by any case
      variant of it). */
  lemma CodeMapKeysReachable(k: string)
    requires k in CodeMap
    ensures Lower(k) == k
    ensures LookupCode(k) == Some(CodeMap[k])
  {
    CodeMapKeysLower1();
    CodeMapKeysLower2();
    CodeMapKeysLower3();
    CodeMapKeysLower4();
    CodeMapKeysLower5();
  }

  /** Lookup ignores the case of the surface text. */
  lemma LookupIgnoresCase(surface: string)
    ensures LookupCode(surface) == LookupCode(Lower(surface))
  {
    LowerIdempotent(surface);
  }

  /** An upper-case mention still finds its code: "COPD" maps to J44.1. */
  lemma LookupCopd(surface: string)
    requires surface == "COPD"
    ensures LookupCode(surface) == Some(CodeInfo("J44.1", Icd10Cm))
  {
    var key := Lower(surface);
    assert key[0] == 'c' && key[1] == 'o' && key[2] == 'p' && key[3] == 'd';
    assert key == "copd";
  }

  const TypeMap: map<string, EntityType> := map[
    "PROBLEM" := Problem,
    "MEDICATION" := Medication,
    "SIGN_SYMPTOM" := SignSymptom
  ]

  /** `type_map.get(ent.label_, "other")`: the three known labels and "other"
      for anything else; never "lab". */
  function TypeOf(entityLabel: string): (t: EntityType)
    ensures t == Problem <==> entityLabel == "PROBLEM"
    ensures t == Medication <==> entityLabel == "MEDICATION"
    ensures t == SignSymptom <==> entityLabel == "SIGN_SYMPTOM"
    ensures t == Other <==> entityLabel !in {"PROBLEM", "MEDICATION", "SIGN_SYMPTOM"}
    ensures t != Lab
  {
    if entityLabel in TypeMap then TypeMap[entityLabel] else Other
  }
}
