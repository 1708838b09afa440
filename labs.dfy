/** Lab and vital-sign extraction: the ordered rule table `LAB_PATTERNS`
    and the nested loop of `extract_lab_values` that turns every match of
    every rule into a lab entity. The regular-expression engine is not
    modelled: the matches of rule i, in `re.finditer` order, are given as
    `matches[i]`. */
module Labs {

  import opened Wrappers
  import opened Context
  import opened Entities

  /** One row of `LAB_PATTERNS`: (regex, LOINC code, unit, display name). */
  datatype LabRule = LabRule(pattern: string, code: string, unit: string, display: string)

  /** One regex match: `start()`, `end()`, `group(0)` and `group(1)`. */
  datatype Match = Match(start: nat, end: nat, whole: string, value: string)

  const Loinc: string := "http://loinc.org"

  const LabPatterns: seq<LabRule> := [
    LabRule("(?:O2\\s*[Ss]at|SpO2|SaO2)[:\\s]*(\\d{1,3})\\s*%", "59408-5", "%", "SpO2"),
    LabRule("pO2[:\\s]*(\\d{1,3})\\s*(?:mmHg)?", "2703-7", "mmHg", "Arterial pO2"),
    LabRule("pCO2[:\\s]*(\\d{1,3})\\s*(?:mmHg)?", "2019-8", "mmHg", "Arterial pCO2"),
    LabRule("pH[:\\s]*(\\d\\.\\d{1,2})", "2744-1", "[pH]", "Arterial pH"),
    LabRule("HCO3[:\\s]*(\\d{1,3})\\s*(?:mEq/L|mmol/L)?", "1959-6", "mmol/L", "Bicarbonate"),
    LabRule("(?:HR|[Hh]eart [Rr]ate)[:\\s]*(\\d{2,3})", "8867-4", "/min", "Heart rate"),
    LabRule("(?:RR|[Rr]esp(?:iratory)?\\s*[Rr]ate)[:\\s]*(\\d{1,2})", "9279-1", "/min", "Respiratory rate"),
    LabRule("(?:BP|[Bb]lood [Pp]ressure)[:\\s]*(\\d{2,3}/\\d{2,3})", "85354-9", "mmHg", "Blood pressure"),
    LabRule("[Tt]emp(?:erature)?[:\\s]*(\\d{2}\\.\\d)\\s*(?:C|F)?", "8310-5", "Cel", "Body temperature")
  ]

  /** What the regex engine guarantees of a match of `text` by one of the
      patterns: the match lies in the text and `group(0)` is its text. Every
      pattern begins with a non-empty literal, so no match is empty. */
  predicate ValidMatch(text: string, m: Match)
  {
    m.start < m.end <= |text| && m.whole == text[m.start..m.end]
  }

  /** The entity built for one match of one rule. `parse` stands for
      `float(value_str)`: `None` where it raises `ValueError`. */
  function LabEntity(text: string, rule: LabRule, m: Match, parse: string -> Option<real>): (e: Entity)
    ensures e.etype == Lab && e.text == m.whole && e.spans == [Span(m.start, m.end)]
    ensures e.code == Some(rule.code) && e.codeSystem == Some(Loinc) && e.codeDisplay == Some(rule.display)
    ensures e.assertion == DetectAssertion(text, m.start)
    ensures e.temporality == DetectTemporality(text, m.start)
    ensures e.numericValue.Some? <==> '/' !in m.value && parse(m.value).Some?
    ensures e.numericValue.Some? ==> e.numericValue == parse(m.value)
    ensures e.unit.Some? <==> e.numericValue.Some?
    ensures e.unit.Some? ==> e.unit == Some(rule.unit)
  {
    var numeric := if '/' !in m.value then parse(m.value) else None;
    Entity(m.whole, Lab, Some(rule.code), Some(Loinc), Some(rule.display),
           DetectAssertion(text, m.start), DetectTemporality(text, m.start),
           numeric, if numeric.Some? then Some(rule.unit) else None,
           [Span(m.start, m.end)])
  }

  /** Builds the entity of one match of one rule. */
  function Builder(text: string, parse: string -> Option<real>): (LabRule, Match) -> Entity
  {
    (rule: LabRule, m: Match) => LabEntity(text, rule, m, parse)
  }

  /** The entities of one rule, in match order. */
  function RuleEntities(rule: LabRule, ms: seq<Match>, build: (LabRule, Match) -> Entity): (es: seq<Entity>)
    ensures |es| == |ms|
  {
    if ms == [] then []
    else RuleEntities(rule, ms[..|ms| - 1], build) + [build(rule, ms[|ms| - 1])]
  }

  /** Entity j of a rule is built from the rule's match j. */
  lemma {:induction false} RuleEntitiesAt(rule: LabRule, ms: seq<Match>, build: (LabRule, Match) -> Entity, j: nat)
    requires j < |ms|
    ensures RuleEntities(rule, ms, build)[j] == build(rule, ms[j])
  {
    var last := |ms| - 1;
    if j < last {
      RuleEntitiesAt(rule, ms[..last], build, j);
    }
  }

  /** The entities of the first n rules, rule after rule. */
  function Assemble(rules: seq<LabRule>, matches: seq<seq<Match>>, build: (LabRule, Match) -> Entity, n: nat): seq<Entity>
    requires |matches| == |rules| && n <= |rules|
  {
    if n == 0 then []
    else Assemble(rules, matches, build, n - 1) + RuleEntities(rules[n - 1], matches[n - 1], build)
  }

  /** What `extract_lab_values` returns. */
  function LabEntities(text: string, matches: seq<seq<Match>>, parse: string -> Option<real>): seq<Entity>
    requires |matches| == |LabPatterns|
  {
    Assemble(LabPatterns, matches, Builder(text, parse), |matches|)
  }

  /** Number of matches of the rules before rule i: where rule i's entities
      begin in the output. */
  function Offset(matches: seq<seq<Match>>, i: nat): nat
    requires i <= |matches|
  {
    if i == 0 then 0 else Offset(matches, i - 1) + |matches[i - 1]|
  }

  /** The nested loop of `extract_lab_values`: for each rule in table order,
      for each of its matches in order, append the entity `build` makes of
      that match. */
  method AssembleLabEntities(rules: seq<LabRule>, matches: seq<seq<Match>>, build: (LabRule, Match) -> Entity)
    returns (entities: seq<Entity>)
    requires |matches| == |rules|
    ensures entities == Assemble(rules, matches, build, |rules|)
  {
    entities := [];
    for r := 0 to |rules|
      invariant entities == Assemble(rules, matches, build, r)
    {
      var rule := rules[r];
      var ms := matches[r];
      ghost var before := entities;
      for j := 0 to |ms|
        invariant entities == before + RuleEntities(rule, ms[..j], build)
      {
        var entity := build(rule, ms[j]);
        assert ms[..j + 1][..j] == ms[..j];
        entities := entities + [entity];
      }
      assert ms[..|ms|] == ms;
    }
  }

  /** `extract_lab_values`: the rules of `LabPatterns`, each match turned into
      a lab entity by `LabEntity`. */
  method ExtractLabValues(text: string, matches: seq<seq<Match>>, parse: string -> Option<real>)
    returns (entities: seq<Entity>)
    requires |matches| == |LabPatterns|
    ensures entities == LabEntities(text, matches, parse)
  {
    entities := AssembleLabEntities(LabPatterns, matches, Builder(text, parse));
  }

  lemma {:induction false} OffsetMonotone(matches: seq<seq<Match>>, i: nat, k: nat)
    requires i <= k <= |matches|
    ensures Offset(matches, i) <= Offset(matches, k)
    decreases k - i
  {
    if i < k {
      OffsetMonotone(matches, i, k - 1);
    }
  }

  /** The first n rules contribute exactly their matches, one entity each. */
  lemma {:induction false} AssembleLength(rules: seq<LabRule>, matches: seq<seq<Match>>, build: (LabRule, Match) -> Entity, n: nat)
    requires |matches| == |rules| && n <= |rules|
    ensures |Assemble(rules, matches, build, n)| == Offset(matches, n)
  {
    if n > 0 {
      AssembleLength(rules, matches, build, n - 1);
    }
  }

  /** Match j of rule i lands at position Offset(i) + j. */
  lemma {:induction false} AssembleAt(rules: seq<LabRule>, matches: seq<seq<Match>>, build: (LabRule, Match) -> Entity, n: nat, i: nat, j: nat)
    requires |matches| == |rules| && n <= |rules|
    requires i < n && j < |matches[i]|
    ensures Offset(matches, i) + j < |Assemble(rules, matches, build, n)|
    ensures Assemble(rules, matches, build, n)[Offset(matches, i) + j] == build(rules[i], matches[i][j])
  {
    var prev := Assemble(rules, matches, build, n - 1);
    var last := RuleEntities(rules[n - 1], matches[n - 1], build);
    AssembleLength(rules, matches, build, n - 1);
    if i < n - 1 {
      AssembleAt(rules, matches, build, n - 1, i, j);
      assert (prev + last)[Offset(matches, i) + j] == prev[Offset(matches, i) + j];
    } else {
      RuleEntitiesAt(rules[i], matches[i], build, j);
      assert (prev + last)[Offset(matches, i) + j] == last[j];
    }
  }

  /** Every assembled entity is built from some match of some rule. */
  lemma {:induction false} AssembleOrigin(rules: seq<LabRule>, matches: seq<seq<Match>>, build: (LabRule, Match) -> Entity, n: nat, k: nat)
    requires |matches| == |rules| && n <= |rules|
    requires k < |Assemble(rules, matches, build, n)|
    ensures exists i, j :: (0 <= i < n && 0 <= j < |matches[i]|
      && Assemble(rules, matches, build, n)[k] == build(rules[i], matches[i][j]))
  {
    var prev := Assemble(rules, matches, build, n - 1);
    var last := RuleEntities(rules[n - 1], matches[n - 1], build);
    if k < |prev| {
      AssembleOrigin(rules, matches, build, n - 1, k);
      assert (prev + last)[k] == prev[k];
    } else {
      var j := k - |prev|;
      RuleEntitiesAt(rules[n - 1], matches[n - 1], build, j);
      assert (prev + last)[k] == last[j];
    }
  }

  /** Ordering of the whole output: its length is the number of matches, and
      match j of rule i is entity Offset(i) + j, so entities are grouped by
      rule in table order and by match order within a rule. */
  lemma LabEntitiesOrder(text: string, matches: seq<seq<Match>>, parse: string -> Option<real>, i: nat, j: nat)
    requires |matches| == |LabPatterns|
    requires i < |LabPatterns| && j < |matches[i]|
    ensures |LabEntities(text, matches, parse)| == Offset(matches, |matches|)
    ensures Offset(matches, i) + j < Offset(matches, |matches|)
    ensures LabEntities(text, matches, parse)[Offset(matches, i) + j]
         == LabEntity(text, LabPatterns[i], matches[i][j], parse)
  {
    AssembleLength(LabPatterns, matches, Builder(text, parse), |matches|);
    AssembleAt(LabPatterns, matches, Builder(text, parse), |matches|, i, j);
  }

  /** Every lab entity is the entity of some match of some rule. */
  lemma LabEntityOrigin(text: string, matches: seq<seq<Match>>, parse: string -> Option<real>, k: nat)
    returns (i: nat, j: nat)
    requires |matches| == |LabPatterns|
    requires k < |LabEntities(text, matches, parse)|
    ensures i < |matches| && j < |matches[i]|
    ensures LabEntities(text, matches, parse)[k] == LabEntity(text, LabPatterns[i], matches[i][j], parse)
  {
    AssembleOrigin(LabPatterns, matches, Builder(text, parse), |matches|, k);
    i, j :| 0 <= i < |matches| && 0 <= j < |matches[i]|
      && LabEntities(text, matches, parse)[k] == Builder(text, parse)(LabPatterns[i], matches[i][j]);
  }

  /** Every lab entity is typed "lab", coded in LOINC with the code, display
      and unit of a rule of the table, carries numericValue and unit
      together, and has a single span. */
  lemma LabEntitiesShape(text: string, matches: seq<seq<Match>>, parse: string -> Option<real>, k: nat)
    requires |matches| == |LabPatterns|
    requires k < |LabEntities(text, matches, parse)|
    ensures var e := LabEntities(text, matches, parse)[k];
      && e.etype == Lab && e.codeSystem == Some(Loinc)
      && (exists rule :: rule in LabPatterns && e.code == Some(rule.code)
            && e.codeDisplay == Some(rule.display)
            && (e.unit.Some? ==> e.unit == Some(rule.unit)))
      && (e.unit.Some? <==> e.numericValue.Some?)
      && |e.spans| == 1
  {
    var i, j := LabEntityOrigin(text, matches, parse, k);
    assert LabPatterns[i] in LabPatterns;
  }

  /** With valid matches every lab span is non-empty, lies in the text and
      covers exactly the entity's text. */
  lemma LabEntitiesWithinText(text: string, matches: seq<seq<Match>>, parse: string -> Option<real>, k: nat)
    requires |matches| == |LabPatterns|
    requires forall i, j :: 0 <= i < |matches| && 0 <= j < |matches[i]| ==> ValidMatch(text, matches[i][j])
    requires k < |LabEntities(text, matches, parse)|
    ensures var e := LabEntities(text, matches, parse)[k];
      SpannedWithin(e, text)
  {
    var i, j := LabEntityOrigin(text, matches, parse, k);
    assert ValidMatch(text, matches[i][j]);
  }

  /** "BP: 120/80": a compound value keeps the raw text but gets neither
      numericValue nor unit, whatever the number parser says. */
  lemma BloodPressureHasNoNumericValue(text: string, m: Match, parse: string -> Option<real>)
    requires m.value == "120/80"
    ensures var e := LabEntity(text, LabPatterns[7], m, parse);
      e.code == Some("85354-9") && e.numericValue == None && e.unit == None && e.text == m.whole
  {
    assert m.value[3] == '/';
  }

  /** Each rule has its own LOINC code, so a lab entity's code names the
      rule that produced it. */
  lemma LabCodesDistinct(i: nat, j: nat)
    requires i < j < |LabPatterns|
    ensures LabPatterns[i].code != LabPatterns[j].code
  {
  }

  /** "HR: 110": a plain value that parses carries it with unit "/min". */
  lemma HeartRateHasNumericValue(text: string, m: Match, parse: string -> Option<real>)
    requires m.value == "110" && parse("110") == Some(110.0)
    ensures var e := LabEntity(text, LabPatterns[5], m, parse);
      e.code == Some("8867-4") && e.numericValue == Some(110.0) && e.unit == Some("/min")
  {
    assert '/' !in m.value;
  }

  /** "HR: 110" in the example note: the heart-rate match at 27..34 is a
      valid match of the note; with "110" parsing to 110.0 its entity is
      coded 8867-4 with numericValue 110.0 and unit "/min", spans exactly
      "HR: 110", and is negated, because "denies " lies in its window. */
  lemma ScenarioHeartRate(note: string, parse: string -> Option<real>)
    requires note == ScenarioNote && parse("110") == Some(110.0)
    ensures var m := Match(27, 34, "HR: 110", "110");
      var e := LabEntity(note, LabPatterns[5], m, parse);
      && ValidMatch(note, m)
      && e.code == Some("8867-4") && e.numericValue == Some(110.0) && e.unit == Some("/min")
      && e.assertion == Negated && SpannedWithin(e, note)
  {
    var m := Match(27, 34, "HR: 110", "110");
    assert note[27..34] == "HR: 110";
    HeartRateHasNumericValue(note, m, parse);
    ScenarioHeartRateNegated(note);
  }
}
