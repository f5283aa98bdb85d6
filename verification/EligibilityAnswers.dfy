/**
  What is served of facts that the general rule adds or that disagree, case by case (backend/dgate/eligibility.py).
 */
module EligibilityAnswers {
  import opened Wrappers
  import opened Eligibility

  predicate Yes(facts: Facts, name: Name) {
    name in facts && facts[name].value.Flag? && facts[name].value.flag
  }

  predicate No(facts: Facts, name: Name) {
    name in facts && facts[name].value.Flag? && !facts[name].value.flag
  }

  /** The number a fact states is at least this. */
  predicate AtLeast(facts: Facts, name: Name, n: nat) {
    name in facts && facts[name].value.Count? && n <= facts[name].value.count
  }

  // ------------------------------------------------------------------ the floor

  /** The general rule's own fact. */
  predicate IsGeneral(t: Texts, f: Fact, value: Value, have: Option<Fact>) {
    && f.value == value && f.note == Some(t.generalNote(have)) && f.quote == Some(t.generalQuote)
    && f.confidence == 1.0 && f.scope == "general"
  }

  predicate HasFloor(facts: Facts, action: string, generalRead: bool) {
    action in {"RIA", "IA"} && generalRead && !No(facts, Consortium) && !Yes(facts, Single)
  }

  /** Where the floor applies, a consortium is required unless that is stated, and three entities and three countries
      unless as many are; every other fact, and every fact where it does not apply, is served as it was. */
  lemma FloorExact(t: Texts, facts: Facts, action: string, generalRead: bool, name: Name)
    ensures var out, have := Floored(t, facts, action, generalRead), if name in facts then Some(facts[name]) else None;
            if HasFloor(facts, action, generalRead)
               && ((name == Consortium && have.None?) || ((name == MinEntities || name == MinCountries) && !AtLeast(facts, name, 3)))
            then name in out && IsGeneral(t, out[name], if name == Consortium then Flag(true) else Count(3), have)
            else (name in out <==> name in facts) && (name in facts ==> out[name] == facts[name])
  {
    var floor := [(Consortium, Flag(true)), (MinEntities, Count(3)), (MinCountries, Count(3))];
    assert FlooredBy(t, facts, floor, 0) == facts;
    FloorStep(t, facts, floor, 0, name);
    FloorStep(t, facts, floor, 1, name);
    FloorStep(t, facts, floor, 2, name);
  }

  lemma FloorStep(t: Texts, facts: Facts, floor: seq<(Name, Value)>, i: nat, name: Name)
    requires i < |floor|
    ensures var before, after := FlooredBy(t, facts, floor, i), FlooredBy(t, facts, floor, i + 1);
            if name == floor[i].0 && !(name in before && (name == Consortium || AtLeast(before, name, 3)))
            then name in after && IsGeneral(t, after[name], floor[i].1, Find(before, name))
            else Find(after, name) == Find(before, name)
  {
  }

  // ------------------------------------------------------------------ facts that disagree

  /** Without the full stops and spaces at its end. */
  ghost predicate IsTrimmed(s: string, r: string) {
    && r <= s && (forall k :: |r| <= k < |s| ==> s[k] == '.' || s[k] == ' ')
    && (r != "" ==> r[|r| - 1] != '.' && r[|r| - 1] != ' ')
  }

  lemma {:induction false} TrimmedExact(s: string)
    ensures IsTrimmed(s, Trimmed(s))
  {
    if s != "" && (s[|s| - 1] == '.' || s[|s| - 1] == ' ') {
      TrimmedExact(s[..|s| - 1]);
    }
  }

  /** The fact's sentence allows single applications only. */
  predicate AllowsOnlySingle(t: Texts, facts: Facts, name: Name) {
    name in facts && facts[name].quote.Some? && facts[name].quote.value != "" && t.onlySingle(facts[name].quote.value)
  }

  /** The sentence, the consortium's before the single applicant's. */
  predicate OnlySentence(t: Texts, facts: Facts, quote: string) {
    if AllowsOnlySingle(t, facts, Consortium) then facts[Consortium].quote == Some(quote)
    else AllowsOnlySingle(t, facts, Single) && facts[Single].quote == Some(quote)
  }

  /** The condition that a single applicant is allowed under: the note without its end. */
  predicate IsCondition(facts: Facts, condition: string) {
    if Single in facts && facts[Single].note.Some? then condition == Trimmed(facts[Single].note.value) else condition == ""
  }

  /** What the facts stay, but for the two. */
  ghost predicate OthersStay(facts: Facts, out: Facts) {
    forall name :: name != Consortium && name != Single ==>
      (name in out <==> name in facts) && (name in facts ==> out[name] == facts[name])
  }

  function Minimum(facts: Facts): int {
    if MinEntities in facts && facts[MinEntities].value.Count? then facts[MinEntities].value.count else 0
  }

  lemma LesserExact(a: real, b: real)
    ensures (LesserOf(a, b) == a || LesserOf(a, b) == b) && LesserOf(a, b) <= a && LesserOf(a, b) <= b
  {
  }

  /** A single applicant is allowed and a sentence allows nobody else: no consortium is required, on that sentence, with
      the condition stated or else the sentence itself, and no surer than both facts are. */
  lemma OnlySingleExact(t: Texts, facts: Facts, quote: string, condition: string)
    requires Yes(facts, Single) && OnlySentence(t, facts, quote) && IsCondition(facts, condition)
    ensures var out := Reconciled(t, facts);
            && OthersStay(facts, out) && Single in out && out[Single] == facts[Single] && Consortium in out
            && var c := out[Consortium];
               && c.value == Flag(false) && c.quote == Some(quote)
               && c.note == Some(t.singleOnlyNote(if condition == "" then Trimmed(quote) else condition, Minimum(facts)))
               && (if Consortium in facts
                   then c.scope == facts[Consortium].scope && c.confidence == LesserOf(facts[Consortium].confidence, facts[Single].confidence)
                   else c.scope == facts[Single].scope && c.confidence == facts[Single].confidence)
  {
  }

  ghost predicate NoneOnly(t: Texts, facts: Facts) {
    forall quote :: !OnlySentence(t, facts, quote)
  }

  lemma NoneOnlyExact(t: Texts, facts: Facts)
    ensures NoneOnly(t, facts) <==> OnlySingleQuote(t, facts).None?
  {
    if OnlySingleQuote(t, facts).Some? {
      assert OnlySentence(t, facts, OnlySingleQuote(t, facts).value);
    }
  }

  /** Both are stated: the single applicant goes, and the consortium's note says so. */
  lemma BothStatedExact(t: Texts, facts: Facts, condition: string)
    requires Yes(facts, Single) && Yes(facts, Consortium) && NoneOnly(t, facts) && IsCondition(facts, condition)
    ensures var out := Reconciled(t, facts);
            && OthersStay(facts, out) && Single !in out && Consortium in out
            && var held := facts[Consortium];
               out[Consortium] == held.(note := Some(if held.note.None? || held.note.value == "" then t.conflictNote(condition)
                                                     else held.note.value + " " + t.conflictNote(condition)))
  {
    NoneOnlyExact(t, facts);
  }

  /** The single applicant is allowed under a condition, and two entities or more are the minimum: a consortium is required
      of all others. */
  lemma ConditionalExact(t: Texts, facts: Facts, condition: string)
    requires Yes(facts, Single) && NoneOnly(t, facts) && IsCondition(facts, condition)
    requires t.condition(condition) && AtLeast(facts, MinEntities, 2) && (Consortium !in facts || No(facts, Consortium))
    ensures var out := Reconciled(t, facts);
            && OthersStay(facts, out) && Single !in out && Consortium in out
            && var c, s, m := out[Consortium], facts[Single], facts[MinEntities];
               && c.value == Flag(true) && c.note == Some(t.conditionNote(condition, Minimum(facts)))
               && c.quote == s.quote && c.scope == s.scope && c.confidence == LesserOf(s.confidence, m.confidence)
  {
    NoneOnlyExact(t, facts);
  }

  /** No consortium is required, but two entities or more are, and nobody may apply alone: that no is dropped. */
  lemma DeniedExact(t: Texts, facts: Facts)
    requires No(facts, Consortium) && AtLeast(facts, MinEntities, 2) && !Yes(facts, Single)
    ensures var out := Reconciled(t, facts);
            OthersStay(facts, out) && Consortium !in out && (Single in out <==> Single in facts)
            && (Single in facts ==> out[Single] == facts[Single])
  {
  }

  /** And in every other case nothing is touched. */
  lemma UntouchedExact(t: Texts, facts: Facts, condition: string)
    requires IsCondition(facts, condition)
    requires if Yes(facts, Single) then
               NoneOnly(t, facts) && !Yes(facts, Consortium)
               && (!t.condition(condition) || !AtLeast(facts, MinEntities, 2) || (Consortium in facts && !No(facts, Consortium)))
             else !No(facts, Consortium) || !AtLeast(facts, MinEntities, 2)
    ensures Reconciled(t, facts) == facts
  {
    NoneOnlyExact(t, facts);
  }
}
