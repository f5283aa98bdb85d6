/**
  Facts of a call that cannot all be true (backend/dgate/eligibility.py, `consortium_floor`, `reconcile`).

  A fact is served under its name. What the two patterns find in a sentence is given.
 */
module Eligibility {
  import opened Wrappers

  datatype Value = Flag(flag: bool) | Count(count: int) | Other(text: string)

  datatype Fact = Fact(value: Value, note: Option<string>, quote: Option<string>, confidence: real, scope: string)

  /** The name a fact is served under. */
  datatype Name = Consortium | Single | MinEntities | MinCountries | Named(name: string)

  type Facts = map<Name, Fact>

  const GENERAL := "general"

  /** What the two patterns find, and how the notes are worded. */
  datatype Texts = Texts(
    onlySingle: string -> bool, condition: string -> bool, generalQuote: string,
    generalNote: Option<Fact> -> string, singleOnlyNote: (string, int) -> string,
    conflictNote: string -> string, conditionNote: (string, int) -> string)

  function Find(facts: Facts, name: Name): Option<Fact> {
    if name in facts then Some(facts[name]) else None
  }

  predicate Says(f: Option<Fact>, flag: bool) {
    f.Some? && f.value.value == Flag(flag)
  }

  /** Text without the full stops and spaces at its end. */
  function Trimmed(s: string): string {
    if s != "" && (s[|s| - 1] == '.' || s[|s| - 1] == ' ') then Trimmed(s[..|s| - 1]) else s
  }

  function LesserOf(a: real, b: real): real {
    if a < b then a else b
  }

  // ------------------------------------------------------------------ the minimum of the general rule

  /** The floor is for research and innovation actions whose general annexes were read, where no served fact denies
      the consortium or admits one applicant. */
  predicate FloorApplies(facts: Facts, action: string, generalRead: bool) {
    (action == "RIA" || action == "IA") && generalRead && !Says(Find(facts, Consortium), false) && !Says(Find(facts, Single), true)
  }

  predicate Stands(name: Name, have: Option<Fact>) {
    have.Some? && (name == Consortium || (have.value.value.Count? && have.value.value.count >= 3))
  }

  function GeneralFact(t: Texts, have: Option<Fact>, value: Value): Fact {
    Fact(value, Some(t.generalNote(have)), Some(t.generalQuote), 1.0, GENERAL)
  }

  /** `consortium_floor`. */
  method RaiseToFloor(t: Texts, facts: Facts, action: string, generalRead: bool) returns (out: Facts)
    ensures out == Floored(t, facts, action, generalRead)
  {
    if !FloorApplies(facts, action, generalRead) {
      return facts;
    }
    out := facts;
    var floor := [(Consortium, Flag(true)), (MinEntities, Count(3)), (MinCountries, Count(3))];
    for i := 0 to 3
      invariant out == FlooredBy(t, facts, floor, i)
    {
      var (name, value) := floor[i];
      var have := Find(out, name);
      if !Stands(name, have) {
        out := out[name := GeneralFact(t, have, value)];
      }
    }
  }

  function FlooredBy(t: Texts, facts: Facts, floor: seq<(Name, Value)>, n: nat): Facts
    requires n <= |floor|
  {
    if n == 0 then facts
    else
      var out, (name, value) := FlooredBy(t, facts, floor, n - 1), floor[n - 1];
      if Stands(name, Find(out, name)) then out else out[name := GeneralFact(t, Find(out, name), value)]
  }

  function Floored(t: Texts, facts: Facts, action: string, generalRead: bool): Facts {
    if FloorApplies(facts, action, generalRead)
    then FlooredBy(t, facts, [(Consortium, Flag(true)), (MinEntities, Count(3)), (MinCountries, Count(3))], 3)
    else facts
  }

  /** The number a fact states, or none. */
  function NumberOf(f: Option<Fact>): int {
    if f.Some? && f.value.value.Count? then f.value.value.count else 0
  }

  function Max(a: int, b: int): int {
    if a < b then b else a
  }

  // ------------------------------------------------------------------ facts that disagree

  predicate OnlySingle(t: Texts, f: Option<Fact>) {
    f.Some? && f.value.quote.GetOr("") != "" && t.onlySingle(f.value.quote.value)
  }

  /** The sentence that allows single applications only. */
  function OnlySingleQuote(t: Texts, facts: Facts): Option<string> {
    if OnlySingle(t, Find(facts, Consortium)) then facts[Consortium].quote
    else if OnlySingle(t, Find(facts, Single)) then facts[Single].quote
    else None
  }

  function ConditionOf(facts: Facts): string {
    if Single in facts then Trimmed(facts[Single].note.GetOr("")) else ""
  }

  /** A single applicant is allowed, and some sentence allows nobody else. */
  predicate SingleOnly(t: Texts, facts: Facts) {
    Says(Find(facts, Single), true) && OnlySingleQuote(t, facts).Some?
  }

  /** The consortium fact where single applications are the only ones. */
  function SingleOnlyFact(t: Texts, facts: Facts, quote: string): Fact
    requires Single in facts
  {
    var c, s, n := Find(facts, Consortium), facts[Single], NumberOf(Find(facts, MinEntities));
    var condition := ConditionOf(facts);
    Fact(Flag(false), Some(t.singleOnlyNote(if condition != "" then condition else Trimmed(quote), n)), Some(quote),
         if c.Some? then LesserOf(c.value.confidence, s.confidence) else s.confidence,
         if c.Some? then c.value.scope else s.scope)
  }

  function ConflictNote(t: Texts, facts: Facts, c: Fact): string {
    var said := t.conflictNote(ConditionOf(facts));
    if c.note.GetOr("") != "" then c.note.value + " " + said else said
  }

  function ConditionalFact(t: Texts, facts: Facts): Fact
    requires Single in facts && MinEntities in facts
  {
    var s, m := facts[Single], facts[MinEntities];
    Fact(Flag(true), Some(t.conditionNote(ConditionOf(facts), NumberOf(Some(m)))), s.quote,
         LesserOf(s.confidence, m.confidence), s.scope)
  }

  /** `reconcile`. */
  method Reconcile(t: Texts, facts: Facts) returns (out: Facts)
    ensures Agree(t, out)
    ensures forall name :: name != Consortium && name != Single ==> Find(out, name) == Find(facts, name)
    ensures Agree(t, facts) && !SingleOnly(t, facts) ==> out == facts
    ensures out == Reconciled(t, facts)
  {
    out := facts;
    var c, n := Find(out, Consortium), NumberOf(Find(out, MinEntities));
    var single := Says(Find(out, Single), true);
    var only := OnlySingleQuote(t, out);
    if single && only.Some? {
      out := out[Consortium := SingleOnlyFact(t, facts, only.value)];
    } else if single && Says(c, true) {
      out := out - {Single};
      out := out[Consortium := c.value.(note := Some(ConflictNote(t, facts, c.value)))];
    } else if single && t.condition(ConditionOf(facts)) && n >= 2 && (c.None? || Says(c, false)) {
      out := out - {Single};
      out := out[Consortium := ConditionalFact(t, facts)];
    } else if Says(c, false) && n >= 2 && !single {
      out := out - {Consortium};
    }
  }

  function Reconciled(t: Texts, facts: Facts): Facts {
    var c, n := Find(facts, Consortium), NumberOf(Find(facts, MinEntities));
    var single, only := Says(Find(facts, Single), true), OnlySingleQuote(t, facts);
    if single && only.Some? then facts[Consortium := SingleOnlyFact(t, facts, only.value)]
    else if single && Says(c, true) then (facts - {Single})[Consortium := c.value.(note := Some(ConflictNote(t, facts, c.value)))]
    else if single && t.condition(ConditionOf(facts)) && n >= 2 && (c.None? || Says(c, false))
    then (facts - {Single})[Consortium := ConditionalFact(t, facts)]
    else if Says(c, false) && n >= 2 && !single then facts - {Consortium}
    else facts
  }

  // ------------------------------------------------------------------ what is promised

  /** The facts agree: not both a consortium required and a single applicant allowed; a minimum of two or more
      is not beside "no consortium" unless a single applicant is allowed; and one allowed only under a condition
      beside such a minimum means that a consortium is required of the others. */
  predicate Agree(t: Texts, facts: Facts) {
    var c, n := Find(facts, Consortium), NumberOf(Find(facts, MinEntities));
    var single, only := Says(Find(facts, Single), true), OnlySingleQuote(t, facts).Some?;
    && !(single && Says(c, true))
    && (Says(c, false) && n >= 2 ==> single)
    && (single && t.condition(ConditionOf(facts)) && n >= 2 && !only ==> c.Some? && !Says(c, false))
    && (single && only ==> Says(c, false))
  }

  /** Whatever is served, reconciling makes it agree, and moves no other fact than the two. */
  lemma ReconciledAgrees(t: Texts, facts: Facts)
    ensures Agree(t, Reconciled(t, facts))
    ensures forall name :: name != Consortium && name != Single ==>
              Find(Reconciled(t, facts), name) == Find(facts, name)
    ensures Single in Reconciled(t, facts) ==> Find(Reconciled(t, facts), Single) == Find(facts, Single)
  {
  }

  /** Settled once, settled for good. */
  lemma ReconciledTwice(t: Texts, facts: Facts)
    ensures Reconciled(t, Reconciled(t, facts)) == Reconciled(t, facts)
  {
    ReconciledAgrees(t, facts);
  }

  /** Where the general rule applies, what is served in the end requires a consortium of at least three
      entities from at least three countries; a topic's larger number stands. */
  lemma FloorHolds(t: Texts, facts: Facts, action: string, generalRead: bool)
    requires FloorApplies(facts, action, generalRead)
    ensures var out := Reconciled(t, Floored(t, facts, action, generalRead));
            && out == Floored(t, facts, action, generalRead)
            && Consortium in out && !Says(Find(out, Consortium), false) && !Says(Find(out, Single), true)
            && (Consortium !in facts ==> Says(Find(out, Consortium), true))
            && MinEntities in out && NumberOf(Find(out, MinEntities)) == Max(3, NumberOf(Find(facts, MinEntities)))
            && MinCountries in out && NumberOf(Find(out, MinCountries)) == Max(3, NumberOf(Find(facts, MinCountries)))
  {
    var floor := [(Consortium, Flag(true)), (MinEntities, Count(3)), (MinCountries, Count(3))];
    var one, two := FlooredBy(t, facts, floor, 1), FlooredBy(t, facts, floor, 2);
    assert FlooredBy(t, facts, floor, 0) == facts;
    assert Find(one, MinEntities) == Find(facts, MinEntities) && Find(two, MinCountries) == Find(facts, MinCountries);
  }
}
