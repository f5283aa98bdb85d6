/**
  Which figure of a result notice is its value, and which is set aside as typed in the wrong unit
  (backend/dgate/award_value.py).

  Amounts are reals, already read from the record's texts; the kind a title states is given.
 */
module AwardValue {
  import opened Wrappers

  datatype Kind = Contract | Framework | Estimate
  datatype ValueKind = Total | Estimated | LotSum | OtherKind
  datatype Reason = ByEstimate | ByLots | ByProcedure

  const CONTRADICTED_FROM: real := 1000000000.0
  const CONTRADICTED_RATIO: real := 100.0
  const THOUSANDFOLD_FROM: real := 1000000.0
  const PLACEHOLDER_AMOUNT_MAX: real := 1.0
  const IMPLAUSIBLE_AMOUNT_FROM: real := 9999999999.0

  /** The serving row: its amount, currency and kind, the procedure's estimate, what the titles say. */
  datatype Row = Row(
    amount: Option<real>, currency: Option<string>, kind: Option<ValueKind>,
    procedure: Option<real>, titleKind: Option<Kind>)

  /** The award record: whether it states any eForms value field, and what they state. Where two spellings of
      a field are asked for, the second is read when the first states nothing. */
  datatype Record = Record(
    eForms: bool, lots: seq<real>, lotsAlso: seq<real>, frame: Option<real>, notice: Option<real>,
    tenders: seq<real>, tendersAlso: seq<real>,
    totalCurrency: Option<string>, resultCurrency: Option<string>, estimateCurrency: Option<string>)

  /** What stands (amount, currency, kind) and what was set aside, with the reason. */
  datatype Value = Value(
    amount: Option<real>, currency: Option<string>, kind: Option<Kind>,
    setAside: Option<real>, reason: Option<Reason>)

  // ------------------------------------------------------------------ amounts

  function Abs(x: real): real {
    if x < 0.0 then -x else x
  }

  /** Rounded to cents, a tie to the even cent. */
  function Round2(x: real): real {
    var cents := (x * 100.0).Floor;
    var rest := x * 100.0 - cents as real;
    var up := rest > 0.5 || (rest == 0.5 && cents % 2 == 1);
    (if up then cents + 1 else cents) as real / 100.0
  }

  predicate Usable(a: Option<real>) {
    a.Some? && PLACEHOLDER_AMOUNT_MAX < a.value < IMPLAUSIBLE_AMOUNT_FROM
  }

  function Sum(xs: seq<real>): real {
    if xs == [] then 0.0 else Sum(xs[..|xs| - 1]) + xs[|xs| - 1]
  }

  function UsableOf(xs: seq<real>): seq<real> {
    if xs == [] then []
    else
      var rest := UsableOf(xs[..|xs| - 1]);
      if Usable(Some(xs[|xs| - 1])) then rest + [xs[|xs| - 1]] else rest
  }

  function SumIfAny(xs: seq<real>): Option<real> {
    if xs == [] then None else Some(Sum(xs))
  }

  // ------------------------------------------------------------------ wrong units

  /** `contradicted`. */
  predicate Contradicted(amount: real, row: Row) {
    amount >= CONTRADICTED_FROM && (row.kind == Some(Estimated) || row.kind == Some(LotSum))
    && Usable(row.amount) && amount > CONTRADICTED_RATIO * row.amount.value
  }

  /** Whether an amount is a multiple of a hundred. */
  predicate WholeHundreds(amount: real) {
    (amount / 100.0).Floor as real == amount / 100.0
  }

  /** `unit_error_of`: typed in thousands, or the cents read as units. */
  predicate UnitErrorOf(amount: real, other: Option<real>) {
    amount >= THOUSANDFOLD_FROM && Usable(other)
    && (Abs(amount / 1000.0 - other.value) < 0.01
        || (!WholeHundreds(amount) && Abs(amount / 100.0 - other.value) < 1.0))
  }

  /** `implausible_against`. */
  predicate ImplausibleAgainst(amount: real, other: Option<real>) {
    Usable(other)
    && ((amount >= CONTRADICTED_FROM && amount > CONTRADICTED_RATIO * other.value) || UnitErrorOf(amount, other))
  }

  /** `_checked`. */
  function Checked(amount: real, currency: Option<string>, kind: Kind, parts: Option<real>, row: Row, estimate: Value): Value {
    var cur := if currency.Some? then currency else row.currency;
    if Contradicted(amount, row) then estimate.(setAside := Some(Round2(amount)), reason := Some(ByEstimate))
    else if UnitErrorOf(amount, parts) then
      Value(Some(Round2(parts.value)), currency, Some(kind), Some(Round2(amount)), Some(ByLots))
    else if cur.Some? && ImplausibleAgainst(amount, row.procedure) then
      Value(Some(Round2(row.procedure.value)), cur, Some(Estimate), Some(Round2(amount)), Some(ByProcedure))
    else Value(Some(Round2(amount)), currency, Some(kind), None, None)
  }

  const NOTHING: Value := Value(None, None, None, None, None)

  /** A candidate figure, with the parts it should be the sum of. */
  datatype Candidate = Candidate(amount: Option<real>, kind: Kind, parts: Option<real>)

  function FirstUsable(candidates: seq<Candidate>): Option<Candidate> {
    if candidates == [] then None
    else if Usable(candidates[0].amount) then Some(candidates[0])
    else FirstUsable(candidates[1..])
  }

  /** The framework maximum, the notice's value, the winning tenders' values, in this order. */
  function CandidatesOf(rec: Record): seq<Candidate> {
    var lotSum := SumIfAny(UsableOf(if rec.lots != [] then rec.lots else rec.lotsAlso));
    var tenderSum := SumIfAny(UsableOf(if rec.tenders != [] then rec.tenders else rec.tendersAlso));
    [Candidate(if Usable(rec.frame) then rec.frame else lotSum, Framework, if Usable(rec.frame) then lotSum else None),
     Candidate(rec.notice, Contract, tenderSum),
     Candidate(tenderSum, Contract, None)]
  }

  function CurrencyOf(rec: Record, row: Row): Option<string> {
    rec.totalCurrency.Or(rec.resultCurrency).Or(rec.estimateCurrency).Or(row.currency)
  }

  /** A candidate read from its parts, against the notice's own total. */
  function AgainstTotal(c: Candidate, currency: Option<string>, row: Row, estimate: Value): Value
    requires c.amount.Some?
  {
    var out := Checked(c.amount.value, currency, c.kind, c.parts, row, estimate);
    if out.setAside.None? && c.parts.None? && row.kind == Some(Total) && Usable(row.amount) then
      if UnitErrorOf(row.amount.value, c.amount)
      then out.(setAside := Some(Round2(row.amount.value)), reason := Some(ByLots))
      else if row.amount.value > CONTRADICTED_RATIO * c.amount.value
      then Checked(row.amount.value, currency, c.kind, None, row, estimate)
      else out
    else out
  }

  /** `_ted_value`. */
  function TedValue(rec: Record, row: Row): Value {
    var currency := CurrencyOf(rec, row);
    if rec.eForms then
      var estimate := if Usable(row.amount) && currency.Some?
                      then Value(row.amount, currency, Some(Estimate), None, None) else NOTHING;
      var c := FirstUsable(CandidatesOf(rec));
      if c.Some? && c.value.amount.Some? then AgainstTotal(c.value, currency, row, estimate) else estimate
    else if !Usable(row.amount) || currency.None? then NOTHING
    else
      match row.kind
      case Some(Total) => Checked(row.amount.value, currency, row.titleKind.GetOr(Contract), None, row, NOTHING)
      case Some(LotSum) => Value(row.amount, currency, Some(Estimate), None, None)
      case Some(Estimated) => Value(row.amount, currency, Some(Estimate), None, None)
      case _ => NOTHING
  }

  // ------------------------------------------------------------------ what is said of a set-aside figure

  /** A reason is given exactly when a figure is set aside, and a kind exactly when a figure stands. */
  predicate Explained(v: Value) {
    (v.setAside.Some? <==> v.reason.Some?) && (v.amount.Some? <==> v.kind.Some?)
  }

  /** A figure set aside beside one that stands is more than 99 times as large. */
  predicate FarBeyond(v: Value) {
    v.setAside.Some? && v.amount.Some? ==> v.setAside.value > 99.0 * v.amount.value
  }

  /** Rounding both to cents costs a hundredfold figure at most one of the hundred. */
  lemma HundredfoldRounded(amount: real, other: real)
    requires amount > 100.0 * other && other > 1.0
    ensures Round2(amount) > 99.0 * Round2(other) && Round2(amount) > 99.0 * other
  {
  }

  /** A clean unit error is as far, whichever of the two slips it is. */
  lemma UnitErrorRounded(amount: real, other: real)
    requires UnitErrorOf(amount, Some(other))
    ensures Round2(amount) > 99.0 * Round2(other)
  {
  }

  lemma CheckedIsFar(amount: real, currency: Option<string>, kind: Kind, parts: Option<real>, row: Row, estimate: Value)
    requires estimate == NOTHING || (estimate.amount == row.amount && Explained(estimate) && estimate.setAside.None?)
    ensures Explained(Checked(amount, currency, kind, parts, row, estimate))
    ensures FarBeyond(Checked(amount, currency, kind, parts, row, estimate))
  {
  }

  /** Of every record and row: a reason exactly when a figure is set aside, and whichever reason it was, a
      figure set aside beside one that stands is more than 99 times as large. */
  lemma SetAsideIsFarBeyond(rec: Record, row: Row)
    ensures Explained(TedValue(rec, row)) && FarBeyond(TedValue(rec, row))
  {
    var currency := CurrencyOf(rec, row);
    if rec.eForms {
      var estimate := if Usable(row.amount) && currency.Some?
                      then Value(row.amount, currency, Some(Estimate), None, None) else NOTHING;
      var found := FirstUsable(CandidatesOf(rec));
      if found.Some? && found.value.amount.Some? {
        var c := found.value;
        CheckedIsFar(c.amount.value, currency, c.kind, c.parts, row, estimate);
        if row.amount.Some? {
          CheckedIsFar(row.amount.value, currency, c.kind, None, row, estimate);
          if UnitErrorOf(row.amount.value, c.amount) {
            UnitErrorRounded(row.amount.value, c.amount.value);
          }
        }
      }
    } else if row.amount.Some? {
      CheckedIsFar(row.amount.value, currency, row.titleKind.GetOr(Contract), None, row, NOTHING);
    }
  }

  /** The bound is not a hundred: a total with its cents read as units, whose tenders sum to a little more than
      a hundredth of it, is set aside at less than a hundred times their sum. */
  lemma NotAlwaysAHundred()
    ensures var rec := Record(true, [], [], None, Some(1000050.0), [10001.0], [], Some("EUR"), None, None);
            var v := TedValue(rec, Row(None, None, None, None, None));
            && v.amount == Some(10001.0) && v.setAside == Some(1000050.0) && v.reason == Some(ByLots)
            && v.setAside.value < 100.0 * v.amount.value
  {
  }

  /** A figure that no rule contradicts stands as it was read, to the cent. */
  lemma UncontradictedStands(amount: real, currency: Option<string>, kind: Kind, parts: Option<real>, row: Row, estimate: Value)
    requires estimate.setAside.None?
    ensures var v := Checked(amount, currency, kind, parts, row, estimate);
            v.setAside.None? <==> !Contradicted(amount, row) && !UnitErrorOf(amount, parts)
                                  && !(currency.Or(row.currency).Some? && ImplausibleAgainst(amount, row.procedure))
    ensures var v := Checked(amount, currency, kind, parts, row, estimate);
            v.setAside.None? ==> v.amount == Some(Round2(amount)) && v.kind == Some(kind) && v.currency == currency
  {
  }
}
