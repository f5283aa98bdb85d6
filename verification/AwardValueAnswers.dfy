/**
  Which figure of a result notice stands and why another does not, in figures (backend/dgate/award_value.py).
 */
module AwardValueAnswers {
  import opened Wrappers
  import opened AwardValue

  // ------------------------------------------------------------------ amounts

  /** More than a placeholder and less than an absurdity. */
  predicate Credible(a: Option<real>) {
    a.Some? && 1.0 < a.value && a.value < 9999999999.0
  }

  lemma UsableExact(a: Option<real>)
    ensures Usable(a) <==> Credible(a)
  {
  }

  /** Rounding gives whole cents, the nearest ones, and the even ones of two as near. */
  lemma RoundExact(x: real)
    ensures var cents := (Round2(x) * 100.0).Floor;
            && Round2(x) * 100.0 == cents as real
            && -0.5 <= x * 100.0 - cents as real <= 0.5
            && (x * 100.0 - cents as real == 0.5 || x * 100.0 - cents as real == -0.5 ==> cents % 2 == 0)
  {
    var low := (x * 100.0).Floor;
    assert Round2(x) * 100.0 == low as real || Round2(x) * 100.0 == (low + 1) as real;
  }

  /** The credible ones of a list are kept as they stand, as often as they stand. */
  lemma {:induction false} UsableOfExact(xs: seq<real>, x: real)
    ensures multiset(UsableOf(xs))[x] == if Credible(Some(x)) then multiset(xs)[x] else 0
  {
    if xs != [] {
      UsableOfExact(xs[..|xs| - 1], x);
      assert xs == xs[..|xs| - 1] + [xs[|xs| - 1]];
    }
  }

  lemma SumExact(xs: seq<real>, x: real)
    ensures Sum([]) == 0.0 && Sum(xs + [x]) == Sum(xs) + x
    ensures SumIfAny(xs) == if |xs| > 0 then Some(Sum(xs)) else None
  {
    assert (xs + [x])[..|xs|] == xs;
  }

  // ------------------------------------------------------------------ what speaks against a figure

  predicate Near(x: real, y: real, within: real) {
    -within < x - y && x - y < within
  }

  predicate IsHundreds(amount: real, n: int) {
    amount == 100.0 * n as real
  }

  /** From a million, a thousand times another figure, or, not in whole hundreds, a hundred times it. */
  ghost predicate Slipped(amount: real, other: Option<real>) {
    && amount >= 1000000.0 && Credible(other)
    && (Near(amount / 1000.0, other.value, 0.01)
        || (Near(amount / 100.0, other.value, 1.0) && forall n: int :: !IsHundreds(amount, n)))
  }

  lemma SlippedExact(amount: real, other: Option<real>)
    ensures UnitErrorOf(amount, other) <==> Slipped(amount, other)
  {
    HundredsExact(amount);
  }

  lemma HundredsExact(amount: real)
    ensures WholeHundreds(amount) <==> exists n: int :: IsHundreds(amount, n)
  {
    if WholeHundreds(amount) {
      assert IsHundreds(amount, (amount / 100.0).Floor);
    }
    forall n: int | IsHundreds(amount, n) ensures WholeHundreds(amount) {
      assert amount / 100.0 == n as real;
    }
  }

  /** From a billion, more than a hundred times the notice's own estimate. */
  predicate AgainstEstimate(amount: real, row: Row) {
    && amount >= 1000000000.0 && row.kind.Some? && (row.kind.value == Estimated || row.kind.value == LotSum)
    && Credible(row.amount) && amount > 100.0 * row.amount.value
  }

  /** A slip of the procedure's figure, or from a billion more than a hundred times it. */
  ghost predicate AgainstProcedure(amount: real, row: Row) {
    Credible(row.procedure)
    && (Slipped(amount, row.procedure) || (amount >= 1000000000.0 && amount > 100.0 * row.procedure.value))
  }

  /** What becomes of a figure: the first rule that speaks against it sets it aside, for the estimate, the sum of its parts
      or the procedure's figure; else it stands. */
  lemma CheckedExact(amount: real, currency: Option<string>, kind: Kind, parts: Option<real>, row: Row, estimate: Value)
    ensures var v := Checked(amount, currency, kind, parts, row, estimate);
            var cur := if currency.Some? then currency else row.currency;
            if AgainstEstimate(amount, row) then
              && v.amount == estimate.amount && v.currency == estimate.currency && v.kind == estimate.kind
              && v.setAside == Some(Round2(amount)) && v.reason == Some(ByEstimate)
            else if Slipped(amount, parts) then
              v == Value(Some(Round2(parts.value)), currency, Some(kind), Some(Round2(amount)), Some(ByLots))
            else if cur.Some? && AgainstProcedure(amount, row) then
              v == Value(Some(Round2(row.procedure.value)), cur, Some(Estimate), Some(Round2(amount)), Some(ByProcedure))
            else v == Value(Some(Round2(amount)), currency, Some(kind), None, None)
  {
    SlippedExact(amount, parts);
    SlippedExact(amount, row.procedure);
  }

  // ------------------------------------------------------------------ which figure is read

  /** The sum of the credible ones of a list, or of a second list where the first is empty. */
  function SumOf(xs: seq<real>, also: seq<real>): Option<real> {
    SumIfAny(UsableOf(if |xs| == 0 then also else xs))
  }

  /** The first credible one of: the framework's maximum or else the sum of its lots, the notice's value, the sum of the
      winning tenders; with the sum that the figure should be of, where it was stated apart. */
  predicate IsRead(rec: Record, amount: real, kind: Kind, parts: Option<real>) {
    var lots, tenders := SumOf(rec.lots, rec.lotsAlso), SumOf(rec.tenders, rec.tendersAlso);
    if Credible(rec.frame) then amount == rec.frame.value && kind == Framework && parts == lots
    else if Credible(lots) then amount == lots.value && kind == Framework && parts.None?
    else if Credible(rec.notice) then amount == rec.notice.value && kind == Contract && parts == tenders
    else Credible(tenders) && amount == tenders.value && kind == Contract && parts.None?
  }

  lemma ReadExact(rec: Record)
    ensures var c := FirstUsable(CandidatesOf(rec));
            && (c.Some? ==> c.value.amount.Some? && IsRead(rec, c.value.amount.value, c.value.kind, c.value.parts))
            && (c.None? ==> forall amount, kind, parts :: !IsRead(rec, amount, kind, parts))
  {
    var cs := CandidatesOf(rec);
    assert cs[1..] == [cs[1], cs[2]] && cs[1..][1..] == [cs[2]] && cs[2..][1..] == [];
    assert FirstUsable(cs) == if Usable(cs[0].amount) then Some(cs[0]) else FirstUsable(cs[1..]);
    assert FirstUsable(cs[1..]) == if Usable(cs[1].amount) then Some(cs[1]) else FirstUsable([cs[2]]);
    assert FirstUsable([cs[2]]) == if Usable(cs[2].amount) then Some(cs[2]) else FirstUsable([cs[2]][1..]);
  }

  /** The currency: the total's, the result's, the estimate's or the row's, the first that is stated. */
  predicate IsCurrency(rec: Record, row: Row, currency: Option<string>) {
    if rec.totalCurrency.Some? then currency == rec.totalCurrency
    else if rec.resultCurrency.Some? then currency == rec.resultCurrency
    else if rec.estimateCurrency.Some? then currency == rec.estimateCurrency
    else currency == row.currency
  }

  /** The row's own figure, as an estimate. */
  predicate IsEstimate(row: Row, currency: Option<string>, v: Value) {
    if Credible(row.amount) && currency.Some? then v == Value(row.amount, currency, Some(Estimate), None, None)
    else v == Value(None, None, None, None, None)
  }

  /** A record without a value field: the row's total is checked as the title's kind, its estimates stand as estimates, and
      without a credible figure and a currency there is nothing. */
  lemma OldRecordExact(rec: Record, row: Row, currency: Option<string>)
    requires !rec.eForms && IsCurrency(rec, row, currency)
    ensures var v := TedValue(rec, row);
            if !Credible(row.amount) || currency.None? || row.kind.None? || row.kind.value == OtherKind
            then v == Value(None, None, None, None, None)
            else if row.kind.value == Total
            then v == Checked(row.amount.value, currency, if row.titleKind.Some? then row.titleKind.value else Contract, None, row,
                              Value(None, None, None, None, None))
            else v == Value(row.amount, currency, Some(Estimate), None, None)
  {
  }

  /** A record with none of them credible: the row's figure as an estimate, if it is one. */
  lemma NoFigureExact(rec: Record, row: Row, currency: Option<string>)
    requires rec.eForms && IsCurrency(rec, row, currency) && forall amount, kind, parts :: !IsRead(rec, amount, kind, parts)
    ensures IsEstimate(row, currency, TedValue(rec, row))
  {
    ReadExact(rec);
  }

  /** The figure that is read is checked. One that stands and has no sum of its own is then held against the row's credible
      total: a total that is a slip of it is set aside, and one more than a hundred times as large is taken in its place. */
  lemma FigureExact(rec: Record, row: Row, currency: Option<string>, estimate: Value, amount: real, kind: Kind, parts: Option<real>)
    requires rec.eForms && IsCurrency(rec, row, currency) && IsEstimate(row, currency, estimate) && IsRead(rec, amount, kind, parts)
    ensures var v, checked := TedValue(rec, row), Checked(amount, currency, kind, parts, row, estimate);
            if checked.setAside.None? && parts.None? && row.kind == Some(Total) && Credible(row.amount)
               && Slipped(row.amount.value, Some(amount))
            then v == checked.(setAside := Some(Round2(row.amount.value)), reason := Some(ByLots))
            else if checked.setAside.None? && parts.None? && row.kind == Some(Total) && Credible(row.amount)
                    && row.amount.value > 100.0 * amount
            then v == Checked(row.amount.value, currency, kind, None, row, estimate)
            else v == checked
  {
    ReadExact(rec);
    var c := FirstUsable(CandidatesOf(rec));
    assert c == Some(Candidate(Some(amount), kind, parts));
    if row.amount.Some? {
      SlippedExact(row.amount.value, Some(amount));
    }
  }
}
