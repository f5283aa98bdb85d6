/**
  What one record does to a notice, said field by field: when two values say the same, what is archived, what is served,
  under which number it is filed and with which publication date (backend/dgate/db.py).
 */
module ArchiveAnswers {
  import opened Wrappers
  import opened Archive
  import opened ArchiveRuns

  // ------------------------------------------------------------------ what a value says

  /** What a stored value says, whichever way it is written. */
  datatype Saying = Nothing | Plainly(value: Value) | OneOf(items: set<string>) | Instant(at: int)

  function SayingOf(f: Field, v: Value): Saying {
    match v
    case Null => Nothing
    case Text(text) => if |text| == 0 then Nothing else Plainly(v)
    case Items(items) => if |items| == 0 then Nothing else OneOf(set s | s in items)
    case Moment(_, at, _) => if f == DeadlineAt then Instant(at) else Plainly(v)
    case Number(_) => Plainly(v)
    case Day(_) => Plainly(v)
  }

  /** Two values of a field say the same exactly when what they say is the same. */
  lemma SameValueExact(f: Field, before: Value, after: Value)
    ensures SameValue(f, before, after) <==> SayingOf(f, before) == SayingOf(f, after)
  {
    SaysNothing(f, before);
    SaysNothing(f, after);
    if before.Items? { NoElements(before.items); }
    if after.Items? { NoElements(after.items); }
  }

  lemma SaysNothing(f: Field, v: Value)
    ensures NotStated(v) <==> SayingOf(f, v) == Nothing
  {
  }

  // ------------------------------------------------------------------ what is archived

  /** What a payload holds of a field: all but links, attributes, notice date, kind and stamp that state nothing. */
  lemma PayloadExact(values: Columns, f: Field)
    ensures f in Payload(values)
            <==> f in values
                 && (match f
                     case TedRef | ProcedureIdentifier | RelatedNativeId | BuyerIdentifier | LotCount | NoticeSubtype | ValueKind
                        | ContractStart | ContractEnd | ContractDuration | ContractDurationUnit | ContractRenewal
                        | ContractRenewalsMax | SourceUpdatedAt | NoticeDate | NoticeKind => values[f] != Null
                     case OtherBuyers => values[f] != Null && values[f] != Text("") && values[f] != Items([])
                     case _ => true)
    ensures f in Payload(values) ==> Payload(values)[f] == values[f]
  {
  }

  // ------------------------------------------------------------------ what is served

  /** Whichever of the two is stated, the first before the second. */
  predicate FirstStated(now: Value, first: Value, second: Value) {
    now == if first == Null then second else first
  }

  /** After a new version a field is served as the record states it, but a link or an attribute that it does not state is
      served as before; the update stamp is not served. */
  lemma ServedExact(held: Columns, values: Columns, f: Field)
    ensures var now := Get(Served(held, ServingColumns(values)), f);
            match f
            case TedRef | ProcedureIdentifier | RelatedNativeId | BuyerIdentifier | LotCount | NoticeSubtype | ValueKind
               | OtherBuyers | ContractStart | ContractEnd | ContractDuration | ContractDurationUnit | ContractRenewal
               | ContractRenewalsMax => FirstStated(now, Get(values, f), Get(held, f))
            case SourceUpdatedAt => now == Null
            case _ => now == Get(values, f)
  {
  }

  /** Python's order of texts: the first that ends, or is smaller where they first differ. */
  lemma {:induction false} TextBeforeExact(a: string, b: string)
    ensures TextBefore(a, b)
            <==> exists k :: 0 <= k <= |a| && k < |b| && a[..k] == b[..k] && (k == |a| || a[k] < b[k])
  {
    if b != [] && a != [] {
      TextBeforeExact(a[1..], b[1..]);
      if a[0] == b[0] {
        if TextBefore(a[1..], b[1..]) {
          var k :| 0 <= k <= |a[1..]| && k < |b[1..]| && a[1..][..k] == b[1..][..k] && (k == |a[1..]| || a[1..][k] < b[1..][k]);
          assert a[..k + 1] == [a[0]] + a[1..][..k] && b[..k + 1] == [b[0]] + b[1..][..k];
        }
        if k :| 0 <= k <= |a| && k < |b| && a[..k] == b[..k] && (k == |a| || a[k] < b[k]) {
          assert k > 0;
          assert a[1..][..k - 1] == a[..k][1..] && b[1..][..k - 1] == b[..k][1..];
        }
      } else if a[0] < b[0] {
        assert a[..0] == b[..0];
      } else {
        assert forall k :: 0 < k <= |a| && k < |b| ==> a[..k][0] != b[..k][0];
      }
    } else if a == [] && b != [] {
      assert a[..0] == b[..0];
    }
  }

  /** The record's stamp is not written before the held one, where both have one. */
  predicate NotBefore(prev: Columns, payload: Columns) {
    match (Get(prev, SourceUpdatedAt), Get(payload, SourceUpdatedAt))
    case (Moment(_, _, held), Moment(_, _, stamp)) => !TextBefore(stamp, held)
    case _ => true
  }

  lemma ColumnServed(values: Columns, f: Field)
    ensures Get(ServingColumns(values), f) == if f == SourceUpdatedAt then Null else Get(values, f)
  {
  }

  /** By the part a field plays. */
  lemma AnnotatedByRole(held: Columns, served: Columns, newer: bool, f: Field)
    ensures var now := Get(Annotated(held, served, newer), f);
            match RoleOf(f)
            case NewFirst => FirstStated(now, Get(served, f), Get(held, f))
            case HeldFirst => FirstStated(now, Get(held, f), Get(served, f))
            case ReadFrom => now == (if Get(served, NoticeDate) != Null && newer then Get(served, f) else Get(held, f))
            case _ => now == Get(held, f)
  {
  }

  lemma NotBeforeExact(prev: Columns, payload: Columns)
    ensures ReadNoEarlier(prev, payload) <==> NotBefore(prev, payload)
  {
  }

  /** A record that changes nothing versioned is written field by field: the attributes it states, links that were not
      held, and the notice date and kind of a record that is not an earlier one. */
  lemma AnnotatedExact(held: Columns, prev: Columns, values: Columns, f: Field)
    ensures var now := Get(Annotated(held, ServingColumns(values), ReadNoEarlier(prev, Payload(values))), f);
            match f
            case LotCount | ContractStart | ContractEnd | ContractDuration | ContractDurationUnit | ContractRenewal
               | ContractRenewalsMax => FirstStated(now, Get(values, f), Get(held, f))
            case TedRef | ProcedureIdentifier | RelatedNativeId => FirstStated(now, Get(held, f), Get(values, f))
            case NoticeDate | NoticeKind =>
              now == (if Get(values, NoticeDate) != Null && NotBefore(prev, Payload(values)) then Get(values, f) else Get(held, f))
            case _ => now == Get(held, f)
  {
    ColumnServed(values, f);
    ColumnServed(values, NoticeDate);
    NotBeforeExact(prev, Payload(values));
    AnnotatedByRole(held, ServingColumns(values), ReadNoEarlier(prev, Payload(values)), f);
  }

  // ------------------------------------------------------------------ filing and dating

  /** A record is filed under its plain number, unless the source's numbers are the buyer's own and another buyer has it. */
  lemma KeyExact(notices: Notices, source: int, r: Record)
    ensures var plain := Key(source, Plain(r.native));
            var another := plain in notices && notices[plain].buyerKey != r.buyerKey;
            KeyOf(notices, source, r) == if r.localNumbers && another then Key(source, Filed(r.native, r.buyerKey)) else plain
  {
  }

  /** The held publication day is carried over to a record that states none: where numbers are the buyer's own, the version
      held was read with a stamp, and the day is not after the deadline stated, or else held. */
  predicate CarriesDay(localNumbers: bool, values: Columns, held: Notice, day: int)
    requires held.versions != []
  {
    && localNumbers && Get(held.serving, PublishedAt) == Day(day)
    && Get(held.versions[|held.versions| - 1].payload, SourceUpdatedAt) != Null
    && match (Get(values, DeadlineAt), Get(held.serving, DeadlineAt))
       case (Moment(last, _, _), _) => day <= last
       case (Null, Moment(last, _, _)) => day <= last
       case _ => true
  }

  /** The record's own publication day, unless it is later than tomorrow. */
  predicate StatesDay(values: Columns, today: int, day: int) {
    Get(values, PublishedAt) == Day(day) && day <= today + 1
  }

  /** A publication date is a day or nothing. */
  predicate DatedByDays(values: Columns) {
    Get(values, PublishedAt).Day? || Get(values, PublishedAt) == Null
  }

  /** The publication day a record is taken with is its own, else the one carried over, and nothing else of it is touched. */
  lemma TakenExact(notices: Notices, a: Arrival)
    requires Started(notices) && KeyOf(notices, a.source, a.record) in notices && DatedByDays(a.record.values)
    ensures var values, held := a.record.values, notices[KeyOf(notices, a.source, a.record)];
            && DatedByDays(Taken(notices, a))
            && (forall day :: Get(Taken(notices, a), PublishedAt) == Day(day) <==>
                  StatesDay(values, a.today, day)
                  || ((forall own :: !StatesDay(values, a.today, own)) && CarriesDay(a.record.localNumbers, values, held, day)))
            && (forall f :: f != PublishedAt ==> Get(Taken(notices, a), f) == Get(values, f))
  {
    var values := a.record.values;
    var dated := Dated(values, a.today);
    assert Get(values, PublishedAt).Day? ==> (StatesDay(values, a.today, Get(values, PublishedAt).day) <==> dated == values);
    assert forall f :: f != PublishedAt ==> Get(dated, f) == Get(values, f);
  }

  // ------------------------------------------------------------------ one record

  /** A new notice has one version, open from now on, and is served as stated, but for the stamp. */
  lemma FirstExact(notices: Notices, a: Arrival)
    requires Started(notices) && KeyOf(notices, a.source, a.record) !in notices
    ensures var key, values := KeyOf(notices, a.source, a.record), Dated(a.record.values, a.today);
            var (next, action) := Upserted(notices, a.source, a.record, a.hash, a.today, a.now);
            && action == New && key in next
            && next[key].versions == [Version(1, Payload(values), a.hash, [], a.now, None)]
            && next[key].buyerKey == a.record.buyerKey && next[key].current == 1
            && (forall f :: Get(next[key].serving, f) == if f == SourceUpdatedAt then Null else Get(values, f))
            && (forall day :: Get(values, PublishedAt) == Day(day) <==> StatesDay(a.record.values, a.today, day))
            && (forall f :: f != PublishedAt ==> Get(values, f) == Get(a.record.values, f))
  {
    assert Get(a.record.values, PublishedAt).Day? ==>
        (StatesDay(a.record.values, a.today, Get(a.record.values, PublishedAt).day) <==> Dated(a.record.values, a.today) == a.record.values);
  }

  ghost predicate Read(held: Notice, hash: string) {
    exists i :: 0 <= i < |held.versions| && held.versions[i].hash == hash
  }

  /** A document read before changes nothing; otherwise the version held is kept, or closed by the record's. */
  lemma StepExact(held: Notice, values: Columns, buyerKey: string, hash: string, now: int)
    requires held.versions != []
    ensures var (next, action) := Step(held, values, buyerKey, hash, now);
            var prev := held.versions[|held.versions| - 1].payload;
            && (Read(held, hash) ==> action == Unchanged && next == held)
            && (action == Stale ==> next == held)
            && (action == Unchanged && !Read(held, hash) ==>
                  next == held.(serving := Annotated(held.serving, ServingColumns(values), ReadNoEarlier(prev, Payload(values)))))
            && (action == Changed ==>
                  && next.serving == Served(held.serving, ServingColumns(values)) && next.buyerKey == buyerKey
                  && next.current == |held.versions| + 1
                  && next.versions == Extended(held.versions, Payload(values), hash, ChangedFields(prev, Payload(values)), now))
  {
  }

  /** What is appended: the version held is closed now, the record's opens at the same moment. */
  lemma ExtendedExact(vs: seq<Version>, payload: Columns, hash: string, changed: seq<Field>, now: int, i: nat)
    requires vs != [] && i <= |vs|
    ensures var ws := Extended(vs, payload, hash, changed, now);
            && |ws| == |vs| + 1
            && ws[i] == if i == |vs| then Version(|vs| + 1, payload, hash, changed, now, None)
                        else if i == |vs| - 1 then vs[i].(validTo := Some(now)) else vs[i]
  {
  }
}
