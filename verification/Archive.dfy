/**
  The versioned archive of notices (backend/dgate/db.py).

  A feed delivers readings of a notice late, twice and out of order. `Store.Upsert` turns them
  into an append-only chain of versions and one serving row. This file holds the data model, the
  step on one notice as a function, and the class whose methods update the tables.
 */
module Archive {
  import opened Wrappers

  // ------------------------------------------------------------------ fields and values

  datatype Field =
    // the versioned facts of a notice
    | TitleOriginal | BuyerName | Country | ProcedureType | LegalBasis | ValueAmount | ValueCurrency
    | PublishedAt | DeadlineAt | CpvCodes | SourceUrl | Status
    // links and attributes, kept when a later record does not state them
    | TedRef | ProcedureIdentifier | RelatedNativeId | BuyerIdentifier | LotCount | NoticeSubtype
    | ValueKind | OtherBuyers | ContractStart | ContractEnd | ContractDuration
    | ContractDurationUnit | ContractRenewal | ContractRenewalsMax
    // the source's own update stamp (payload only), the notice it was read from, everything else
    | SourceUpdatedAt | NoticeDate | NoticeKind | Other(name: string)

  const VERSIONED_FIELDS: seq<Field> := [
    TitleOriginal, BuyerName, Country, ProcedureType, LegalBasis, ValueAmount, ValueCurrency,
    PublishedAt, DeadlineAt, CpvCodes, SourceUrl, Status]

  /** What the archive does with a field. `HeldFirst` and `NewFirst` say which of two stated values an
      update without a version keeps; `KeptOnly` is left alone by such an update. */
  datatype Role = Fact | HeldFirst | NewFirst | KeptOnly | UpdateStamp | ReadFrom | Rest

  function RoleOf(f: Field): Role {
    match f
    case TitleOriginal | BuyerName | Country | ProcedureType | LegalBasis | ValueAmount
       | ValueCurrency | PublishedAt | DeadlineAt | CpvCodes | SourceUrl | Status => Fact
    case TedRef | RelatedNativeId | ProcedureIdentifier => HeldFirst
    case LotCount | ContractStart | ContractEnd | ContractDuration | ContractDurationUnit
       | ContractRenewal | ContractRenewalsMax => NewFirst
    case BuyerIdentifier | NoticeSubtype | ValueKind | OtherBuyers => KeptOnly
    case SourceUpdatedAt => UpdateStamp
    case NoticeDate | NoticeKind => ReadFrom
    case Other(_) => Rest
  }

  predicate Versioned(f: Field) {
    RoleOf(f) == Fact
  }

  /** `KEPT_WHEN_ABSENT`. */
  predicate KeptWhenAbsent(f: Field) {
    RoleOf(f) == HeldFirst || RoleOf(f) == NewFirst || RoleOf(f) == KeptOnly
  }

  /** A stored value. A `Moment` is an ISO timestamp: its text, the date that text starts with and
      the instant it denotes. */
  datatype Value =
    | Null
    | Text(text: string)
    | Number(amount: real)
    | Items(items: seq<string>)
    | Day(day: int)
    | Moment(localDay: int, at: int, stamp: string)

  type Columns = map<Field, Value>

  function Get(m: Columns, f: Field): Value {
    if f in m then m[f] else Null
  }

  // ------------------------------------------------------------------ comparing two values

  predicate NotStated(v: Value) {
    v == Null || v == Text("") || v == Items([])
  }

  function Elements(items: seq<string>): set<string> {
    set s | s in items
  }

  /** Equality up to the three ways of stating nothing, the order of a list and, for an instant, the
      offset it is written with. */
  predicate SaysTheSame(instant: bool, before: Value, after: Value) {
    || before == after
    || (NotStated(before) && NotStated(after))
    || (before.Items? && after.Items? && Elements(before.items) == Elements(after.items))
    || (instant && before.Moment? && after.Moment? && before.at == after.at)
  }

  /** `same_value`: whether two stored values of a field say the same thing. */
  predicate SameValue(f: Field, before: Value, after: Value) {
    SaysTheSame(f == DeadlineAt, before, after)
  }

  lemma NoElements(items: seq<string>)
    ensures Elements(items) == {} <==> items == []
  {
    if items != [] {
      assert items[0] in Elements(items);
    }
  }

  lemma SaysTheSameIsEquivalence(instant: bool, a: Value, b: Value, c: Value)
    ensures SaysTheSame(instant, a, a)
    ensures SaysTheSame(instant, a, b) == SaysTheSame(instant, b, a)
    ensures SaysTheSame(instant, a, b) && SaysTheSame(instant, b, c) ==> SaysTheSame(instant, a, c)
  {
    if a.Items? { NoElements(a.items); }
    if b.Items? { NoElements(b.items); }
    if c.Items? { NoElements(c.items); }
  }

  /** `changed_fields`, over the tail of the list of versioned fields still to compare. */
  function DifferingAmong(fields: seq<Field>, previous: Columns, payload: Columns): (r: seq<Field>)
    ensures forall f :: f in r <==> f in fields && !SameValue(f, Get(previous, f), Get(payload, f))
  {
    if fields == [] then []
    else
      var f := fields[0];
      var rest := DifferingAmong(fields[1..], previous, payload);
      if SameValue(f, Get(previous, f), Get(payload, f)) then rest else [f] + rest
  }

  function ChangedFields(previous: Columns, payload: Columns): seq<Field> {
    DifferingAmong(VERSIONED_FIELDS, previous, payload)
  }

  /** Two sets of columns say the same in every versioned field. */
  ghost predicate SameContent(a: Columns, b: Columns) {
    forall f :: Versioned(f) ==> SameValue(f, Get(a, f), Get(b, f))
  }

  lemma VersionedIsListed(f: Field)
    ensures Versioned(f) <==> f in VERSIONED_FIELDS
  {
  }

  lemma NothingChanged(a: Columns, b: Columns)
    ensures ChangedFields(a, b) == [] <==> SameContent(a, b)
  {
    var changed := ChangedFields(a, b);
    forall f {
      VersionedIsListed(f);
    }
    if changed != [] {
      assert changed[0] in changed;
    }
  }

  lemma SameContentIsEquivalence(a: Columns, b: Columns, c: Columns)
    ensures SameContent(a, a)
    ensures SameContent(a, b) == SameContent(b, a)
    ensures SameContent(a, b) && SameContent(b, c) ==> SameContent(a, c)
  {
    forall f | Versioned(f)
      ensures SameValue(f, Get(a, f), Get(a, f))
      ensures SameValue(f, Get(a, f), Get(b, f)) == SameValue(f, Get(b, f), Get(a, f))
      ensures SameValue(f, Get(a, f), Get(b, f)) && SameValue(f, Get(b, f), Get(c, f))
              ==> SameValue(f, Get(a, f), Get(c, f))
    {
      SaysTheSameIsEquivalence(f == DeadlineAt, Get(a, f), Get(b, f), Get(c, f));
    }
  }

  // ------------------------------------------------------------------ records, versions, notices

  /** A record as a mapper hands it over, already scrubbed. `buyerKey` is the normalised buyer name;
      `localNumbers` says the source's numbers are unique only within one buyer. */
  datatype Record = Record(native: string, buyerKey: string, localNumbers: bool, values: Columns)

  /** The number of a row: the plain one, or the one made unique by who filed it. */
  datatype NoticeNumber = Plain(native: string) | Filed(native: string, buyerKey: string)

  datatype Key = Key(source: int, number: NoticeNumber)

  datatype Version = Version(
    number: nat, payload: Columns, hash: string, changed: seq<Field>,
    validFrom: int, validTo: Option<int>)

  datatype Notice = Notice(serving: Columns, buyerKey: string, current: nat, versions: seq<Version>)

  datatype Action = New | Changed | Unchanged | Stale

  function PublishedOn(m: Columns): Option<int> {
    match Get(m, PublishedAt)
    case Day(d) => Some(d)
    case _ => None
  }

  /** `_instant` of the update stamp. */
  function StampOf(m: Columns): Option<int> {
    match Get(m, SourceUpdatedAt)
    case Moment(_, at, _) => Some(at)
    case _ => None
  }

  /** The first ten characters of the update stamp, else of the publication date. */
  function DayOf(m: Columns): Option<int> {
    match Get(m, SourceUpdatedAt)
    case Moment(d, _, _) => Some(d)
    case _ => PublishedOn(m)
  }

  /** `opportunity_payload`: a link or attribute that states nothing is left out. */
  function Payload(values: Columns): Columns {
    map f | f in values && !LeftOut(f, values[f]) :: values[f]
  }

  predicate LeftOut(f: Field, v: Value) {
    match RoleOf(f)
    case Fact => false
    case Rest => false
    case KeptOnly => v == Null || (f == OtherBuyers && NotStated(v))
    case _ => v == Null
  }

  /** The serving row's columns of a record: all but the update stamp, which is not served. */
  function ServingColumns(values: Columns): Columns {
    values - {SourceUpdatedAt}
  }

  /** COALESCE(new, held) over the kept columns, the new value everywhere else. */
  function Served(held: Columns, new_: Columns): Columns {
    map f | f in held.Keys + new_.Keys ::
      if KeptWhenAbsent(f) && Get(new_, f) == Null then Get(held, f) else Get(new_, f)
  }

  predicate TextBefore(a: string, b: string)
  {
    if b == [] then false
    else if a == [] then true
    else a[0] < b[0] || (a[0] == b[0] && TextBefore(a[1..], b[1..]))
  }

  /** Whether the record's stamp text is no earlier than the held one; true when either has none. */
  predicate ReadNoEarlier(prev: Columns, payload: Columns) {
    var p, n := Get(prev, SourceUpdatedAt), Get(payload, SourceUpdatedAt);
    !p.Moment? || !n.Moment? || !TextBefore(n.stamp, p.stamp)
  }

  /** The UPDATE of a record that moved no versioned field: attributes only, a held link stays. */
  function Annotated(held: Columns, values: Columns, newer: bool): Columns {
    map f | f in held.Keys + values.Keys ::
      var h, n := Get(held, f), Get(values, f);
      match RoleOf(f)
      case NewFirst => (if n != Null then n else h)
      case HeldFirst => (if h != Null then h else n)
      case ReadFrom => (if Get(values, NoticeDate) != Null && newer then n else h)
      case _ => h
  }

  // ------------------------------------------------------------------ the step on one notice

  /** The rules applied to a record before it is compared: a publication date in the future is
      dropped, and a later entry of a folder that states none takes the held one. */
  function Dated(values: Columns, today: int): Columns {
    match PublishedOn(values)
    case Some(d) => if d > today + 1 then values[PublishedAt := Null] else values
    case None => values
  }

  function Carried(values: Columns, localNumbers: bool, held: Notice): Columns
    requires held.versions != []
  {
    match PublishedOn(held.serving)
    case None => values
    case Some(day) =>
      var limit := if Get(values, DeadlineAt) != Null then Get(values, DeadlineAt) else Get(held.serving, DeadlineAt);
      var stamped := Get(Last(held.versions).payload, SourceUpdatedAt) != Null;
      if localNumbers && Get(values, PublishedAt) == Null && stamped && (limit.Moment? ==> day <= limit.localDay)
      then values[PublishedAt := Day(day)]
      else values
  }

  /** History arriving late: older by the instant where both state one, by the day otherwise. */
  predicate Late(prev: Columns, payload: Columns) {
    match (StampOf(payload), StampOf(prev))
    case (Some(new_), Some(held)) => new_ < held
    case _ =>
      match (DayOf(payload), DayOf(prev))
      case (Some(new_), Some(held)) => new_ < held
      case _ => false
  }

  function First(values: Columns, buyerKey: string, hash: string, now: int): Notice {
    Notice(ServingColumns(values), buyerKey, 1, [Version(1, Payload(values), hash, [], now, None)])
  }

  function Last(vs: seq<Version>): Version
    requires vs != []
  {
    vs[|vs| - 1]
  }

  /** The chain with its last version closed at `now` and the next one opened at the same instant. */
  function Extended(vs: seq<Version>, payload: Columns, hash: string, changed: seq<Field>, now: int): (r: seq<Version>)
    requires vs != []
  {
    vs[..|vs| - 1] + [Last(vs).(validTo := Some(now)), Version(|vs| + 1, payload, hash, changed, now, None)]
  }

  /** The state after `append_version`. */
  function Appended(held: Notice, values: Columns, buyerKey: string, hash: string, changed: seq<Field>, now: int): Notice
    requires held.versions != []
  {
    Notice(Served(held.serving, ServingColumns(values)), buyerKey, |held.versions| + 1,
           Extended(held.versions, Payload(values), hash, changed, now))
  }

  predicate SeenAtSomeVersion(n: Notice, hash: string) {
    exists i :: 0 <= i < |n.versions| && n.versions[i].hash == hash
  }

  function Step(held: Notice, values: Columns, buyerKey: string, hash: string, now: int): (Notice, Action)
    requires held.versions != []
  {
    var prev := Last(held.versions).payload;
    var payload := Payload(values);
    if SeenAtSomeVersion(held, hash) then (held, Unchanged)
    else if Late(prev, payload) then (held, Stale)
    else if ChangedFields(prev, payload) == [] then
      (held.(serving := Annotated(held.serving, ServingColumns(values), ReadNoEarlier(prev, payload))), Unchanged)
    else (Appended(held, values, buyerKey, hash, ChangedFields(prev, payload), now), Changed)
  }

  // ------------------------------------------------------------------ the step on the archive

  type Notices = map<Key, Notice>

  function KeyOf(notices: Notices, source: int, r: Record): Key {
    var plain := Key(source, Plain(r.native));
    if plain in notices && r.localNumbers && notices[plain].buyerKey != r.buyerKey
    then Key(source, Filed(r.native, r.buyerKey)) else plain
  }

  predicate Started(notices: Notices) {
    forall k :: k in notices ==> notices[k].versions != []
  }

  function Upserted(notices: Notices, source: int, r: Record, hash: string, today: int, now: int): (next: (Notices, Action))
    requires Started(notices)
    ensures Started(next.0)
  {
    var key := KeyOf(notices, source, r);
    var dated := Dated(r.values, today);
    if key !in notices then (notices[key := First(dated, r.buyerKey, hash, now)], New)
    else
      var held := notices[key];
      var (n, action) := Step(held, Carried(dated, r.localNumbers, held), r.buyerKey, hash, now);
      (notices[key := n], action)
  }

  // ------------------------------------------------------------------ what every notice keeps

  /** Versions 1..n with no gap, only the last open, each interval ending where the next begins. */
  ghost predicate Contiguous(vs: seq<Version>) {
    && vs != []
    && (forall i :: 0 <= i < |vs| ==> vs[i].number == i + 1)
    && (forall i :: 0 <= i < |vs| - 1 ==> vs[i].validTo == Some(vs[i + 1].validFrom))
    && Last(vs).validTo == None
  }

  ghost predicate DistinctHashes(vs: seq<Version>) {
    forall i, j :: 0 <= i < j < |vs| ==> vs[i].hash != vs[j].hash
  }

  /** Every version after the first states exactly the fields that differ from its predecessor, and some do. */
  ghost predicate StatesDifferences(vs: seq<Version>)
    requires vs != []
  {
    && vs[0].changed == []
    && (forall i :: 0 < i < |vs| ==>
          vs[i].changed != [] && vs[i].changed == ChangedFields(vs[i - 1].payload, vs[i].payload))
  }

  ghost predicate ServesLast(serving: Columns, payload: Columns) {
    forall f :: Versioned(f) ==> Get(serving, f) == Get(payload, f)
  }

  ghost predicate Chain(n: Notice) {
    && Contiguous(n.versions)
    && n.current == |n.versions|
    && DistinctHashes(n.versions)
    && StatesDifferences(n.versions)
    && ServesLast(n.serving, Last(n.versions).payload)
  }

  ghost predicate Sound(notices: Notices) {
    forall k :: k in notices ==> Chain(notices[k])
  }

  /** `later` is a future of `earlier`: no version was rewritten (the last may have been closed) and no held
      link was lost. */
  ghost predicate Continues(earlier: Notice, later: Notice) {
    && HistoryKept(earlier.versions, later.versions)
    && LinksKept(earlier.serving, later.serving)
  }

  ghost predicate HistoryKept(vs: seq<Version>, ws: seq<Version>) {
    && 0 < |vs| <= |ws|
    && (forall i :: 0 <= i < |vs| - 1 ==> ws[i] == vs[i])
    && ws[|vs| - 1].(validTo := Last(vs).validTo) == Last(vs)
  }

  ghost predicate LinksKept(held: Columns, served: Columns) {
    forall f :: KeptWhenAbsent(f) && Get(held, f) != Null ==> Get(served, f) != Null
  }

  // ------------------------------------------------------------------ the tables

  class Store {
    var notices: Notices

    constructor ()
      ensures notices == map[]
    {
      notices := map[];
    }

    /** `append_version`: close whatever is open, add the next version, move the serving row. */
    method AppendVersion(key: Key, values: Columns, buyerKey: string, hash: string, changed: seq<Field>,
                         after: nat, now: int)
      requires key in notices && Chain(notices[key]) && after == |notices[key].versions|
      modifies this
      ensures notices == old(notices)[key := Appended(old(notices)[key], values, buyerKey, hash, changed, now)]
    {
      var row := notices[key];
      var closed := seq(|row.versions|, i requires 0 <= i < |row.versions| =>
        if row.versions[i].validTo.None? then row.versions[i].(validTo := Some(now)) else row.versions[i]);
      ghost var vs := row.versions;
      forall i | 0 <= i < |vs| - 1 ensures closed[i] == vs[i] {
        assert vs[i].validTo == Some(vs[i + 1].validFrom);
      }
      assert closed == vs[..|vs| - 1] + [Last(vs).(validTo := Some(now))];
      var added := Version(after + 1, Payload(values), hash, changed, now, None);
      row := row.(versions := closed + [added]);
      assert row.versions == Extended(vs, Payload(values), hash, changed, now);
      row := row.(serving := Served(row.serving, ServingColumns(values)), buyerKey := buyerKey, current := after + 1);
      notices := notices[key := row];
    }

    /** `upsert_opportunity`. */
    method Upsert(source: int, r: Record, hash: string, today: int, now: int) returns (key: Key, action: Action)
      requires Sound(notices)
      modifies this
      ensures (notices, action) == Upserted(old(notices), source, r, hash, today, now)
      ensures key == KeyOf(old(notices), source, r) && key in notices
      ensures Sound(notices)
    {
      UpsertKeepsSound(notices, source, r, hash, today, now);
      var values := Dated(r.values, today);
      key := Key(source, Plain(r.native));
      if key in notices && r.localNumbers && notices[key].buyerKey != r.buyerKey {
        key := Key(source, Filed(r.native, r.buyerKey));
      }
      if key !in notices {
        notices := notices[key := First(values, r.buyerKey, hash, now)];
        return key, New;
      }
      values := Carried(values, r.localNumbers, notices[key]);
      action := Compare(key, values, r.buyerKey, hash, now);
    }

    /** The record of a notice that is known. */
    method Compare(key: Key, values: Columns, buyerKey: string, hash: string, now: int) returns (action: Action)
      requires key in notices && Chain(notices[key])
      modifies this
      ensures notices == old(notices)[key := Step(old(notices)[key], values, buyerKey, hash, now).0]
      ensures action == Step(old(notices)[key], values, buyerKey, hash, now).1
    {
      var held := notices[key];
      var payload := Payload(values);
      var last := Last(held.versions);
      assert notices == notices[key := held];
      if last.hash == hash {
        return Unchanged;
      }
      if exists i :: 0 <= i < |held.versions| && held.versions[i].hash == hash {
        return Unchanged;
      }
      if Late(last.payload, payload) {
        return Stale;
      }
      var changed := ChangedFields(last.payload, payload);
      if changed == [] {
        var served := Annotated(held.serving, ServingColumns(values), ReadNoEarlier(last.payload, payload));
        notices := notices[key := held.(serving := served)];
        return Unchanged;
      }
      AppendVersion(key, values, buyerKey, hash, changed, last.number, now);
      return Changed;
    }
  }

  // ------------------------------------------------------------------ proofs about one step

  lemma FirstIsChain(values: Columns, buyerKey: string, hash: string, now: int)
    ensures Chain(First(values, buyerKey, hash, now))
  {
  }

  lemma ContinuesItself(n: Notice)
    requires Chain(n)
    ensures Continues(n, n)
  {
  }

  lemma ExtendedIs(vs: seq<Version>, payload: Columns, hash: string, changed: seq<Field>, now: int)
    requires vs != []
    ensures var ws, n := Extended(vs, payload, hash, changed, now), |vs|;
            && |ws| == n + 1 && ws[n] == Version(n + 1, payload, hash, changed, now, None)
            && (forall i :: 0 <= i < n - 1 ==> ws[i] == vs[i])
            && ws[n - 1] == vs[n - 1].(validTo := Some(now))
  {
  }

  lemma ExtendedKeeps(vs: seq<Version>, payload: Columns, hash: string, now: int)
    requires Contiguous(vs) && DistinctHashes(vs) && StatesDifferences(vs)
    requires forall i :: 0 <= i < |vs| ==> vs[i].hash != hash
    requires ChangedFields(Last(vs).payload, payload) != []
    ensures var ws := Extended(vs, payload, hash, ChangedFields(Last(vs).payload, payload), now);
            Contiguous(ws) && DistinctHashes(ws) && StatesDifferences(ws) && HistoryKept(vs, ws)
  {
    var changed := ChangedFields(Last(vs).payload, payload);
    var ws := Extended(vs, payload, hash, changed, now);
    ExtendedIs(vs, payload, hash, changed, now);
    assert forall i :: 0 <= i < |vs| ==> ws[i].hash == vs[i].hash && ws[i].payload == vs[i].payload
                                         && ws[i].changed == vs[i].changed;
  }

  lemma ServedKeeps(held: Columns, values: Columns)
    ensures ServesLast(Served(held, ServingColumns(values)), Payload(values))
    ensures LinksKept(held, Served(held, ServingColumns(values)))
  {
  }

  lemma AnnotatedKeeps(held: Columns, values: Columns, newer: bool)
    ensures forall f :: Versioned(f) ==> Get(Annotated(held, values, newer), f) == Get(held, f)
    ensures forall f :: RoleOf(f) == HeldFirst && Get(held, f) != Null
                        ==> Get(Annotated(held, values, newer), f) == Get(held, f)
    ensures LinksKept(held, Annotated(held, values, newer))
  {
  }

  lemma StepKeeps(held: Notice, values: Columns, buyerKey: string, hash: string, now: int)
    requires Chain(held)
    ensures Chain(Step(held, values, buyerKey, hash, now).0)
    ensures Continues(held, Step(held, values, buyerKey, hash, now).0)
  {
    var prev := Last(held.versions).payload;
    if SeenAtSomeVersion(held, hash) || Late(prev, Payload(values)) {
    } else if ChangedFields(prev, Payload(values)) == [] {
      AnnotatedKeeps(held.serving, ServingColumns(values), ReadNoEarlier(prev, Payload(values)));
    } else {
      ExtendedKeeps(held.versions, Payload(values), hash, now);
      ServedKeeps(held.serving, values);
    }
  }

  lemma OneReplaced(notices: Notices, key: Key, n: Notice)
    requires Sound(notices) && Chain(n) && (key in notices ==> Continues(notices[key], n))
    ensures var next := notices[key := n];
            Sound(next) && forall k :: k in notices ==> k in next && Continues(notices[k], next[k])
  {
    forall k | k in notices {
      ContinuesItself(notices[k]);
    }
  }

  lemma UpsertKeeps(notices: Notices, source: int, r: Record, hash: string, today: int, now: int)
    requires Sound(notices)
    ensures var next := Upserted(notices, source, r, hash, today, now).0;
            Sound(next) && forall k :: k in notices ==> k in next && Continues(notices[k], next[k])
  {
    var key, dated := KeyOf(notices, source, r), Dated(r.values, today);
    if key !in notices {
      FirstIsChain(dated, r.buyerKey, hash, now);
      OneReplaced(notices, key, First(dated, r.buyerKey, hash, now));
    } else {
      var values := Carried(dated, r.localNumbers, notices[key]);
      StepKeeps(notices[key], values, r.buyerKey, hash, now);
      OneReplaced(notices, key, Step(notices[key], values, r.buyerKey, hash, now).0);
    }
  }

  lemma UpsertKeepsSound(notices: Notices, source: int, r: Record, hash: string, today: int, now: int)
    requires Sound(notices)
    ensures Sound(Upserted(notices, source, r, hash, today, now).0)
  {
    UpsertKeeps(notices, source, r, hash, today, now);
  }
}
