/**
  What holds of the archive over whole runs: every chain keeps its invariant and only grows, and the
  exact condition under which the order in which readings arrive does not matter.
 */
module ArchiveRuns {
  import opened Wrappers
  import opened Archive

  datatype Arrival = Arrival(source: int, record: Record, hash: string, today: int, now: int)

  function After(notices: Notices, a: Arrival): Notices
    requires Started(notices)
  {
    Upserted(notices, a.source, a.record, a.hash, a.today, a.now).0
  }

  function Run(notices: Notices, arrivals: seq<Arrival>): (r: Notices)
    requires Started(notices)
    ensures Started(r)
    decreases |arrivals|
  {
    if arrivals == [] then notices else Run(After(notices, arrivals[0]), arrivals[1..])
  }

  // ------------------------------------------------------------------ history only grows

  lemma ContinuesTransitive(a: Notice, b: Notice, c: Notice)
    requires Continues(a, b) && Continues(b, c)
    ensures Continues(a, c)
  {
  }

  /** No run rewrites a version, drops a notice or erases a held link. */
  lemma {:induction false} RunContinues(notices: Notices, arrivals: seq<Arrival>)
    requires Sound(notices)
    ensures Sound(Run(notices, arrivals))
    ensures forall k :: k in notices ==> k in Run(notices, arrivals) && Continues(notices[k], Run(notices, arrivals)[k])
    decreases |arrivals|
  {
    if arrivals == [] {
      forall k | k in notices {
        ContinuesItself(notices[k]);
      }
    } else {
      var a := arrivals[0];
      UpsertKeeps(notices, a.source, a.record, a.hash, a.today, a.now);
      var next := After(notices, a);
      RunContinues(next, arrivals[1..]);
      forall k | k in notices
        ensures k in Run(notices, arrivals) && Continues(notices[k], Run(notices, arrivals)[k])
      {
        ContinuesTransitive(notices[k], next[k], Run(next, arrivals[1..])[k]);
      }
    }
  }

  /** The instant the current version of a notice is stamped with. */
  function HeldStamp(n: Notice): Option<int>
    requires n.versions != []
  {
    StampOf(Last(n.versions).payload)
  }

  predicate NoEarlier(earlier: Option<int>, later: Option<int>) {
    earlier.Some? ==> later.Some? && earlier.value <= later.value
  }

  /** The archived payload states the dates that the record states. */
  lemma DatesAreKept(values: Columns)
    ensures StampOf(Payload(values)) == StampOf(values) && PublishedOn(Payload(values)) == PublishedOn(values)
    ensures DayOf(Payload(values)) == DayOf(values)
  {
  }

  /** What a record leaves as the current version: the one held, or its own, which is not late. */
  lemma CurrentAfter(held: Notice, values: Columns, buyerKey: string, hash: string, now: int)
    requires held.versions != []
    ensures var next, prev := Step(held, values, buyerKey, hash, now).0, Last(held.versions).payload;
            && next.versions != []
            && (Last(next.versions).payload == prev
                || (Last(next.versions).payload == Payload(values) && !Late(prev, Payload(values))))
  {
  }

  lemma StepNeverGoesBack(held: Notice, values: Columns, buyerKey: string, hash: string, now: int)
    requires held.versions != [] && StampOf(values).Some?
    ensures NoEarlier(HeldStamp(held), HeldStamp(Step(held, values, buyerKey, hash, now).0))
  {
    DatesAreKept(values);
    CurrentAfter(held, values, buyerKey, hash, now);
  }

  /** Where every record is stamped, an older reading never becomes the current version. */
  lemma {:induction false} StampNeverGoesBack(notices: Notices, arrivals: seq<Arrival>, key: Key)
    requires Started(notices) && key in notices
    requires forall i :: 0 <= i < |arrivals| ==> StampOf(arrivals[i].record.values).Some?
    ensures key in Run(notices, arrivals)
    ensures NoEarlier(HeldStamp(notices[key]), HeldStamp(Run(notices, arrivals)[key]))
    decreases |arrivals|
  {
    if arrivals != [] {
      var a := arrivals[0];
      if KeyOf(notices, a.source, a.record) == key {
        var values := Carried(Dated(a.record.values, a.today), a.record.localNumbers, notices[key]);
        StepNeverGoesBack(notices[key], values, a.record.buyerKey, a.hash, a.now);
      }
      StampNeverGoesBack(After(notices, a), arrivals[1..], key);
    }
  }

  /** The same by the day, for a source that states publication dates and no instant. */
  lemma {:induction false} DayNeverGoesBack(notices: Notices, arrivals: seq<Arrival>, key: Key)
    requires Started(notices) && key in notices
    requires HeldStamp(notices[key]).None?
    requires forall i :: 0 <= i < |arrivals| ==> DatedOnly(arrivals[i])
    ensures key in Run(notices, arrivals) && HeldStamp(Run(notices, arrivals)[key]).None?
    ensures NoEarlier(DayOf(Last(notices[key].versions).payload), DayOf(Last(Run(notices, arrivals)[key].versions).payload))
    decreases |arrivals|
  {
    if arrivals != [] {
      ArrivalNeverGoesBack(notices, arrivals[0], key);
      DayNeverGoesBack(After(notices, arrivals[0]), arrivals[1..], key);
    }
  }

  lemma DayStepNeverGoesBack(held: Notice, values: Columns, buyerKey: string, hash: string, now: int)
    requires held.versions != [] && HeldStamp(held).None? && StampOf(values).None? && PublishedOn(values).Some?
    ensures var next := Step(held, values, buyerKey, hash, now).0;
            && next.versions != [] && HeldStamp(next).None?
            && NoEarlier(DayOf(Last(held.versions).payload), DayOf(Last(next.versions).payload))
  {
    DatesAreKept(values);
    CurrentAfter(held, values, buyerKey, hash, now);
  }

  lemma ArrivalNeverGoesBack(notices: Notices, a: Arrival, key: Key)
    requires Started(notices) && key in notices && HeldStamp(notices[key]).None? && DatedOnly(a)
    ensures var next := After(notices, a);
            && key in next && HeldStamp(next[key]).None?
            && NoEarlier(DayOf(Last(notices[key].versions).payload), DayOf(Last(next[key].versions).payload))
  {
    if KeyOf(notices, a.source, a.record) == key {
      RecordTakenAsItIs(a.record.values, a.today, a.record.localNumbers, notices[key]);
      DayStepNeverGoesBack(notices[key], a.record.values, a.record.buyerKey, a.hash, a.now);
    }
  }

  predicate DatedOnly(a: Arrival) {
    var published := PublishedOn(a.record.values);
    StampOf(a.record.values).None? && published.Some? && published.value <= a.today + 1
  }

  // ------------------------------------------------------------------ what the caller is told

  /** "new" and "changed" are said exactly when a notice or a version was added; a late record leaves
      every notice as it was. */
  lemma ActionSaysWhatHappened(notices: Notices, a: Arrival)
    requires Sound(notices)
    ensures var key := KeyOf(notices, a.source, a.record);
            var (next, action) := Upserted(notices, a.source, a.record, a.hash, a.today, a.now);
            && (action == New <==> key !in notices)
            && (key in notices ==>
                  && (action == Changed <==> |next[key].versions| == |notices[key].versions| + 1)
                  && (action != Changed <==> next[key].versions == notices[key].versions))
            && (action == Stale ==> next == notices)
            && (forall k :: k != key ==> (k in next <==> k in notices) && (k in notices ==> next[k] == notices[k]))
  {
    var key := KeyOf(notices, a.source, a.record);
    if key in notices {
      var values := Carried(Dated(a.record.values, a.today), a.record.localNumbers, notices[key]);
      StepSaysWhatHappened(notices[key], values, a.record.buyerKey, a.hash, a.now);
      assert notices[key := notices[key]] == notices;
    }
  }

  lemma StepSaysWhatHappened(held: Notice, values: Columns, buyerKey: string, hash: string, now: int)
    requires held.versions != []
    ensures var (next, action) := Step(held, values, buyerKey, hash, now);
            && action != New
            && (action == Changed <==> |next.versions| == |held.versions| + 1)
            && (action != Changed <==> next.versions == held.versions)
            && (action == Stale ==> next == held)
  {
  }

  /** The day a record goes by: its stamp's, or its publication's where it has no stamp. */
  predicate GoesBy(m: Columns, day: int) {
    match Get(m, SourceUpdatedAt)
    case Moment(d, _, _) => d == day
    case _ => Get(m, PublishedAt) == Day(day)
  }

  /** One is earlier: by the instant where both state one, by the day otherwise, and never by a day that is the same. */
  ghost predicate Earlier(m: Columns, held: Columns) {
    var stamp, heldStamp := Get(m, SourceUpdatedAt), Get(held, SourceUpdatedAt);
    if stamp.Moment? && heldStamp.Moment? then stamp.at < heldStamp.at
    else exists d, e :: GoesBy(m, d) && GoesBy(held, e) && d < e
  }

  /** The record as it is taken into account where its notice is held. */
  function Taken(notices: Notices, a: Arrival): Columns
    requires Started(notices) && KeyOf(notices, a.source, a.record) in notices
  {
    Carried(Dated(a.record.values, a.today), a.record.localNumbers, notices[KeyOf(notices, a.source, a.record)])
  }

  lemma StaleExact(held: Notice, values: Columns, buyerKey: string, hash: string, now: int)
    requires held.versions != [] && forall i :: 0 <= i < |held.versions| ==> held.versions[i].hash != hash
    ensures Step(held, values, buyerKey, hash, now).1 == Stale <==> Earlier(values, Last(held.versions).payload)
  {
    var prev := Last(held.versions).payload;
    DatesAreKept(values);
    assert forall d :: GoesBy(values, d) <==> DayOf(values) == Some(d);
    assert forall d :: GoesBy(prev, d) <==> DayOf(prev) == Some(d);
  }

  /** Of a document not seen before, "stale" is answered exactly when the record is earlier than the version held, and
      "changed" exactly when it is not and a versioned field says something else: then the record is the current version. */
  lemma AnswerExact(notices: Notices, a: Arrival)
    requires Sound(notices)
    ensures var key := KeyOf(notices, a.source, a.record);
            var (next, action) := Upserted(notices, a.source, a.record, a.hash, a.today, a.now);
            key in notices && (forall i :: 0 <= i < |notices[key].versions| ==> notices[key].versions[i].hash != a.hash) ==>
              var held, values := Last(notices[key].versions).payload, Taken(notices, a);
              && (action == Stale <==> Earlier(values, held))
              && (action == Changed <==> !Earlier(values, held) && !SameContent(held, Payload(values)))
              && (action == Changed ==> next[key].versions != []
                                        && Last(next[key].versions).payload == Payload(values)
                                        && Last(next[key].versions).hash == a.hash)
  {
    var key := KeyOf(notices, a.source, a.record);
    if key in notices && forall i :: 0 <= i < |notices[key].versions| ==> notices[key].versions[i].hash != a.hash {
      var values := Taken(notices, a);
      StaleExact(notices[key], values, a.record.buyerKey, a.hash, a.now);
      NothingChanged(Last(notices[key].versions).payload, Payload(values));
    }
  }

  // ------------------------------------------------------------------ one buyer per notice

  ghost predicate FiledByItsBuyer(notices: Notices) {
    forall k :: k in notices && k.number.Filed? ==> notices[k].buyerKey == k.number.buyerKey
  }

  /** Where numbers are the buyer's own, two buyers never share a notice: no run changes whose it is. */
  lemma {:induction false} BuyerNeverChanges(notices: Notices, arrivals: seq<Arrival>)
    requires Started(notices) && FiledByItsBuyer(notices)
    requires forall i :: 0 <= i < |arrivals| ==> arrivals[i].record.localNumbers
    ensures FiledByItsBuyer(Run(notices, arrivals))
    ensures forall k :: k in notices ==>
              k in Run(notices, arrivals) && Run(notices, arrivals)[k].buyerKey == notices[k].buyerKey
    decreases |arrivals|
  {
    if arrivals != [] {
      var a := arrivals[0];
      var next := After(notices, a);
      var key := KeyOf(notices, a.source, a.record);
      assert key in notices ==> notices[key].buyerKey == a.record.buyerKey;
      BuyerNeverChanges(next, arrivals[1..]);
    }
  }

  // ------------------------------------------------------------------ order of arrival

  /** One reading of a notice: the record and the hash of the raw document it was read from. */
  datatype Reading = Reading(record: Record, hash: string)

  /** The delivery of a reading, with the date and the clock at which it arrives. */
  datatype Delivery = Delivery(reading: nat, today: int, now: int)

  function Stamp(r: Reading): int {
    StampOf(r.record.values).GetOr(0)
  }

  function Content(r: Reading): Columns {
    Payload(r.record.values)
  }

  /** Readings of one notice from one buyer, each with an instant and a hash of its own; where numbers are the
      buyer's own, each with a publication date, because one that states none would take over the held one. */
  ghost predicate Family(rs: seq<Reading>) {
    && rs != []
    && (forall i :: 0 <= i < |rs| ==> StampOf(rs[i].record.values).Some?)
    && (forall i :: 0 <= i < |rs| && rs[i].record.localNumbers ==> PublishedOn(rs[i].record.values).Some?)
    && (forall i :: 0 <= i < |rs| ==>
          rs[i].record.native == rs[0].record.native && rs[i].record.buyerKey == rs[0].record.buyerKey)
    && (forall i, j :: 0 <= i < |rs| && 0 <= j < |rs| && i != j ==>
          Stamp(rs[i]) != Stamp(rs[j]) && rs[i].hash != rs[j].hash)
  }

  ghost predicate IsLatest(rs: seq<Reading>, top: nat) {
    top < |rs| && forall i :: 0 <= i < |rs| ==> Stamp(rs[i]) <= Stamp(rs[top])
  }

  /** Every delivery names a reading whose publication date is not in the future when it arrives. */
  ghost predicate Deliverable(rs: seq<Reading>, order: seq<Delivery>) {
    forall k :: 0 <= k < |order| ==> Due(rs, order[k])
  }

  predicate Due(rs: seq<Reading>, d: Delivery) {
    d.reading < |rs| && NotAhead(rs[d.reading].record.values, d.today)
  }

  /** No publication date is stated that is still in the future. */
  predicate NotAhead(values: Columns, today: int) {
    PublishedOn(values).None? || PublishedOn(values).value <= today + 1
  }

  /** An order of arrival: every reading is delivered at least once, any of them again and again. */
  ghost predicate Order(rs: seq<Reading>, order: seq<Delivery>) {
    && Deliverable(rs, order)
    && forall i :: 0 <= i < |rs| ==> Delivers(order, i)
  }

  ghost predicate Delivers(order: seq<Delivery>, i: nat) {
    exists k :: 0 <= k < |order| && order[k].reading == i
  }

  function Arrivals(source: int, rs: seq<Reading>, order: seq<Delivery>): (r: seq<Arrival>)
    requires forall k :: 0 <= k < |order| ==> order[k].reading < |rs|
  {
    seq(|order|, k requires 0 <= k < |order| => ArrivalOf(source, rs, order[k]))
  }

  /** The notice after the whole order has arrived at an empty archive. */
  ghost predicate EndsWith(source: int, rs: seq<Reading>, order: seq<Delivery>, top: nat)
    requires Order(rs, order) && rs != [] && top < |rs|
  {
    var end := Run(map[], Arrivals(source, rs, order));
    var key := FamilyKey(source, rs);
    key in end && SameContent(Last(end[key].versions).payload, Content(rs[top]))
  }

  /** Once a reading says what the latest says, so does every later one: the source never leaves its
      final content and comes back to it. */
  ghost predicate NeverComesBack(rs: seq<Reading>, top: nat)
    requires top < |rs|
  {
    forall i, j :: 0 <= i < |rs| && 0 <= j < |rs| && Stamp(rs[i]) < Stamp(rs[j])
                   && SameContent(Content(rs[i]), Content(rs[top]))
                   ==> SameContent(Content(rs[j]), Content(rs[top]))
  }

  /** The order of arrival does not decide the final content exactly when the source never comes back
      to its final content after leaving it. */
  lemma OrderIndependenceExact(source: int, rs: seq<Reading>, top: nat)
    requires Family(rs) && IsLatest(rs, top)
    ensures NeverComesBack(rs, top) <==> forall order :: Order(rs, order) ==> EndsWith(source, rs, order, top)
  {
    if NeverComesBack(rs, top) {
      forall order | Order(rs, order) ensures EndsWith(source, rs, order, top) {
        EveryOrderEndsWithLatest(source, rs, order, top);
      }
    } else {
      var order := SomeOrderEndsElsewhere(source, rs, top);
    }
  }

  /** When every two readings differ, every order of arrival leaves the latest reading itself as the
      current version, and its versioned fields on the serving row. */
  lemma LatestReadingWins(source: int, rs: seq<Reading>, order: seq<Delivery>, top: nat)
    requires Family(rs) && IsLatest(rs, top) && Order(rs, order)
    requires forall i, j :: 0 <= i < |rs| && 0 <= j < |rs| && i != j ==> !SameContent(Content(rs[i]), Content(rs[j]))
    ensures var end := Run(map[], Arrivals(source, rs, order));
            var key := FamilyKey(source, rs);
            && key in end
            && Last(end[key].versions).payload == Content(rs[top])
            && Last(end[key].versions).hash == rs[top].hash
            && forall f :: Versioned(f) ==> Get(end[key].serving, f) == Get(rs[top].record.values, f)
  {
    var h := RunSettles(source, rs, order);
    OrderSettlesOnLatest(rs, order, top);
    assert h == top;
    RunContinues(map[], Arrivals(source, rs, order));
  }

  // ------------------------------------------------------------------ which reading is held

  /** The reading held after the next one arrives: it moves only forward in time and on a difference. */
  ghost function NextHeld(rs: seq<Reading>, h: nat, j: nat): nat
    requires h < |rs| && j < |rs|
  {
    if Stamp(rs[h]) < Stamp(rs[j]) && !SameContent(Content(rs[h]), Content(rs[j])) then j else h
  }

  predicate Within(rs: seq<Reading>, order: seq<nat>) {
    forall p :: 0 <= p < |order| ==> order[p] < |rs|
  }

  ghost function Settle(rs: seq<Reading>, h: nat, order: seq<nat>): (r: nat)
    requires h < |rs| && Within(rs, order)
    ensures r < |rs|
    decreases |order|
  {
    if order == [] then h else Settle(rs, NextHeld(rs, h, order[0]), order[1..])
  }

  function Readings(order: seq<Delivery>): (r: seq<nat>)
    ensures |r| == |order|
    ensures forall k :: 0 <= k < |order| ==> r[k] == order[k].reading
  {
    seq(|order|, k requires 0 <= k < |order| => order[k].reading)
  }

  ghost predicate FromReading(v: Version, rs: seq<Reading>, h: nat)
    requires h < |rs|
  {
    exists j :: 0 <= j < |rs| && v.hash == rs[j].hash && Stamp(rs[j]) <= Stamp(rs[h])
  }

  /** The notice's current version is reading `h`, and every archived version came from a reading
      stamped no later. */
  ghost predicate HoldsReading(n: Notice, rs: seq<Reading>, h: nat)
    requires h < |rs|
  {
    && n.versions != []
    && n.buyerKey == rs[0].record.buyerKey
    && Last(n.versions).payload == Content(rs[h])
    && Last(n.versions).hash == rs[h].hash
    && forall i :: 0 <= i < |n.versions| ==> FromReading(n.versions[i], rs, h)
  }

  ghost predicate Holds(notices: Notices, key: Key, rs: seq<Reading>, h: nat) {
    && h < |rs|
    && notices.Keys == {key}
    && HoldsReading(notices[key], rs, h)
  }

  function FamilyKey(source: int, rs: seq<Reading>): Key
    requires rs != []
  {
    Key(source, Plain(rs[0].record.native))
  }

  lemma RecordTakenAsItIs(values: Columns, today: int, localNumbers: bool, held: Notice)
    requires held.versions != []
    requires NotAhead(values, today) && (localNumbers ==> PublishedOn(values).Some?)
    ensures Dated(values, today) == values
    ensures Carried(values, localNumbers, held) == values
  {
  }

  function ArrivalOf(source: int, rs: seq<Reading>, d: Delivery): Arrival
    requires d.reading < |rs|
  {
    Arrival(source, rs[d.reading].record, rs[d.reading].hash, d.today, d.now)
  }

  lemma FirstHolds(source: int, rs: seq<Reading>, d: Delivery)
    requires Family(rs) && Due(rs, d)
    ensures Holds(After(map[], ArrivalOf(source, rs, d)), FamilyKey(source, rs), rs, d.reading)
  {
  }

  lemma StepHolds(held: Notice, rs: seq<Reading>, h: nat, j: nat, now: int)
    requires Family(rs) && h < |rs| && j < |rs| && HoldsReading(held, rs, h)
    ensures HoldsReading(Step(held, rs[j].record.values, rs[j].record.buyerKey, rs[j].hash, now).0, rs, NextHeld(rs, h, j))
  {
    if SeenAtSomeVersion(held, rs[j].hash) {
      var i :| 0 <= i < |held.versions| && held.versions[i].hash == rs[j].hash;
      assert FromReading(held.versions[i], rs, h);
      assert NextHeld(rs, h, j) == h;
    } else if Stamp(rs[j]) < Stamp(rs[h]) {
      assert Late(Content(rs[h]), Content(rs[j]));
    } else {
      assert held.versions[|held.versions| - 1].hash != rs[j].hash;
      assert j != h;
      assert !Late(Content(rs[h]), Content(rs[j]));
      NothingChanged(Content(rs[h]), Content(rs[j]));
      if !SameContent(Content(rs[h]), Content(rs[j])) {
        AppendHolds(held, rs, h, j, now);
      }
    }
  }

  lemma AppendHolds(held: Notice, rs: seq<Reading>, h: nat, j: nat, now: int)
    requires Family(rs) && h < |rs| && j < |rs| && HoldsReading(held, rs, h) && Stamp(rs[h]) < Stamp(rs[j])
    ensures HoldsReading(Appended(held, rs[j].record.values, rs[j].record.buyerKey, rs[j].hash,
                                  ChangedFields(Content(rs[h]), Content(rs[j])), now), rs, j)
  {
  }

  lemma ArrivalHolds(notices: Notices, source: int, rs: seq<Reading>, h: nat, d: Delivery)
    requires Family(rs) && Due(rs, d)
    requires Started(notices) && Holds(notices, FamilyKey(source, rs), rs, h)
    ensures Holds(After(notices, ArrivalOf(source, rs, d)), FamilyKey(source, rs), rs, NextHeld(rs, h, d.reading))
  {
    var r := rs[d.reading];
    var held := notices[FamilyKey(source, rs)];
    RecordTakenAsItIs(r.record.values, d.today, r.record.localNumbers, held);
    StepHolds(held, rs, h, d.reading, d.now);
  }

  lemma OneThenTheRest(source: int, rs: seq<Reading>, order: seq<Delivery>)
    requires Deliverable(rs, order) && order != []
    ensures Readings(order)[0] == order[0].reading && Readings(order)[1..] == Readings(order[1..])
    ensures Arrivals(source, rs, order)[0] == ArrivalOf(source, rs, order[0])
    ensures Arrivals(source, rs, order)[1..] == Arrivals(source, rs, order[1..])
  {
  }

  lemma {:induction false} HeldIsSettled(notices: Notices, source: int, rs: seq<Reading>, h: nat, order: seq<Delivery>)
    requires Family(rs) && Deliverable(rs, order)
    requires Started(notices) && Holds(notices, FamilyKey(source, rs), rs, h)
    ensures Holds(Run(notices, Arrivals(source, rs, order)), FamilyKey(source, rs), rs, Settle(rs, h, Readings(order)))
    decreases |order|
  {
    if order != [] {
      var d, rest := order[0], order[1..];
      ArrivalHolds(notices, source, rs, h, d);
      OneThenTheRest(source, rs, order);
      HeldIsSettled(After(notices, ArrivalOf(source, rs, d)), source, rs, NextHeld(rs, h, d.reading), rest);
    }
  }

  /** The run of the archive comes down to the readings it holds one after another. */
  lemma RunSettles(source: int, rs: seq<Reading>, order: seq<Delivery>) returns (h: nat)
    requires Family(rs) && Order(rs, order)
    ensures order != []
    ensures h == Settle(rs, order[0].reading, Readings(order)[1..])
    ensures Holds(Run(map[], Arrivals(source, rs, order)), FamilyKey(source, rs), rs, h)
  {
    assert order != [] by {
      assert Delivers(order, 0);
    }
    var d, rest := order[0], order[1..];
    FirstHolds(source, rs, d);
    OneThenTheRest(source, rs, order);
    HeldIsSettled(After(map[], ArrivalOf(source, rs, d)), source, rs, d.reading, rest);
    h := Settle(rs, d.reading, Readings(rest));
  }

  // ------------------------------------------------------------------ the final content

  lemma {:induction false} SettlesOnLatest(rs: seq<Reading>, h: nat, order: seq<nat>, top: nat)
    requires Family(rs) && IsLatest(rs, top) && NeverComesBack(rs, top)
    requires h < |rs| && Within(rs, order)
    requires top in order || SameContent(Content(rs[h]), Content(rs[top]))
    ensures SameContent(Content(rs[Settle(rs, h, order)]), Content(rs[top]))
    decreases |order|
  {
    if order != [] {
      var j := order[0];
      SameContentIsEquivalence(Content(rs[top]), Content(rs[top]), Content(rs[top]));
      SameContentIsEquivalence(Content(rs[h]), Content(rs[top]), Content(rs[j]));
      SameContentIsEquivalence(Content(rs[j]), Content(rs[top]), Content(rs[h]));
      SettlesOnLatest(rs, NextHeld(rs, h, j), order[1..], top);
    }
  }

  lemma OrderSettlesOnLatest(rs: seq<Reading>, order: seq<Delivery>, top: nat)
    requires Family(rs) && IsLatest(rs, top) && NeverComesBack(rs, top) && Order(rs, order) && order != []
    ensures SameContent(Content(rs[Settle(rs, order[0].reading, Readings(order)[1..])]), Content(rs[top]))
  {
    var first, rest := order[0].reading, Readings(order)[1..];
    assert Delivers(order, top);
    var k :| 0 <= k < |order| && order[k].reading == top;
    assert k > 0 ==> rest[k - 1] == top;
    SameContentIsEquivalence(Content(rs[top]), Content(rs[top]), Content(rs[top]));
    SettlesOnLatest(rs, first, rest, top);
  }

  lemma EveryOrderEndsWithLatest(source: int, rs: seq<Reading>, order: seq<Delivery>, top: nat)
    requires Family(rs) && IsLatest(rs, top) && NeverComesBack(rs, top) && Order(rs, order)
    ensures EndsWith(source, rs, order, top)
  {
    var h := RunSettles(source, rs, order);
    OrderSettlesOnLatest(rs, order, top);
  }

  // ------------------------------------------------------------------ an order that ends elsewhere

  /** The readings below `n` stamped after `bound` (or, with `after` false, not after it). */
  function Chosen(rs: seq<Reading>, n: nat, bound: int, after: bool): (r: seq<nat>)
    requires n <= |rs|
    ensures Within(rs, r)
    ensures forall k :: k in r <==> 0 <= k < n && (Stamp(rs[k]) > bound) == after
  {
    if n == 0 then []
    else
      var rest := Chosen(rs, n - 1, bound, after);
      if (Stamp(rs[n - 1]) > bound) == after then rest + [n - 1] else rest
  }

  lemma {:induction false} SettleConcat(rs: seq<Reading>, h: nat, a: seq<nat>, b: seq<nat>)
    requires h < |rs| && Within(rs, a) && Within(rs, b)
    ensures Settle(rs, h, a + b) == Settle(rs, Settle(rs, h, a), b)
    decreases |a|
  {
    if a == [] {
      assert a + b == b;
    } else {
      assert (a + b)[1..] == a[1..] + b;
      SettleConcat(rs, NextHeld(rs, h, a[0]), a[1..], b);
    }
  }

  /** Readings that are not later, or say the same, leave the held one where it is. */
  lemma {:induction false} SettleStays(rs: seq<Reading>, h: nat, order: seq<nat>)
    requires h < |rs| && Within(rs, order)
    requires forall j :: j in order ==> Stamp(rs[j]) <= Stamp(rs[h]) || SameContent(Content(rs[h]), Content(rs[j]))
    ensures Settle(rs, h, order) == h
    decreases |order|
  {
    if order != [] {
      assert order[0] in order;
      SettleStays(rs, h, order[1..]);
    }
  }

  /** The latest reading whose content is not the final one. */
  lemma LatestOther(rs: seq<Reading>, top: nat, j: nat) returns (m: nat)
    requires Family(rs) && top < |rs| && j < |rs| && !SameContent(Content(rs[j]), Content(rs[top]))
    ensures m < |rs| && Stamp(rs[j]) <= Stamp(rs[m]) && !SameContent(Content(rs[m]), Content(rs[top]))
    ensures forall k :: 0 <= k < |rs| && Stamp(rs[m]) < Stamp(rs[k]) ==> SameContent(Content(rs[k]), Content(rs[top]))
  {
    m := j;
    var n := 0;
    while n < |rs|
      invariant 0 <= n <= |rs| && m < |rs|
      invariant Stamp(rs[j]) <= Stamp(rs[m]) && !SameContent(Content(rs[m]), Content(rs[top]))
      invariant forall k :: 0 <= k < n && Stamp(rs[m]) < Stamp(rs[k]) ==> SameContent(Content(rs[k]), Content(rs[top]))
    {
      if Stamp(rs[m]) < Stamp(rs[n]) && !SameContent(Content(rs[n]), Content(rs[top])) {
        m := n;
      }
      n := n + 1;
    }
  }

  /** The reading that already says the final content, then everything after `m` (all of it unchanged),
      then `m` itself, which is now newer than what is held, then the rest, which is late. */
  function Detour(rs: seq<Reading>, i: nat, m: nat): seq<nat>
    requires m < |rs|
  {
    [i] + (Chosen(rs, |rs|, Stamp(rs[m]), true) + ([m] + Chosen(rs, |rs|, Stamp(rs[m]), false)))
  }

  lemma DetourCovers(rs: seq<Reading>, i: nat, m: nat)
    requires i < |rs| && m < |rs|
    ensures Within(rs, Detour(rs, i, m))
    ensures Within(rs, Detour(rs, i, m)[1..])
    ensures forall k :: 0 <= k < |rs| ==> k in Detour(rs, i, m)
  {
  }

  lemma DetourSettles(rs: seq<Reading>, top: nat, i: nat, m: nat)
    requires i < |rs| && m < |rs| && top < |rs| && Stamp(rs[i]) < Stamp(rs[m])
    requires SameContent(Content(rs[i]), Content(rs[top])) && !SameContent(Content(rs[m]), Content(rs[top]))
    requires forall k :: 0 <= k < |rs| && Stamp(rs[m]) < Stamp(rs[k]) ==> SameContent(Content(rs[k]), Content(rs[top]))
    ensures Within(rs, Detour(rs, i, m)[1..])
    ensures Settle(rs, i, Detour(rs, i, m)[1..]) == m
  {
    DetourCovers(rs, i, m);
    var later, rest := Chosen(rs, |rs|, Stamp(rs[m]), true), Chosen(rs, |rs|, Stamp(rs[m]), false);
    assert Detour(rs, i, m)[1..] == later + ([m] + rest);
    forall k | k in later ensures SameContent(Content(rs[i]), Content(rs[k])) {
      SameContentIsEquivalence(Content(rs[k]), Content(rs[top]), Content(rs[i]));
      SameContentIsEquivalence(Content(rs[i]), Content(rs[top]), Content(rs[k]));
    }
    SettleConcat(rs, i, later, [m] + rest);
    SettleStays(rs, i, later);
    SameContentIsEquivalence(Content(rs[i]), Content(rs[m]), Content(rs[top]));
    SameContentIsEquivalence(Content(rs[m]), Content(rs[i]), Content(rs[top]));
    assert NextHeld(rs, i, m) == m;
    assert ([m] + rest)[1..] == rest;
    SettleStays(rs, m, rest);
  }

  lemma SomeOrderEndsElsewhere(source: int, rs: seq<Reading>, top: nat) returns (order: seq<Delivery>)
    requires Family(rs) && IsLatest(rs, top) && !NeverComesBack(rs, top)
    ensures Order(rs, order) && !EndsWith(source, rs, order, top)
  {
    var i, j :| 0 <= i < |rs| && 0 <= j < |rs| && Stamp(rs[i]) < Stamp(rs[j])
                && SameContent(Content(rs[i]), Content(rs[top])) && !SameContent(Content(rs[j]), Content(rs[top]));
    var m := LatestOther(rs, top, j);
    order := DetourOrder(rs, i, m);
    var h := RunSettles(source, rs, order);
    assert Readings(order) == Detour(rs, i, m);
    DetourSettles(rs, top, i, m);
    assert h == m;
  }

  lemma DetourOrder(rs: seq<Reading>, i: nat, m: nat) returns (order: seq<Delivery>)
    requires Family(rs) && i < |rs| && m < |rs|
    ensures Order(rs, order) && Readings(order) == Detour(rs, i, m)
  {
    var all := Detour(rs, i, m);
    DetourCovers(rs, i, m);
    order := seq(|all|, k requires 0 <= k < |all| => AsDelivery(rs, all[k]));
    forall k | 0 <= k < |all| ensures Due(rs, order[k]) {
      assert all[k] in all;
    }
    forall k | 0 <= k < |rs| ensures Delivers(order, k) {
      assert k in all;
      var p :| 0 <= p < |all| && all[p] == k;
      assert order[p].reading == k;
    }
    assert Readings(order) == all;
  }

  function AsDelivery(rs: seq<Reading>, i: nat): Delivery {
    Delivery(i, if i < |rs| then PublishedOn(rs[i].record.values).GetOr(0) else 0, 0)
  }

  // ------------------------------------------------------------------ a source that comes back

  /** A reading that states an instant and a status. */
  function Said(at: int, status: string, hash: string): Reading {
    Reading(Record("n", "b", false, map[SourceUpdatedAt := Moment(at, at, ""), Status := Text(status)]), hash)
  }

  /** Open, then closed, then open again. */
  function Reopened(): seq<Reading> {
    [Said(1, "o", "x"), Said(2, "c", "y"), Said(3, "o", "z")]
  }

  lemma SaysTheStatus(at: int, status: string, hash: string)
    ensures StampOf(Said(at, status, hash).record.values) == Some(at) && Stamp(Said(at, status, hash)) == at
    ensures Get(Content(Said(at, status, hash)), Status) == Text(status)
    ensures forall f :: Versioned(f) && f != Status ==> Get(Content(Said(at, status, hash)), f) == Null
  {
  }

  lemma SameIffSameStatus(at: int, status: string, hash: string, later: int, other: string, hash2: string)
    requires status != "" && other != ""
    ensures SameContent(Content(Said(at, status, hash)), Content(Said(later, other, hash2))) <==> status == other
  {
    SaysTheStatus(at, status, hash);
    SaysTheStatus(later, other, hash2);
  }

  lemma ReopenedIsFamily()
    ensures Family(Reopened()) && IsLatest(Reopened(), 2)
  {
    SaysTheStatus(1, "o", "x");
    SaysTheStatus(2, "c", "y");
    SaysTheStatus(3, "o", "z");
  }

  lemma ReopenedComesBack()
    ensures Family(Reopened()) && IsLatest(Reopened(), 2) && !NeverComesBack(Reopened(), 2)
  {
    var rs := Reopened();
    ReopenedIsFamily();
    SaysTheStatus(1, "o", "x");
    SaysTheStatus(2, "c", "y");
    SameIffSameStatus(1, "o", "x", 3, "o", "z");
    SameIffSameStatus(2, "c", "y", 3, "o", "z");
    assert Stamp(rs[0]) < Stamp(rs[1]) && SameContent(Content(rs[0]), Content(rs[2])) && !SameContent(Content(rs[1]), Content(rs[2]));
  }

  /** Such a notice, and an order of arrival after which the archive says it is closed. */
  lemma ReopenedEndsClosed(source: int) returns (order: seq<Delivery>)
    ensures Order(Reopened(), order) && !EndsWith(source, Reopened(), order, 2)
  {
    ReopenedComesBack();
    order := SomeOrderEndsElsewhere(source, Reopened(), 2);
  }

  // ------------------------------------------------------------------ amid other notices

  /** The arrivals under one number of one source. */
  function Numbered(arrivals: seq<Arrival>, source: int, native: string): seq<Arrival> {
    if arrivals == [] then []
    else
      var rest := Numbered(arrivals[1..], source, native);
      if IsNumbered(arrivals[0], source, native) then [arrivals[0]] + rest else rest
  }

  predicate IsNumbered(a: Arrival, source: int, native: string) {
    a.source == source && a.record.native == native
  }

  /** Two archives hold the same under a key, from the buyer given. */
  predicate SameUnder(a: Notices, b: Notices, key: Key, buyerKey: string) {
    && (key in a <==> key in b)
    && (key in a ==> a[key] == b[key] && a[key].buyerKey == buyerKey)
  }

  lemma SameAfter(a: Notices, b: Notices, arrival: Arrival, source: int, native: string, buyerKey: string)
    requires Started(a) && Started(b) && SameUnder(a, b, Key(source, Plain(native)), buyerKey)
    requires IsNumbered(arrival, source, native) && arrival.record.buyerKey == buyerKey
    ensures SameUnder(After(a, arrival), After(b, arrival), Key(source, Plain(native)), buyerKey)
  {
  }

  lemma ElsewhereLeaves(a: Notices, b: Notices, arrival: Arrival, source: int, native: string, buyerKey: string)
    requires Started(a) && SameUnder(a, b, Key(source, Plain(native)), buyerKey) && !IsNumbered(arrival, source, native)
    ensures SameUnder(After(a, arrival), b, Key(source, Plain(native)), buyerKey)
  {
  }

  /** What becomes of a notice is decided by the arrivals under its number, whatever else the archive holds and
      whatever arrives between them. */
  lemma {:induction false} OthersDoNotMatter(a: Notices, b: Notices, arrivals: seq<Arrival>, source: int, native: string, buyerKey: string)
    requires Started(a) && Started(b) && SameUnder(a, b, Key(source, Plain(native)), buyerKey)
    requires forall i :: 0 <= i < |arrivals| && IsNumbered(arrivals[i], source, native) ==> arrivals[i].record.buyerKey == buyerKey
    ensures SameUnder(Run(a, arrivals), Run(b, Numbered(arrivals, source, native)), Key(source, Plain(native)), buyerKey)
    decreases |arrivals|
  {
    if arrivals != [] {
      var first, rest := arrivals[0], arrivals[1..];
      if IsNumbered(first, source, native) {
        SameAfter(a, b, first, source, native, buyerKey);
        OthersDoNotMatter(After(a, first), After(b, first), rest, source, native, buyerKey);
        assert ([first] + Numbered(rest, source, native))[1..] == Numbered(rest, source, native);
      } else {
        ElsewhereLeaves(a, b, first, source, native, buyerKey);
        OthersDoNotMatter(After(a, first), b, rest, source, native, buyerKey);
      }
    }
  }

  /** So an order of arrival ends as it does alone, in an archive of other notices and amid their arrivals. */
  lemma EndsAsAlone(notices: Notices, arrivals: seq<Arrival>, source: int, rs: seq<Reading>, order: seq<Delivery>, top: nat)
    requires Family(rs) && top < |rs| && Order(rs, order)
    requires Started(notices) && FamilyKey(source, rs) !in notices
    requires Numbered(arrivals, source, rs[0].record.native) == Arrivals(source, rs, order)
    ensures var end, key := Run(notices, arrivals), FamilyKey(source, rs);
            EndsWith(source, rs, order, top) <==> key in end && SameContent(Last(end[key].versions).payload, Content(rs[top]))
  {
    var native, buyerKey := rs[0].record.native, rs[0].record.buyerKey;
    forall i | 0 <= i < |arrivals| && IsNumbered(arrivals[i], source, native) ensures arrivals[i].record.buyerKey == buyerKey {
      NumberedHas(arrivals, source, native, i);
      var k :| 0 <= k < |Arrivals(source, rs, order)| && Arrivals(source, rs, order)[k] == arrivals[i];
      assert arrivals[i].record == rs[order[k].reading].record;
    }
    OthersDoNotMatter(notices, map[], arrivals, source, native, buyerKey);
  }

  lemma {:induction false} NumberedHas(arrivals: seq<Arrival>, source: int, native: string, i: nat)
    requires i < |arrivals| && IsNumbered(arrivals[i], source, native)
    ensures arrivals[i] in Numbered(arrivals, source, native)
  {
    if i > 0 {
      NumberedHas(arrivals[1..], source, native, i - 1);
    }
  }

  // ------------------------------------------------------------------ days alone

  /** The arrivals under the number are of the buyer, state a day and no instant, and are documents of their own, not
      read before. */
  ghost predicate DaysOnly(notices: Notices, arrivals: seq<Arrival>, source: int, native: string, buyerKey: string) {
    && (forall i :: 0 <= i < |arrivals| && IsNumbered(arrivals[i], source, native) ==>
          arrivals[i].record.buyerKey == buyerKey && DatedOnly(arrivals[i]) && Unread(notices, Key(source, Plain(native)), arrivals[i].hash))
    && (forall i, j :: 0 <= i < j < |arrivals| && IsNumbered(arrivals[i], source, native) && IsNumbered(arrivals[j], source, native) ==>
          arrivals[i].hash != arrivals[j].hash)
  }

  ghost predicate Unread(notices: Notices, key: Key, hash: string) {
    key in notices ==> forall i :: 0 <= i < |notices[key].versions| ==> notices[key].versions[i].hash != hash
  }

  /** What is held under the number, if anything, is the buyer's, has no instant and no later day. */
  ghost predicate HeldByDay(notices: Notices, key: Key, buyerKey: string, latest: int)
    requires Started(notices)
  {
    key in notices ==>
      && notices[key].buyerKey == buyerKey && HeldStamp(notices[key]).None?
      && (DayOf(Last(notices[key].versions).payload).Some? ==> DayOf(Last(notices[key].versions).payload).value <= latest)
  }

  function PublishedDay(a: Arrival): int {
    PublishedOn(a.record.values).GetOr(0)
  }

  /** One dated record: it is what is held in content and day, unless it is of an earlier day; then nothing moves. */
  lemma DatedArrival(notices: Notices, a: Arrival, key: Key, buyerKey: string, latest: int)
    requires Started(notices) && key == Key(a.source, Plain(a.record.native)) && a.record.buyerKey == buyerKey
    requires DatedOnly(a) && PublishedDay(a) <= latest && HeldByDay(notices, key, buyerKey, latest)
    requires Unread(notices, key, a.hash)
    ensures var next := After(notices, a);
            && key in next && HeldByDay(next, key, buyerKey, latest)
            && (forall hash :: Unread(notices, key, hash) && hash != a.hash ==> Unread(next, key, hash))
            && (if key in notices && Earlier(a.record.values, Last(notices[key].versions).payload)
                then next[key] == notices[key]
                else SameContent(Last(next[key].versions).payload, Payload(a.record.values)))
  {
    DatesAreKept(a.record.values);
    var own := Payload(a.record.values);
    SameContentIsEquivalence(own, own, own);
    if key in notices {
      RecordTakenAsItIs(a.record.values, a.today, a.record.localNumbers, notices[key]);
      DatedStep(notices[key], a.record.values, buyerKey, a.hash, a.now);
      forall hash | Unread(notices, key, hash) && hash != a.hash ensures Unread(After(notices, a), key, hash) {
        HashesAfter(notices[key], a.record.values, buyerKey, a.hash, a.now, hash);
      }
    }
  }

  lemma HashesAfter(held: Notice, values: Columns, buyerKey: string, hash: string, now: int, other: string)
    requires held.versions != [] && other != hash && forall i :: 0 <= i < |held.versions| ==> held.versions[i].hash != other
    ensures var next := Step(held, values, buyerKey, hash, now).0;
            forall i :: 0 <= i < |next.versions| ==> next.versions[i].hash != other
  {
  }

  lemma DatedStep(held: Notice, values: Columns, buyerKey: string, hash: string, now: int)
    requires held.versions != [] && held.buyerKey == buyerKey && HeldStamp(held).None?
    requires StampOf(values).None? && PublishedOn(values).Some?
    requires forall i :: 0 <= i < |held.versions| ==> held.versions[i].hash != hash
    ensures var next := Step(held, values, buyerKey, hash, now).0;
            && next.versions != [] && next.buyerKey == buyerKey && HeldStamp(next).None?
            && (DayOf(Last(next.versions).payload) == DayOf(Last(held.versions).payload)
                || DayOf(Last(next.versions).payload) == PublishedOn(values))
            && (if Earlier(values, Last(held.versions).payload) then next == held
                else SameContent(Last(next.versions).payload, Payload(values)))
  {
    DatesAreKept(values);
    CurrentAfter(held, values, buyerKey, hash, now);
    DatedStepMeans(held, values, buyerKey, hash, now);
  }

  lemma DatedStepMeans(held: Notice, values: Columns, buyerKey: string, hash: string, now: int)
    requires held.versions != [] && held.buyerKey == buyerKey
    requires forall i :: 0 <= i < |held.versions| ==> held.versions[i].hash != hash
    ensures var next := Step(held, values, buyerKey, hash, now).0;
            && next.versions != [] && next.buyerKey == buyerKey
            && (if Earlier(values, Last(held.versions).payload) then next == held
                else SameContent(Last(next.versions).payload, Payload(values)))
  {
    StaleExact(held, values, buyerKey, hash, now);
    NothingChanged(Last(held.versions).payload, Payload(values));
    SameContentIsEquivalence(Payload(values), Payload(values), Payload(values));
  }

  /** Records of earlier days than the one held change nothing. */
  lemma {:induction false} EarlierDaysAreStale(notices: Notices, arrivals: seq<Arrival>, source: int, native: string, buyerKey: string)
    requires Started(notices) && Key(source, Plain(native)) in notices && DaysOnly(notices, arrivals, source, native, buyerKey)
    requires var n := notices[Key(source, Plain(native))];
             && n.buyerKey == buyerKey && HeldStamp(n).None?
             && forall i :: 0 <= i < |arrivals| && IsNumbered(arrivals[i], source, native) ==>
                  Earlier(arrivals[i].record.values, Last(n.versions).payload)
    ensures var key := Key(source, Plain(native));
            key in Run(notices, arrivals) && Run(notices, arrivals)[key] == notices[key]
    decreases |arrivals|
  {
    if arrivals != [] {
      var a, rest, key := arrivals[0], arrivals[1..], Key(source, Plain(native));
      if IsNumbered(a, source, native) {
        DatesAreKept(a.record.values);
        RecordTakenAsItIs(a.record.values, a.today, a.record.localNumbers, notices[key]);
        StaleExact(notices[key], a.record.values, buyerKey, a.hash, a.now);
      } else {
        ElsewhereLeaves(notices, notices, a, source, native, buyerKey);
      }
      assert After(notices, a)[key] == notices[key];
      EarlierDaysAreStale(After(notices, a), rest, source, native, buyerKey);
    }
  }

  lemma OneArrivalLess(notices: Notices, arrivals: seq<Arrival>, source: int, native: string, buyerKey: string, latest: int)
    requires Started(notices) && arrivals != [] && DaysOnly(notices, arrivals, source, native, buyerKey)
    requires HeldByDay(notices, Key(source, Plain(native)), buyerKey, latest)
    requires IsNumbered(arrivals[0], source, native) ==> PublishedDay(arrivals[0]) <= latest
    ensures var next := After(notices, arrivals[0]);
            DaysOnly(next, arrivals[1..], source, native, buyerKey) && HeldByDay(next, Key(source, Plain(native)), buyerKey, latest)
  {
    var key, a, rest := Key(source, Plain(native)), arrivals[0], arrivals[1..];
    assert forall i :: 0 <= i < |rest| ==> rest[i] == arrivals[i + 1];
    if IsNumbered(a, source, native) {
      DatedArrival(notices, a, key, buyerKey, latest);
      forall i | 0 <= i < |rest| && IsNumbered(rest[i], source, native) ensures Unread(After(notices, a), key, rest[i].hash) {
        assert Unread(notices, key, arrivals[i + 1].hash) && arrivals[i + 1].hash != a.hash;
      }
    } else {
      NotTouched(notices, a, key);
    }
  }

  lemma NotTouched(notices: Notices, a: Arrival, key: Key)
    requires Started(notices) && key.number.Plain? && !IsNumbered(a, key.source, key.number.native)
    ensures var next := After(notices, a);
            (key in next <==> key in notices) && (key in notices ==> next[key] == notices[key])
  {
  }

  /** Over every run of records that state days alone, the last arrival of the newest day is what the archive holds. */
  lemma {:induction false} LastOfNewestDayWins(notices: Notices, arrivals: seq<Arrival>, source: int, native: string, buyerKey: string, j: nat)
    requires Started(notices) && DaysOnly(notices, arrivals, source, native, buyerKey)
    requires j < |arrivals| && IsNumbered(arrivals[j], source, native)
    requires HeldByDay(notices, Key(source, Plain(native)), buyerKey, PublishedDay(arrivals[j]))
    requires forall i :: 0 <= i < |arrivals| && IsNumbered(arrivals[i], source, native) ==>
               PublishedDay(arrivals[i]) <= PublishedDay(arrivals[j]) && (i > j ==> PublishedDay(arrivals[i]) != PublishedDay(arrivals[j]))
    ensures var key, end := Key(source, Plain(native)), Run(notices, arrivals);
            key in end && SameContent(Last(end[key].versions).payload, Payload(arrivals[j].record.values))
    decreases |arrivals|
  {
    var key, a, rest := Key(source, Plain(native)), arrivals[0], arrivals[1..];
    var next := After(notices, a);
    OneArrivalLess(notices, arrivals, source, native, buyerKey, PublishedDay(arrivals[j]));
    assert forall i :: 0 <= i < |rest| ==> rest[i] == arrivals[i + 1];
    if j > 0 {
      LastOfNewestDayWins(next, rest, source, native, buyerKey, j - 1);
    } else {
      NewestIsHeld(notices, a, key, buyerKey);
      forall i | 0 <= i < |rest| && IsNumbered(rest[i], source, native)
        ensures Earlier(rest[i].record.values, Last(next[key].versions).payload)
      {
        SmallerDayIsEarlier(rest[i].record.values, Last(next[key].versions).payload);
      }
      EarlierDaysAreStale(next, rest, source, native, buyerKey);
    }
  }

  lemma SmallerDayIsEarlier(values: Columns, held: Columns)
    requires StampOf(values).None? && StampOf(held).None?
    requires PublishedOn(values).Some? && PublishedOn(held).Some? && PublishedOn(values).value < PublishedOn(held).value
    ensures Earlier(values, held)
  {
    assert GoesBy(values, PublishedOn(values).value) && GoesBy(held, PublishedOn(held).value);
  }

  lemma NewestIsHeld(notices: Notices, a: Arrival, key: Key, buyerKey: string)
    requires Started(notices) && key == Key(a.source, Plain(a.record.native)) && a.record.buyerKey == buyerKey
    requires DatedOnly(a) && HeldByDay(notices, key, buyerKey, PublishedDay(a)) && Unread(notices, key, a.hash)
    ensures var next := After(notices, a);
            && key in next && next[key].buyerKey == buyerKey && HeldStamp(next[key]).None?
            && SameContent(Last(next[key].versions).payload, Payload(a.record.values))
            && PublishedOn(Last(next[key].versions).payload) == PublishedOn(a.record.values)
  {
    DatesAreKept(a.record.values);
    DatedArrival(notices, a, key, buyerKey, PublishedDay(a));
    NotEarlier(notices, a, key, buyerKey);
    if SameContent(Last(After(notices, a)[key].versions).payload, Payload(a.record.values)) {
      SameContentSameDay(Last(After(notices, a)[key].versions).payload, Payload(a.record.values));
    }
  }

  /** A record of no earlier day than the held one is not earlier. */
  lemma NotEarlier(notices: Notices, a: Arrival, key: Key, buyerKey: string)
    requires Started(notices) && DatedOnly(a) && HeldByDay(notices, key, buyerKey, PublishedDay(a))
    ensures key in notices ==> !Earlier(a.record.values, Last(notices[key].versions).payload)
  {
  }

  lemma SameContentSameDay(a: Columns, b: Columns)
    requires SameContent(a, b) && PublishedOn(b).Some?
    ensures PublishedOn(a) == PublishedOn(b)
  {
    assert SameValue(PublishedAt, Get(a, PublishedAt), Get(b, PublishedAt));
  }
}
