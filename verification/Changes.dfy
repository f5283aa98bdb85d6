/**
  The change feed (backend/dgate/changes.py): one entry per notice and day whose lines are the day's net
  change, and the candidate index that stands in for a scan of the archive.
 */
module Changes {
  import opened Wrappers

  type NoticeId = int
  type Day = int
  type Time = int
  type Field = string

  // ------------------------------------------------------------------ lines and entries

  /** A field that moved, as a reader sees it. */
  datatype Line = Line(field: Field, before: string, after: string)

  /** What one version of a notice changed, and when it was observed. */
  datatype Amendment = Amendment(at: Time, lines: seq<Line>)

  /** The entry of a notice and a day. */
  datatype Slot = Slot(at: Time, lines: seq<Line>)

  ghost predicate OneLineAField(lines: seq<Line>) {
    forall i, j :: 0 <= i < j < |lines| ==> lines[i].field != lines[j].field
  }

  ghost predicate AllMove(lines: seq<Line>) {
    forall l :: l in lines ==> l.before != l.after
  }

  /** The line of a field, if there is one. */
  function LineOf(lines: seq<Line>, f: Field): (r: Option<Line>)
    ensures r.Some? ==> r.value in lines && r.value.field == f
    ensures r.None? ==> forall l :: l in lines ==> l.field != f
  {
    if lines == [] then None
    else if lines[0].field == f then Some(lines[0])
    else LineOf(lines[1..], f)
  }

  /** The line moved on to the new `after`, or appended. */
  function MovedOn(lines: seq<Line>, c: Line): seq<Line> {
    if lines == [] then [c]
    else if lines[0].field == c.field then [lines[0].(after := c.after)] + lines[1..]
    else [lines[0]] + MovedOn(lines[1..], c)
  }

  function Moving(lines: seq<Line>): seq<Line> {
    if lines == [] then []
    else if lines[0].before != lines[0].after then [lines[0]] + Moving(lines[1..])
    else Moving(lines[1..])
  }

  // ------------------------------------------------------------------ the fold, as the code runs it

  /** One more amendment of the day: merge its lines, drop the fields that are back where they were, drop
      the entry when none is left. */
  method Merge(slot: Option<Slot>, a: Amendment) returns (next: Option<Slot>)
    ensures next == Merged(slot, a)
  {
    if slot.None? {
      return Some(Slot(a.at, a.lines));
    }
    var merged := slot.value.lines;
    for i := 0 to |a.lines|
      invariant merged == AllMovedOn(slot.value.lines, a.lines[..i])
    {
      merged := MovedOn(merged, a.lines[i]);
      assert a.lines[..i + 1][..i] == a.lines[..i];
    }
    assert a.lines[..|a.lines|] == a.lines;
    var kept := Moving(merged);
    if kept == [] {
      return None;
    }
    return Some(Slot(if slot.value.at < a.at then a.at else slot.value.at, kept));
  }

  function AllMovedOn(lines: seq<Line>, more: seq<Line>): seq<Line> {
    if more == [] then lines else MovedOn(AllMovedOn(lines, more[..|more| - 1]), more[|more| - 1])
  }

  function Merged(slot: Option<Slot>, a: Amendment): Option<Slot> {
    if slot.None? then Some(Slot(a.at, a.lines))
    else
      var kept := Moving(AllMovedOn(slot.value.lines, a.lines));
      if kept == [] then None else Some(Slot(if slot.value.at < a.at then a.at else slot.value.at, kept))
  }

  function Folded(amendments: seq<Amendment>): Option<Slot> {
    if amendments == [] then None
    else Merged(Folded(amendments[..|amendments| - 1]), amendments[|amendments| - 1])
  }

  /** From this amendment on there was an entry, which it began. */
  ghost predicate BeganAt(amendments: seq<Amendment>, k: nat) {
    && k < |amendments| && Folded(amendments[..k]).None?
    && forall j :: k < j <= |amendments| ==> Folded(amendments[..j]).Some?
  }

  /** The latest time of the amendments from `k` on. */
  ghost predicate LatestFrom(amendments: seq<Amendment>, k: nat, at: Time) {
    && (forall j :: k <= j < |amendments| ==> amendments[j].at <= at)
    && (exists j :: k <= j < |amendments| && amendments[j].at == at)
  }

  /** An entry's time is the latest of the amendments since it began. */
  lemma {:induction false} EntryTimeExact(amendments: seq<Amendment>)
    ensures Folded(amendments).Some? ==> exists k: nat :: BeganAt(amendments, k) && LatestFrom(amendments, k, Folded(amendments).value.at)
    decreases |amendments|
  {
    if amendments != [] && Folded(amendments).Some? {
      var n := |amendments| - 1;
      var init := amendments[..n];
      EntryTimeExact(init);
      if Folded(init).None? {
        BeginsNow(amendments);
      } else {
        var k: nat :| BeganAt(init, k) && LatestFrom(init, k, Folded(init).value.at);
        GoesOn(amendments, k);
        LatestOfMore(init, amendments[n], k, Folded(init).value.at);
        assert init + [amendments[n]] == amendments;
      }
    }
  }

  lemma BeginsNow(amendments: seq<Amendment>)
    requires amendments != [] && Folded(amendments[..|amendments| - 1]).None?
    ensures var n := |amendments| - 1;
            Folded(amendments).Some? ==> BeganAt(amendments, n) && LatestFrom(amendments, n, Folded(amendments).value.at)
  {
    var n := |amendments| - 1;
    assert amendments[..n + 1] == amendments;
    assert Folded(amendments).Some? ==> amendments[n].at == Folded(amendments).value.at;
  }

  lemma StillFolded(amendments: seq<Amendment>, init: seq<Amendment>, j: nat)
    requires amendments != [] && init == amendments[..|amendments| - 1] && j <= |amendments| && Folded(amendments).Some?
    requires j <= |init| ==> Folded(init[..j]).Some?
    ensures Folded(amendments[..j]).Some?
  {
    if j <= |init| {
      assert init[..j] == amendments[..j];
    } else {
      assert amendments[..j] == amendments;
    }
  }

  lemma GoesOn(amendments: seq<Amendment>, k: nat)
    requires amendments != [] && BeganAt(amendments[..|amendments| - 1], k) && Folded(amendments).Some?
    ensures BeganAt(amendments, k)
  {
    var n := |amendments| - 1;
    var init := amendments[..n];
    assert amendments[..n + 1] == amendments && init[..k] == amendments[..k];
    forall j | k < j <= n + 1 ensures Folded(amendments[..j]).Some? {
      StillFolded(amendments, init, j);
    }
  }

  lemma LatestOfMore(init: seq<Amendment>, last: Amendment, k: nat, at: Time)
    requires LatestFrom(init, k, at)
    ensures LatestFrom(init + [last], k, if at < last.at then last.at else at)
  {
    var all := init + [last];
    var j :| k <= j < |init| && init[j].at == at;
    assert all[j] == init[j] && all[|init|] == last;
  }

  /** The slot of a notice and a day is the fold of that day's amendments. */
  ghost predicate SlotIs(out: map<(NoticeId, Day), Slot>, observed: seq<(NoticeId, Day, Amendment)>, id: NoticeId, day: Day) {
    && ((id, day) in out <==> Folded(OfDay(observed, id, day)).Some?)
    && ((id, day) in out ==> Some(out[(id, day)]) == Folded(OfDay(observed, id, day)))
  }

  function SlotOf(out: map<(NoticeId, Day), Slot>, id: NoticeId, day: Day): Option<Slot> {
    if (id, day) in out then Some(out[(id, day)]) else None
  }

  lemma OneMoreObserved(out: map<(NoticeId, Day), Slot>, next: map<(NoticeId, Day), Slot>,
                        observed: seq<(NoticeId, Day, Amendment)>, last: (NoticeId, Day, Amendment), id: NoticeId, day: Day)
    requires SlotIs(out, observed, id, day)
    requires SlotOf(next, id, day) == if (id, day) == (last.0, last.1) then Merged(SlotOf(out, id, day), last.2)
                                      else SlotOf(out, id, day)
    ensures SlotIs(next, observed + [last], id, day)
  {
  }

  /** The amendments of every notice, one slot per notice and day (`_amendments`, past its filters). */
  method FoldAll(observed: seq<(NoticeId, Day, Amendment)>) returns (out: map<(NoticeId, Day), Slot>)
    ensures forall id, day :: SlotIs(out, observed, id, day)
  {
    out := map[];
    for i := 0 to |observed|
      invariant forall id, day :: SlotIs(out, observed[..i], id, day)
    {
      var (id, day, a) := observed[i];
      var next := Merge(if (id, day) in out then Some(out[(id, day)]) else None, a);
      ghost var before := out;
      if next.Some? {
        out := out[(id, day) := next.value];
      } else {
        out := out - {(id, day)};
      }
      ghost var upTo := observed[..i + 1];
      assert upTo == observed[..i] + [observed[i]];
      forall n, d ensures SlotIs(out, upTo, n, d) {
        OneMoreObserved(before, out, observed[..i], observed[i], n, d);
      }
    }
    assert observed[..|observed|] == observed;
  }

  function OfDay(observed: seq<(NoticeId, Day, Amendment)>, id: NoticeId, day: Day): seq<Amendment> {
    if observed == [] then []
    else
      var last, rest := observed[|observed| - 1], OfDay(observed[..|observed| - 1], id, day);
      if last.0 == id && last.1 == day then rest + [last.2] else rest
  }

  // ------------------------------------------------------------------ the net change of a day

  /** The line with which a field first moves in the day, and the one with which it last does. */
  function FirstLine(amendments: seq<Amendment>, f: Field): Option<Line> {
    if amendments == [] then None
    else
      var before := FirstLine(amendments[..|amendments| - 1], f);
      if before.Some? then before else LineOf(amendments[|amendments| - 1].lines, f)
  }

  function LastLine(amendments: seq<Amendment>, f: Field): Option<Line> {
    if amendments == [] then None
    else
      var line := LineOf(amendments[|amendments| - 1].lines, f);
      if line.Some? then line else LastLine(amendments[..|amendments| - 1], f)
  }

  /** Each amendment has at most one line a field, each of them a real move, and some line. */
  ghost predicate WellFormed(amendments: seq<Amendment>) {
    forall a :: a in amendments ==> a.lines != [] && OneLineAField(a.lines) && AllMove(a.lines)
  }

  /** A field's lines chain: each starts where the one before ended. */
  ghost predicate Chained(amendments: seq<Amendment>) {
    forall i, f :: 0 <= i < |amendments| ==> ChainsAt(amendments, i, f)
  }

  predicate ChainsAt(amendments: seq<Amendment>, i: nat, f: Field)
    requires i < |amendments|
  {
    var earlier, line := LastLine(amendments[..i], f), LineOf(amendments[i].lines, f);
    earlier.Some? && line.Some? ==> line.value.before == earlier.value.after
  }

  /** The field's net change over the day: from its first before to its last after, if those differ. */
  function NetChange(amendments: seq<Amendment>, f: Field): Option<Line> {
    var first, last := FirstLine(amendments, f), LastLine(amendments, f);
    if first.Some? && last.Some? && first.value.before != last.value.after
    then Some(Line(f, first.value.before, last.value.after)) else None
  }

  function SlotLines(slot: Option<Slot>): seq<Line> {
    if slot.Some? then slot.value.lines else []
  }

  lemma {:induction false} LineOfConcat(xs: seq<Line>, ys: seq<Line>, f: Field)
    ensures LineOf(xs + ys, f) == if LineOf(xs, f).Some? then LineOf(xs, f) else LineOf(ys, f)
  {
    if xs == [] {
      assert xs + ys == ys;
    } else {
      assert (xs + ys)[1..] == xs[1..] + ys;
      LineOfConcat(xs[1..], ys, f);
    }
  }

  lemma {:induction false} MovedOnLine(lines: seq<Line>, c: Line, f: Field)
    ensures LineOf(MovedOn(lines, c), f)
            == if f != c.field then LineOf(lines, f)
               else if LineOf(lines, f).Some? then Some(LineOf(lines, f).value.(after := c.after)) else Some(c)
    ensures OneLineAField(lines) ==> OneLineAField(MovedOn(lines, c))
    ensures forall l :: l in MovedOn(lines, c) ==> l.field == c.field || l in lines
  {
    if lines != [] && lines[0].field != c.field {
      MovedOnLine(lines[1..], c, f);
      var rest := MovedOn(lines[1..], c);
      assert ([lines[0]] + rest)[1..] == rest;
    }
  }

  lemma OneLineAtMost(lines: seq<Line>, last: Line, f: Field)
    requires OneLineAField(lines + [last])
    ensures OneLineAField(lines)
    ensures LineOf(lines, f).Some? ==> last.field != f
  {
    var all := lines + [last];
    assert forall i :: 0 <= i < |lines| ==> all[i] == lines[i];
    assert all[|lines|] == last;
  }

  lemma {:induction false} AllMovedOnLine(lines: seq<Line>, more: seq<Line>, f: Field)
    requires OneLineAField(more)
    ensures var m := LineOf(more, f);
            LineOf(AllMovedOn(lines, more), f)
            == if m.None? then LineOf(lines, f)
               else if LineOf(lines, f).Some? then Some(LineOf(lines, f).value.(after := m.value.after)) else m
    ensures OneLineAField(lines) ==> OneLineAField(AllMovedOn(lines, more))
    decreases |more|
  {
    if more != [] {
      var n := |more| - 1;
      assert more == more[..n] + [more[n]];
      OneLineAtMost(more[..n], more[n], f);
      AllMovedOnLine(lines, more[..n], f);
      MovedOnLine(AllMovedOn(lines, more[..n]), more[n], f);
      LineOfConcat(more[..n], [more[n]], f);
    }
  }

  lemma {:induction false} MovingLine(lines: seq<Line>, f: Field)
    requires OneLineAField(lines)
    ensures var l := LineOf(lines, f);
            LineOf(Moving(lines), f) == if l.Some? && l.value.before != l.value.after then l else None
    ensures OneLineAField(Moving(lines)) && AllMove(Moving(lines))
    ensures forall l :: l in Moving(lines) ==> l in lines
  {
    if lines != [] {
      var rest := lines[1..];
      MovingLine(rest, f);
      assert forall l :: l in rest ==> l in lines && l.field != lines[0].field;
    }
  }

  /** The slot's lines are the net change so far: none for a field that is back, none at all without a slot. */
  ghost predicate IsNet(amendments: seq<Amendment>, slot: Option<Slot>) {
    && (slot.Some? ==> slot.value.lines != [] && OneLineAField(slot.value.lines) && AllMove(slot.value.lines))
    && forall f :: LineOf(SlotLines(slot), f) == NetChange(amendments, f)
  }

  lemma FirstAndLast(amendments: seq<Amendment>, a: Amendment, f: Field)
    ensures var all := amendments + [a];
            && FirstLine(all, f) == (if FirstLine(amendments, f).Some? then FirstLine(amendments, f) else LineOf(a.lines, f))
            && LastLine(all, f) == (if LineOf(a.lines, f).Some? then LineOf(a.lines, f) else LastLine(amendments, f))
  {
  }

  lemma {:induction false} FirstIffLast(amendments: seq<Amendment>, f: Field)
    ensures FirstLine(amendments, f).Some? <==> LastLine(amendments, f).Some?
    ensures FirstLine(amendments, f).Some? ==> FirstLine(amendments, f).value.field == f && LastLine(amendments, f).value.field == f
  {
    if amendments != [] {
      FirstIffLast(amendments[..|amendments| - 1], f);
    }
  }

  lemma MergeIsNet(amendments: seq<Amendment>, slot: Option<Slot>, a: Amendment)
    requires IsNet(amendments, slot) && WellFormed([a])
    requires forall f :: LastLine(amendments, f).Some? && LineOf(a.lines, f).Some? ==>
                           LineOf(a.lines, f).value.before == LastLine(amendments, f).value.after
    ensures IsNet(amendments + [a], Merged(slot, a))
  {
    assert a in [a];
    var next := Merged(slot, a);
    var merged := AllMovedOn(SlotLines(slot), a.lines);
    forall f ensures LineOf(SlotLines(next), f) == NetChange(amendments + [a], f) {
      FirstAndLast(amendments, a, f);
      FirstIffLast(amendments, f);
      assert LineOf(SlotLines(slot), f) == NetChange(amendments, f);
      if LineOf(a.lines, f).Some? {
        assert LineOf(a.lines, f).value in a.lines;
      }
      if slot.Some? {
        AllMovedOnLine(slot.value.lines, a.lines, f);
        MovingLine(merged, f);
      }
    }
    if slot.Some? {
      AllMovedOnLine(slot.value.lines, a.lines, "");
      MovingLine(merged, "");
    }
  }

  /** However often a field or the whole entry comes back to where it was, the folded entry is the day's net
      change: per field the day's first before and its last after, and nothing that did not move. */
  lemma {:induction false} FoldIsNetChange(amendments: seq<Amendment>)
    requires WellFormed(amendments) && Chained(amendments)
    ensures IsNet(amendments, Folded(amendments))
  {
    if amendments != [] {
      var n := |amendments| - 1;
      var before, a := amendments[..n], amendments[n];
      assert a in amendments;
      forall i, f | 0 <= i < |before| ensures ChainsAt(before, i, f) {
        assert ChainsAt(amendments, i, f);
        assert before[..i] == amendments[..i];
      }
      FoldIsNetChange(before);
      forall f | LastLine(before, f).Some? && LineOf(a.lines, f).Some?
        ensures LineOf(a.lines, f).value.before == LastLine(before, f).value.after
      {
        assert ChainsAt(amendments, n, f);
      }
      MergeIsNet(before, Folded(before), a);
      assert before + [a] == amendments;
    }
  }

  /** The day has an entry exactly when some field ends the day elsewhere than it began. */
  lemma EntryIffSomethingMoved(amendments: seq<Amendment>)
    requires WellFormed(amendments) && Chained(amendments)
    ensures Folded(amendments).Some? <==> exists f :: NetChange(amendments, f).Some?
  {
    FoldIsNetChange(amendments);
    var slot := Folded(amendments);
    if slot.Some? {
      var f := slot.value.lines[0].field;
      assert LineOf(slot.value.lines, f).Some?;
      assert NetChange(amendments, f).Some?;
    } else {
      forall f ensures NetChange(amendments, f).None? {
        assert LineOf(SlotLines(slot), f) == NetChange(amendments, f);
      }
    }
  }

  // ------------------------------------------------------------------ the day's entries

  datatype Kind = New | Award | Amended

  datatype Entry = Entry(kind: Kind, at: Time, lines: seq<Line>)

  /** `build_events`: amendments first, then the first sightings over them. */
  method BuildEvents(amendments: map<(NoticeId, Day), Slot>, firstSeen: map<NoticeId, (Day, Time)>, awards: set<NoticeId>,
                     shown: set<NoticeId>) returns (events: map<(NoticeId, Day), Entry>)
    requires forall k :: k in amendments ==> k.0 in shown
    ensures forall id, day :: (id, day) in events <==>
              (id, day) in amendments || (id in firstSeen && id in shown && firstSeen[id].0 == day)
    ensures forall id, day :: (id, day) in events ==>
              events[(id, day)] ==
              if id in firstSeen && id in shown && firstSeen[id].0 == day
              then Entry(if id in awards then Award else New, firstSeen[id].1, [])
              else Entry(Amended, amendments[(id, day)].at, amendments[(id, day)].lines)
  {
    events := map k | k in amendments :: Entry(Amended, amendments[k].at, amendments[k].lines);
    var todo := firstSeen.Keys;
    while todo != {}
      invariant todo <= firstSeen.Keys
      invariant forall id, day :: (id, day) in events <==>
                  (id, day) in amendments || (id in firstSeen && id !in todo && id in shown && firstSeen[id].0 == day)
      invariant forall id, day :: (id, day) in events ==>
                  events[(id, day)] ==
                  if id in firstSeen && id !in todo && id in shown && firstSeen[id].0 == day
                  then Entry(if id in awards then Award else New, firstSeen[id].1, [])
                  else Entry(Amended, amendments[(id, day)].at, amendments[(id, day)].lines)
      decreases |todo|
    {
      assert exists id: NoticeId :: id in todo by { HasMember(todo); }
      var id: NoticeId :| id in todo;
      todo := todo - {id};
      if id in shown {
        events := events[(id, firstSeen[id].0) := Entry(if id in awards then Award else New, firstSeen[id].1, [])];
      }
    }
  }

  // ------------------------------------------------------------------ the candidate index

  /** A version of a notice: its number, when it was observed, whether it moved a listed field. */
  datatype Version = Version(id: int, notice: NoticeId, number: nat, observed: Time, listed: bool)

  /** A note on a version, of a kind that says it is not something the publisher did. */
  datatype Note = Note(version: int, created: Time)

  datatype Archive = Archive(versions: set<Version>, notes: set<Note>)

  const CANDIDATES_SPAN: Time := 15 * 86400
  const CANDIDATES_OVERLAP: Time := 3600

  /** A version that counts: not the first, on a listed field, without a note the scan sees. */
  predicate Counts(a: Archive, v: Version, since: Time) {
    v.observed >= since && v.number > 1 && v.listed
    && !exists n :: n in a.notes && n.version == v.id && n.created >= since
  }

  /** `amended_candidates`, without its limit: each notice with its newest counting observation. */
  function Scan(a: Archive, since: Time): map<NoticeId, Time> {
    var counting := set v | v in a.versions && Counts(a, v, since);
    var notices := set v | v in counting :: v.notice;
    map id | id in notices :: NewestOf(set v | v in counting && v.notice == id :: v.observed)
  }

  function NewestOf(times: set<Time>): (m: Time)
    ensures times != {} ==> m in times && forall t :: t in times ==> t <= m
    decreases times
  {
    if times == {} then 0
    else
      assert exists t :: t in times && forall u :: u in times ==> u <= t by { HasNewest(times); }
      var t :| t in times && forall u :: u in times ==> u <= t;
      t
  }

  lemma {:induction false} HasNewest(times: set<Time>)
    requires times != {}
    ensures exists t :: t in times && forall u :: u in times ==> u <= t
    decreases |times|
  {
    HasMember(times);
    var t: Time :| t in times;
    var rest := times - {t};
    if rest != {} {
      HasNewest(rest);
      var m :| m in rest && forall u :: u in rest ==> u <= m;
      var top := if m < t then t else m;
      assert top in times && forall u :: u in times ==> u == t || u in rest;
    } else {
      assert forall u :: u in times ==> u == t || u in rest;
    }
  }

  /** The stored index: the span it covers and what the scan found then. */
  datatype Snapshot = Snapshot(from: Time, upto: Time, ids: map<NoticeId, Time>)

  function ComputeCandidates(a: Archive, now: Time): Snapshot {
    Snapshot(now - CANDIDATES_SPAN, now, Scan(a, now - CANDIDATES_SPAN))
  }

  /** `_snapshot_candidates`: None when the index does not reach back to `since`. */
  function SnapshotCandidates(s: Option<Snapshot>, a: Archive, since: Time): Option<set<NoticeId>> {
    if s.None? || s.value.from > since then None
    else
      var rescan := s.value.upto - CANDIDATES_OVERLAP;
      Some((set id | id in s.value.ids && s.value.ids[id] >= since)
           + Scan(a, if rescan < since then since else rescan).Keys)
  }

  /** The candidates of a window: from the index where it serves, from the scan otherwise. */
  function Candidates(s: Option<Snapshot>, a: Archive, since: Time): set<NoticeId> {
    var indexed := SnapshotCandidates(s, a, since);
    if indexed.Some? then indexed.value else Scan(a, since).Keys
  }

  /** Notes are written after their versions, and an id is one version's. */
  ghost predicate NotesFollow(a: Archive) {
    && (forall v, w :: v in a.versions && w in a.versions && v.id == w.id ==> v == w)
    && (forall v, n :: v in a.versions && n in a.notes && n.version == v.id ==> v.observed <= n.created)
  }

  /** The version is an amendment of the notice: a later one than the first, of a listed field, and no note was ever put
      on it. */
  ghost predicate Amends(a: Archive, v: Version, id: NoticeId, since: Time) {
    v in a.versions && v.notice == id && since <= v.observed && 2 <= v.number && v.listed && !Noted(a, v)
  }

  predicate Noted(a: Archive, v: Version) {
    exists n :: n in a.notes && n.version == v.id
  }

  /** Reading only the notes made since then is exact. */
  lemma CountsExact(a: Archive, v: Version, since: Time)
    requires NotesFollow(a) && v in a.versions
    ensures Counts(a, v, since) <==> Amends(a, v, v.notice, since)
  {
    if v.observed >= since && Noted(a, v) {
      var n :| n in a.notes && n.version == v.id;
      assert n.created >= since;
    }
  }

  /** The scan holds exactly the notices that were amended since then, each with its newest amendment. */
  lemma InScan(a: Archive, since: Time, id: NoticeId)
    requires NotesFollow(a)
    ensures id in Scan(a, since) <==> exists v :: Amends(a, v, id, since)
    ensures id in Scan(a, since) ==>
              (exists v :: Amends(a, v, id, since) && v.observed == Scan(a, since)[id])
              && forall v :: Amends(a, v, id, since) ==> v.observed <= Scan(a, since)[id]
  {
    var counting := set v | v in a.versions && Counts(a, v, since);
    forall v | v in a.versions ensures v in counting <==> Amends(a, v, v.notice, since) {
      CountsExact(a, v, since);
    }
    var times := set w | w in counting && w.notice == id :: w.observed;
    forall v | Amends(a, v, id, since) ensures id in Scan(a, since) && v.observed in times {
      assert v in counting;
    }
    assert id in Scan(a, since) ==> times != {} && Scan(a, since)[id] == NewestOf(times);
  }

  /** The archive only grows, a note follows its version, and what was observed before the overlap was
      visible when the index was made. */
  ghost predicate GrewFrom(then_: Archive, now: Archive, upto: Time) {
    && then_.versions <= now.versions && then_.notes <= now.notes && NotesFollow(now)
    && (forall v :: v in now.versions && v.observed < upto - 3600 ==> v in then_.versions)
  }

  /** The version makes its notice a candidate: an amendment as things stand, or one that the index saw before its note
      was written. */
  ghost predicate IsCandidate(then_: Archive, now: Archive, v: Version, id: NoticeId, since: Time) {
    Amends(now, v, id, since) || Amends(then_, v, id, since)
  }

  lemma NewestSince(a: Archive, from: Time, since: Time, id: NoticeId)
    requires NotesFollow(a) && from <= since
    ensures id in Scan(a, from) && Scan(a, from)[id] >= since <==> exists v :: Amends(a, v, id, since)
  {
    InScan(a, from, id);
    if v :| Amends(a, v, id, since) {
      assert Amends(a, v, id, from);
    }
    if id in Scan(a, from) && Scan(a, from)[id] >= since {
      var v :| Amends(a, v, id, from) && v.observed == Scan(a, from)[id];
      assert Amends(a, v, id, since);
    }
  }

  lemma FromIndexExact(then_: Archive, now: Archive, made: Time, since: Time, id: NoticeId)
    requires GrewFrom(then_, now, made) && made - CANDIDATES_SPAN <= since
    ensures var rescan := if made - CANDIDATES_OVERLAP < since then since else made - CANDIDATES_OVERLAP;
            id in Candidates(Some(ComputeCandidates(then_, made)), now, since)
            <==> (exists v :: Amends(then_, v, id, since)) || (exists v :: Amends(now, v, id, rescan))
  {
    NewestSince(then_, made - CANDIDATES_SPAN, since, id);
    InScan(now, if made - CANDIDATES_OVERLAP < since then since else made - CANDIDATES_OVERLAP, id);
  }

  /** From the index, where it reaches back far enough, the candidates are exactly the notices amended since then and
      those whose amendment has got its note since the index was made; without it exactly the former. */
  lemma CandidatesExact(then_: Archive, now: Archive, made: Time, since: Time, id: NoticeId)
    requires GrewFrom(then_, now, made)
    ensures id in Candidates(None, now, since) <==> exists v :: Amends(now, v, id, since)
    ensures id in Candidates(Some(ComputeCandidates(then_, made)), now, since)
            <==> if made - 1296000 <= since then exists v :: IsCandidate(then_, now, v, id, since)
                 else exists v :: Amends(now, v, id, since)
  {
    InScan(now, since, id);
    if made - CANDIDATES_SPAN <= since {
      var rescan := if made - CANDIDATES_OVERLAP < since then since else made - CANDIDATES_OVERLAP;
      FromIndexExact(then_, now, made, since, id);
      forall v | IsCandidate(then_, now, v, id, since) ensures Amends(then_, v, id, since) || Amends(now, v, id, rescan) {
        SeenThenOrSince(then_, now, made, v, id, since);
      }
      forall v | Amends(then_, v, id, since) || Amends(now, v, id, rescan) ensures IsCandidate(then_, now, v, id, since) {
      }
    }
  }

  lemma SeenThenOrSince(then_: Archive, now: Archive, made: Time, v: Version, id: NoticeId, since: Time)
    requires GrewFrom(then_, now, made) && IsCandidate(then_, now, v, id, since)
    ensures Amends(then_, v, id, since) || (Amends(now, v, id, since) && v.observed >= made - CANDIDATES_OVERLAP)
  {
    if Amends(now, v, id, since) && v.observed < made - CANDIDATES_OVERLAP {
      assert v in then_.versions;
    }
  }

  /** The index misses nothing: whatever the scan finds, it finds, even when notes were added since. */
  lemma IndexMissesNothing(then_: Archive, now: Archive, made: Time, since: Time)
    requires GrewFrom(then_, now, made)
    ensures Scan(now, since).Keys <= Candidates(Some(ComputeCandidates(then_, made)), now, since)
  {
    forall id | id in Scan(now, since) ensures id in Candidates(Some(ComputeCandidates(then_, made)), now, since) {
      CandidatesExact(then_, now, made, since, id);
      InScan(now, since, id);
      var v :| Amends(now, v, id, since);
      assert IsCandidate(then_, now, v, id, since);
    }
  }

  /** With no note added since, the index is the scan. */
  lemma IndexIsScan(then_: Archive, now: Archive, made: Time, since: Time)
    requires GrewFrom(then_, now, made) && then_.notes == now.notes
    ensures Candidates(Some(ComputeCandidates(then_, made)), now, since) == Scan(now, since).Keys
  {
    IndexMissesNothing(then_, now, made, since);
    forall id | id in Candidates(Some(ComputeCandidates(then_, made)), now, since) ensures id in Scan(now, since) {
      CandidatesExact(then_, now, made, since, id);
      InScan(now, since, id);
      if v :| IsCandidate(then_, now, v, id, since) {
        assert Amends(now, v, id, since);
      }
    }
  }
}
