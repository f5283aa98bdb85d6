/**
  What merges and resolutions keep over every run: one step from any row to the row it stands for,
  exactly the classes the accepted merges connect, and aliases, buyers, numbers and PICs that follow.
 */
module OrganisationRuns {
  import opened Wrappers
  import opened Organisations

  // ------------------------------------------------------------------ runs

  datatype Step =
    | MergeRows(keep: Id, absorbed: Id, allowConflict: bool, allowCountry: bool)
    | ResolveBuyer(notice: int, query: Query)
    | ResolveWinner(notice: int, query: Query)

  function After(rows: Rows, step: Step): Rows {
    match step
    case MergeRows(keep, absorbed, allowConflict, allowCountry) =>
      if Check(rows.orgs, keep, absorbed, allowConflict, allowCountry).Merged?
      then AfterMerge(rows, keep, absorbed) else rows
    case ResolveBuyer(notice, query) =>
      var (next, found) := Resolve(rows, query);
      if found.Buyer? then next.(buyers := next.buyers[notice := found.id]) else next
    case ResolveWinner(notice, query) =>
      var (next, found) := Resolve(rows, query);
      if found.Buyer? then next.(counted := next.counted + {(notice, found.id)}) else next
  }

  function Run(rows: Rows, steps: seq<Step>): Rows
    decreases |steps|
  {
    if steps == [] then rows else Run(After(rows, steps[0]), steps[1..])
  }

  /** The merges of a run that were accepted, in order. */
  function Accepted(rows: Rows, steps: seq<Step>): seq<(Id, Id)>
    decreases |steps|
  {
    if steps == [] then []
    else LinkOf(rows, steps[0]) + Accepted(After(rows, steps[0]), steps[1..])
  }

  function LinkOf(rows: Rows, step: Step): seq<(Id, Id)> {
    if step.MergeRows? && Check(rows.orgs, step.keep, step.absorbed, step.allowConflict, step.allowCountry).Merged?
    then [(step.keep, step.absorbed)] else []
  }

  // ------------------------------------------------------------------ one merge

  predicate Mergeable(orgs: map<Id, Organisation>, keep: Id, absorbed: Id) {
    keep != absorbed && IsLive(orgs, keep) && IsLive(orgs, absorbed)
  }

  predicate DifferentNumbers(x: Organisation, y: Organisation) {
    x.number.Some? && y.number.Some? && x.number.value != y.number.value
  }

  /** Two rows are merged exactly when they are two, both live, of one country and without two different numbers, the
      last two unless the caller allows them; and each condition that fails first has its own refusal. */
  lemma CheckExact(orgs: map<Id, Organisation>, keep: Id, absorbed: Id, allowConflict: bool, allowCountry: bool)
    ensures var result := Check(orgs, keep, absorbed, allowConflict, allowCountry);
            var known := keep in orgs && absorbed in orgs;
            && (result == Refused(SameRow) <==> keep == absorbed)
            && (result == Refused(UnknownRow) <==> keep != absorbed && !known)
            && (result == Refused(AlreadyMerged) <==>
                  keep != absorbed && known && (orgs[keep].mergedInto.Some? || orgs[absorbed].mergedInto.Some?))
            && (result == Refused(OtherCountry) <==>
                  Mergeable(orgs, keep, absorbed) && !allowCountry && orgs[keep].country != orgs[absorbed].country)
            && (result == Refused(NumberConflict) <==>
                  Mergeable(orgs, keep, absorbed) && (allowCountry || orgs[keep].country == orgs[absorbed].country)
                  && !allowConflict && DifferentNumbers(orgs[keep], orgs[absorbed]))
            && (result == Merged <==>
                  Mergeable(orgs, keep, absorbed) && (allowCountry || orgs[keep].country == orgs[absorbed].country)
                  && (allowConflict || !DifferentNumbers(orgs[keep], orgs[absorbed])))
  {
  }

  lemma HeadsAfterMerge(orgs: map<Id, Organisation>, keep: Id, absorbed: Id)
    requires Flat(orgs) && Mergeable(orgs, keep, absorbed)
    ensures var next := OrgsAfterMerge(orgs, keep, absorbed);
            && next.Keys == orgs.Keys
            && Flat(next)
            && forall id :: id in orgs ==>
                 Head(next, id) == if Head(orgs, id) == absorbed then keep else Head(orgs, id)
  {
  }

  lemma AliasesFollowMerge(orgs: map<Id, Organisation>, alias: Alias, keep: Id, absorbed: Id)
    requires Flat(orgs) && Mergeable(orgs, keep, absorbed) && AliasFollows(orgs, alias)
    ensures AliasFollows(OrgsAfterMerge(orgs, keep, absorbed), Moved(alias, keep, absorbed))
    ensures FirstFiled(Moved(alias, keep, absorbed)) == FirstFiled(alias)
  {
  }

  /** A head holds a PIC whenever a row of its class does, and no PIC is lost. */
  lemma PicsFollowMerge(orgs: map<Id, Organisation>, keep: Id, absorbed: Id)
    requires Flat(orgs) && Mergeable(orgs, keep, absorbed) && PicAtHead(orgs)
    ensures PicAtHead(OrgsAfterMerge(orgs, keep, absorbed))
    ensures Pics(OrgsAfterMerge(orgs, keep, absorbed)) == Pics(orgs)
  {
    HeadsAfterMerge(orgs, keep, absorbed);
    var next := OrgsAfterMerge(orgs, keep, absorbed);
    forall pic | pic in Pics(orgs) ensures pic in Pics(next) {
      var id :| id in orgs && orgs[id].pic == Some(pic);
      if id == absorbed && orgs[keep].pic.None? {
        assert next[keep].pic == Some(pic);
      } else {
        assert next[id].pic == Some(pic);
      }
    }
    forall pic | pic in Pics(next) ensures pic in Pics(orgs) {
      var id :| id in next && next[id].pic == Some(pic);
      assert orgs[id].pic == Some(pic) || orgs[absorbed].pic == Some(pic);
    }
  }

  /** Whoever held a number, the number still leads to the same organisation, in the same country. */
  lemma NumberStillReaches(orgs: map<Id, Organisation>, keep: Id, absorbed: Id, holder: Id)
    requires Flat(orgs) && Mergeable(orgs, keep, absorbed)
    requires holder in orgs && orgs[holder].number.Some?
    ensures var next := OrgsAfterMerge(orgs, keep, absorbed);
            exists now :: now in next && SameNumber(next[now], orgs[holder]) && Head(next, now) == Head(next, holder)
  {
    HeadsAfterMerge(orgs, keep, absorbed);
    var next := OrgsAfterMerge(orgs, keep, absorbed);
    var now := if holder == absorbed && next[absorbed].number.None? then keep else holder;
    assert SameNumber(next[now], orgs[holder]);
  }

  lemma NumbersStayUnique(orgs: map<Id, Organisation>, keep: Id, absorbed: Id)
    requires Mergeable(orgs, keep, absorbed) && NumbersUnique(orgs)
    ensures NumbersUnique(OrgsAfterMerge(orgs, keep, absorbed))
  {
  }

  lemma MergeKeeps(rows: Rows, keep: Id, absorbed: Id)
    requires Sound(rows) && Mergeable(rows.orgs, keep, absorbed)
    ensures Sound(AfterMerge(rows, keep, absorbed))
    ensures SameAliases(rows.aliases, AfterMerge(rows, keep, absorbed).aliases)
  {
    HeadsAfterMerge(rows.orgs, keep, absorbed);
    PicsFollowMerge(rows.orgs, keep, absorbed);
    NumbersStayUnique(rows.orgs, keep, absorbed);
    MovedAliases(rows, keep, absorbed);
  }

  lemma MovedAliases(rows: Rows, keep: Id, absorbed: Id)
    requires Sound(rows) && Mergeable(rows.orgs, keep, absorbed)
    ensures var next := AfterMerge(rows, keep, absorbed);
            && (forall i :: 0 <= i < |next.aliases| ==> AliasFollows(next.orgs, next.aliases[i]))
            && OneAliasAKey(next.aliases) && SameAliases(rows.aliases, next.aliases)
  {
    forall i | 0 <= i < |rows.aliases|
      ensures AliasFollows(OrgsAfterMerge(rows.orgs, keep, absorbed), Moved(rows.aliases[i], keep, absorbed))
      ensures FirstFiled(Moved(rows.aliases[i], keep, absorbed)) == FirstFiled(rows.aliases[i])
    {
      AliasesFollowMerge(rows.orgs, rows.aliases[i], keep, absorbed);
    }
  }

  // ------------------------------------------------------------------ one resolution

  /** Every alias is still there, under the organisation it was first filed under. */
  ghost predicate SameAliases(held: seq<Alias>, later: seq<Alias>) {
    && |held| <= |later|
    && forall i :: 0 <= i < |held| ==>
         held[i].name == later[i].name && held[i].country == later[i].country && held[i].source == later[i].source
         && FirstFiled(held[i]) == FirstFiled(later[i])
  }

  lemma AliasAdded(rows: Rows, q: Query, id: Id, confidence: nat)
    requires Sound(rows) && IsLive(rows.orgs, id)
    ensures Sound(rows.(aliases := WithAlias(rows.aliases, q, id, confidence)))
    ensures SameAliases(rows.aliases, WithAlias(rows.aliases, q, id, confidence))
  {
  }

  lemma RowAdded(rows: Rows, q: Query, number: Option<string>)
    requires Sound(rows)
    requires number.Some? ==> HolderFrom(rows.orgs, 0, rows.nextId, q.country, number.value).None?
    ensures Sound(NewRow(rows, q, number))
    ensures IsLive(NewRow(rows, q, number).orgs, rows.nextId)
    ensures forall id :: id in rows.orgs ==> Head(NewRow(rows, q, number).orgs, id) == Head(rows.orgs, id)
  {
    var next := NewRow(rows, q, number);
    assert forall id :: id in rows.orgs ==> next.orgs[id] == rows.orgs[id];
    forall i | 0 <= i < |rows.aliases| ensures AliasFollows(next.orgs, rows.aliases[i]) {
      assert AliasFollows(rows.orgs, rows.aliases[i]);
    }
  }

  lemma NumberAdded(rows: Rows, id: Id, number: string)
    requires Sound(rows) && id in rows.orgs
    requires HolderFrom(rows.orgs, 0, rows.nextId, rows.orgs[id].country, number).None?
    ensures var next := rows.(orgs := rows.orgs[id := rows.orgs[id].(number := Some(number))]);
            && Sound(next) && forall x :: x in rows.orgs ==> Head(next.orgs, x) == Head(rows.orgs, x)
  {
    var next := rows.orgs[id := rows.orgs[id].(number := Some(number))];
    assert forall x :: x in rows.orgs ==> next[x].mergedInto == rows.orgs[x].mergedInto && next[x].pic == rows.orgs[x].pic;
    forall i | 0 <= i < |rows.aliases| ensures AliasFollows(next, rows.aliases[i]) {
      assert AliasFollows(rows.orgs, rows.aliases[i]);
    }
    forall x, y | x in next && y in next && SameNumber(next[x], next[y]) ensures x == y {
      assert SameNumber(rows.orgs[x], rows.orgs[y]) || x == id || y == id;
    }
  }

  lemma AttachKeeps(rows: Rows, id: Id, q: Query, number: Option<string>)
    requires Sound(rows) && IsLive(rows.orgs, id)
    requires number.Some? ==> HolderFrom(rows.orgs, 0, rows.nextId, q.country, number.value).None?
    ensures var (next, found) := Attach(rows, id, q, number);
            && Sound(next) && next.aliases == rows.aliases && next.buyers == rows.buyers
            && (forall x :: x in rows.orgs ==> x in next.orgs && Head(next.orgs, x) == Head(rows.orgs, x))
            && (forall x :: x in next.orgs && x !in rows.orgs ==> IsLive(next.orgs, x))
            && (found.Buyer? ==> IsLive(next.orgs, found.id))
            && (found.NumberTaken? ==> next == rows)
            && !found.NoBuyer?
  {
    var (next, found) := Attach(rows, id, q, number);
    if number.None? || rows.orgs[id].number == number || found.NumberTaken? {
    } else if rows.orgs[id].number.None? {
      NumberAdded(rows, id, number.value);
    } else {
      RowAdded(rows, q, number);
    }
  }

  lemma ByNameKeeps(rows: Rows, q: Query, number: Option<string>)
    requires Sound(rows)
    requires number.Some? ==> HolderFrom(rows.orgs, 0, rows.nextId, q.country, number.value).None?
    ensures var (known, id, created) := ByName(rows, q, number);
            && Sound(known) && IsLive(known.orgs, id)
            && SameAliases(rows.aliases, known.aliases) && known.buyers == rows.buyers
            && (forall x :: x in rows.orgs ==> x in known.orgs && Head(known.orgs, x) == Head(rows.orgs, x))
            && (!created ==> known.orgs == rows.orgs && known.nextId == rows.nextId)
            && (created ==> id == rows.nextId && known.orgs.Keys == rows.orgs.Keys + {id})
  {
    var best := BestAlias(rows.aliases, q.name, q.country);
    if best.Some? {
      assert AliasFollows(rows.orgs, rows.aliases[best.value]);
    } else {
      var named := NamedFrom(rows.orgs, 0, rows.nextId, q.country, q.name);
      var known := if named.Some? then rows else NewRow(rows, q, number);
      if named.None? {
        RowAdded(rows, q, number);
      }
      AliasAdded(known, q, named.GetOr(rows.nextId), CONF_EXACT_NAME);
    }
  }

  /** The tables are sound and nothing was merged, moved or forgotten; new rows are live. */
  ghost predicate Kept(rows: Rows, next: Rows) {
    && Sound(next)
    && SameAliases(rows.aliases, next.aliases)
    && next.buyers == rows.buyers
    && (forall x :: x in rows.orgs ==> x in next.orgs && Head(next.orgs, x) == Head(rows.orgs, x))
    && (forall x :: x in next.orgs && x !in rows.orgs ==> IsLive(next.orgs, x))
  }

  lemma NameStagesKeep(rows: Rows, q: Query, number: Option<string>)
    requires Sound(rows)
    requires number.Some? ==> HolderFrom(rows.orgs, 0, rows.nextId, q.country, number.value).None?
    ensures var (next, found) := NameStages(rows, q, number);
            !found.NumberTaken? ==> Kept(rows, next) && found.Buyer? && IsLive(next.orgs, found.id)
  {
    ByNameKeeps(rows, q, number);
    var (known, id, created) := ByName(rows, q, number);
    if !created {
      AttachKeeps(known, id, q, number);
    }
  }

  /** A resolution keeps the tables sound, merges nothing, and answers with a live organisation. */
  lemma ResolveKeeps(rows: Rows, q: Query)
    requires Sound(rows)
    ensures Kept(rows, Resolve(rows, q).0)
    ensures Resolve(rows, q).1.Buyer? ==> IsLive(Resolve(rows, q).0.orgs, Resolve(rows, q).1.id)
  {
    if q.name == "" || q.country == "" {
      return;
    }
    var holder := if q.number.None? then None else HolderFrom(rows.orgs, 0, rows.nextId, q.country, q.number.value);
    if holder.Some? && NamesCompatible(q.name, rows.orgs[holder.value].name) {
      AliasAdded(rows, q, Head(rows.orgs, holder.value), CONF_IDENTIFIER);
    } else {
      NameStagesKeep(rows, q, if holder.Some? then None else q.number);
    }
  }

  // ------------------------------------------------------------------ every run

  lemma StepKeeps(rows: Rows, step: Step)
    requires Sound(rows)
    ensures Sound(After(rows, step)) && SameAliases(rows.aliases, After(rows, step).aliases)
    ensures rows.orgs.Keys <= After(rows, step).orgs.Keys
  {
    match step
    case MergeRows(keep, absorbed, allowConflict, allowCountry) =>
      if Check(rows.orgs, keep, absorbed, allowConflict, allowCountry).Merged? {
        MergeKeeps(rows, keep, absorbed);
      }
    case ResolveBuyer(notice, query) =>
      ResolveKeeps(rows, query);
    case ResolveWinner(notice, query) =>
      ResolveKeeps(rows, query);
  }

  /** Over every run: rows stay one step from their head, every alias points at the live row its first
      organisation stands for and remembers that organisation, every notice's buyer is live, a class
      with a PIC has it at its head, and no row or alias is lost. */
  lemma {:induction false} RunKeeps(rows: Rows, steps: seq<Step>)
    requires Sound(rows)
    ensures Sound(Run(rows, steps)) && SameAliases(rows.aliases, Run(rows, steps).aliases)
    ensures rows.orgs.Keys <= Run(rows, steps).orgs.Keys
    decreases |steps|
  {
    if steps != [] {
      StepKeeps(rows, steps[0]);
      RunKeeps(After(rows, steps[0]), steps[1..]);
    }
  }

  // ------------------------------------------------------------------ classes are what merges connect

  predicate Linked(links: seq<(Id, Id)>, x: Id, y: Id) {
    (x, y) in links || (y, x) in links
  }

  ghost predicate Path(links: seq<(Id, Id)>, p: seq<Id>) {
    p != [] && forall i :: 0 <= i < |p| - 1 ==> Linked(links, p[i], p[i + 1])
  }

  ghost predicate Connects(links: seq<(Id, Id)>, p: seq<Id>, x: Id, y: Id) {
    Path(links, p) && p[0] == x && p[|p| - 1] == y
  }

  /** Some chain of accepted merges leads from one row to the other. */
  ghost predicate Connected(links: seq<(Id, Id)>, x: Id, y: Id) {
    exists p :: Connects(links, p, x, y)
  }

  lemma ConnectedItself(links: seq<(Id, Id)>, x: Id)
    ensures Connected(links, x, x)
  {
    assert Connects(links, [x], x, x);
  }

  lemma ConnectedByLink(links: seq<(Id, Id)>, x: Id, y: Id)
    requires Linked(links, x, y)
    ensures Connected(links, x, y)
  {
    assert Connects(links, [x, y], x, y);
  }

  lemma ConnectedThrough(links: seq<(Id, Id)>, x: Id, y: Id, z: Id)
    requires Connected(links, x, y) && Connected(links, y, z)
    ensures Connected(links, x, z)
  {
    var p :| Connects(links, p, x, y);
    var q :| Connects(links, q, y, z);
    var r := p + q[1..];
    forall i | 0 <= i < |r| - 1 ensures Linked(links, r[i], r[i + 1]) {
      if i >= |p| - 1 {
        assert r[i] == q[i - |p| + 1] && r[i + 1] == q[i - |p| + 2];
      }
    }
    assert Connects(links, r, x, z);
  }

  lemma ConnectedBack(links: seq<(Id, Id)>, x: Id, y: Id)
    requires Connected(links, x, y)
    ensures Connected(links, y, x)
  {
    var p :| Connects(links, p, x, y);
    var n := |p|;
    var r := seq(n, i requires 0 <= i < n => p[n - 1 - i]);
    forall i | 0 <= i < n - 1 ensures Linked(links, r[i], r[i + 1]) {
      assert Linked(links, p[n - 2 - i], p[n - 1 - i]);
    }
    assert Connects(links, r, y, x);
  }

  lemma MoreLinks(links: seq<(Id, Id)>, more: seq<(Id, Id)>, x: Id, y: Id)
    requires Connected(links, x, y)
    ensures Connected(links + more, x, y)
  {
    var p :| Connects(links, p, x, y);
    assert Connects(links + more, p, x, y);
  }

  /** Linked rows have one head, and every row is connected to its head. */
  ghost predicate Reflects(orgs: map<Id, Organisation>, links: seq<(Id, Id)>) {
    && (forall l :: l in links ==> l.0 in orgs && l.1 in orgs && Head(orgs, l.0) == Head(orgs, l.1))
    && (forall id :: id in orgs ==> Connected(links, id, Head(orgs, id)))
  }

  lemma {:induction false} PathHasOneHead(orgs: map<Id, Organisation>, links: seq<(Id, Id)>, p: seq<Id>)
    requires Reflects(orgs, links) && Path(links, p)
    ensures Head(orgs, p[0]) == Head(orgs, p[|p| - 1])
    decreases |p|
  {
    if |p| > 1 {
      assert Linked(links, p[0], p[1]);
      forall i | 0 <= i < |p[1..]| - 1 ensures Linked(links, p[1..][i], p[1..][i + 1]) {
        assert Linked(links, p[i + 1], p[i + 2]);
      }
      PathHasOneHead(orgs, links, p[1..]);
    }
  }

  lemma ReflectsMeans(orgs: map<Id, Organisation>, links: seq<(Id, Id)>, x: Id, y: Id)
    requires Reflects(orgs, links) && x in orgs && y in orgs
    ensures Head(orgs, x) == Head(orgs, y) <==> Connected(links, x, y)
  {
    if Head(orgs, x) == Head(orgs, y) {
      ConnectedBack(links, y, Head(orgs, y));
      ConnectedThrough(links, x, Head(orgs, x), y);
    }
    if Connected(links, x, y) {
      var p :| Connects(links, p, x, y);
      PathHasOneHead(orgs, links, p);
    }
  }

  lemma MergeReflects(orgs: map<Id, Organisation>, links: seq<(Id, Id)>, keep: Id, absorbed: Id)
    requires Flat(orgs) && Mergeable(orgs, keep, absorbed) && Reflects(orgs, links)
    ensures Reflects(OrgsAfterMerge(orgs, keep, absorbed), links + [(keep, absorbed)])
  {
    HeadsAfterMerge(orgs, keep, absorbed);
    var next, more := OrgsAfterMerge(orgs, keep, absorbed), links + [(keep, absorbed)];
    assert (keep, absorbed) in more;
    forall id | id in next ensures Connected(more, id, Head(next, id)) {
      MoreLinks(links, [(keep, absorbed)], id, Head(orgs, id));
      if Head(orgs, id) == absorbed {
        ConnectedByLink(more, absorbed, keep);
        ConnectedThrough(more, id, absorbed, keep);
      }
    }
    forall l | l in more ensures l.0 in next && l.1 in next && Head(next, l.0) == Head(next, l.1) {
      assert l in links || l == (keep, absorbed);
    }
  }

  lemma StepReflects(rows: Rows, links: seq<(Id, Id)>, step: Step)
    requires Sound(rows) && Reflects(rows.orgs, links)
    ensures Reflects(After(rows, step).orgs, links + LinkOf(rows, step))
  {
    match step
    case MergeRows(keep, absorbed, allowConflict, allowCountry) =>
      if Check(rows.orgs, keep, absorbed, allowConflict, allowCountry).Merged? {
        MergeReflects(rows.orgs, links, keep, absorbed);
      } else {
        assert links + [] == links;
      }
    case ResolveBuyer(notice, query) => ResolveReflects(rows, links, query);
    case ResolveWinner(notice, query) => ResolveReflects(rows, links, query);
  }

  /** Rows that are added live, connected to themselves, change nothing. */
  lemma MoreRowsReflect(orgs: map<Id, Organisation>, next: map<Id, Organisation>, links: seq<(Id, Id)>)
    requires Reflects(orgs, links)
    requires forall x :: x in orgs ==> x in next && Head(next, x) == Head(orgs, x)
    requires forall x :: x in next && x !in orgs ==> IsLive(next, x)
    ensures Reflects(next, links)
  {
    forall id | id in next ensures Connected(links, id, Head(next, id)) {
      ConnectedItself(links, id);
    }
  }

  lemma ResolveReflects(rows: Rows, links: seq<(Id, Id)>, q: Query)
    requires Sound(rows) && Reflects(rows.orgs, links)
    ensures Reflects(Resolve(rows, q).0.orgs, links + [])
  {
    assert links + [] == links;
    ResolveKeeps(rows, q);
    MoreRowsReflect(rows.orgs, Resolve(rows, q).0.orgs, links);
  }

  lemma {:induction false} RunReflects(rows: Rows, links: seq<(Id, Id)>, steps: seq<Step>)
    requires Sound(rows) && Reflects(rows.orgs, links)
    ensures Reflects(Run(rows, steps).orgs, links + Accepted(rows, steps))
    decreases |steps|
  {
    if steps == [] {
      assert links + [] == links;
    } else {
      StepReflects(rows, links, steps[0]);
      StepKeeps(rows, steps[0]);
      var next := After(rows, steps[0]);
      RunReflects(next, links + LinkOf(rows, steps[0]), steps[1..]);
      assert links + LinkOf(rows, steps[0]) + Accepted(next, steps[1..]) == links + Accepted(rows, steps);
    }
  }

  /** Merging is a union-find kept flat: two rows stand for one organisation exactly when the accepted
      merges of the run connect them. */
  lemma OneOrganisationIffConnected(rows: Rows, steps: seq<Step>, x: Id, y: Id)
    requires Sound(rows) && forall id :: id in rows.orgs ==> rows.orgs[id].mergedInto.None?
    requires x in Run(rows, steps).orgs && y in Run(rows, steps).orgs
    ensures var orgs := Run(rows, steps).orgs;
            Follow(orgs, x, 8) == Follow(orgs, y, 8) <==> Connected(Accepted(rows, steps), x, y)
  {
    forall id | id in rows.orgs ensures Connected([], id, Head(rows.orgs, id)) {
      ConnectedItself([], id);
    }
    RunReflects(rows, [], steps);
    assert [] + Accepted(rows, steps) == Accepted(rows, steps);
    RunKeeps(rows, steps);
    FollowIsHead(Run(rows, steps).orgs, x);
    FollowIsHead(Run(rows, steps).orgs, y);
    ReflectsMeans(Run(rows, steps).orgs, Accepted(rows, steps), x, y);
  }

  // ------------------------------------------------------------------ one country, one number

  /** Every row is of the country of the row it stands for. */
  ghost predicate OneCountry(orgs: map<Id, Organisation>) {
    forall id :: id in orgs && Head(orgs, id) in orgs ==> orgs[id].country == orgs[Head(orgs, id)].country
  }

  /** Only live rows hold a number. */
  ghost predicate NumbersLive(orgs: map<Id, Organisation>) {
    forall id :: id in orgs && orgs[id].number.Some? ==> orgs[id].mergedInto.None?
  }

  /** No row changed its country or is merged that was not; and no merged row was given a number. */
  ghost predicate NothingMerged(before: map<Id, Organisation>, after: map<Id, Organisation>) {
    && (forall id :: id in before ==>
          && id in after && after[id].country == before[id].country && after[id].mergedInto == before[id].mergedInto
          && (before[id].mergedInto.Some? ==> after[id].number == before[id].number))
    && (forall id :: id in after && id !in before ==> after[id].mergedInto.None?)
  }

  lemma ByNameMergesNothing(rows: Rows, q: Query, number: Option<string>)
    requires Sound(rows)
    ensures NothingMerged(rows.orgs, ByName(rows, q, number).0.orgs)
  {
  }

  lemma AttachMergesNothing(rows: Rows, id: Id, q: Query, number: Option<string>)
    requires Sound(rows) && IsLive(rows.orgs, id)
    ensures NothingMerged(rows.orgs, Attach(rows, id, q, number).0.orgs)
  {
  }

  lemma NothingMergedTwice(a: map<Id, Organisation>, b: map<Id, Organisation>, c: map<Id, Organisation>)
    requires NothingMerged(a, b) && NothingMerged(b, c)
    ensures NothingMerged(a, c)
  {
  }

  lemma ResolveMergesNothing(rows: Rows, q: Query)
    requires Sound(rows)
    ensures NothingMerged(rows.orgs, Resolve(rows, q).0.orgs)
  {
    var holder := HolderOf(rows, q);
    NothingMergedItself(rows.orgs);
    StagesMergeNothing(rows, q, if holder.Some? then None else q.number);
    assert Resolve(rows, q).0.orgs == rows.orgs
        || Resolve(rows, q).0.orgs == NameStages(rows, q, if holder.Some? then None else q.number).0.orgs;
  }

  lemma NothingMergedItself(orgs: map<Id, Organisation>)
    ensures NothingMerged(orgs, orgs)
  {
  }

  lemma StagesMergeNothing(rows: Rows, q: Query, number: Option<string>)
    requires Sound(rows)
    requires number.Some? ==> HolderFrom(rows.orgs, 0, rows.nextId, q.country, number.value).None?
    ensures NothingMerged(rows.orgs, NameStages(rows, q, number).0.orgs)
  {
    var (known, id, created) := ByName(rows, q, number);
    ByNameMergesNothing(rows, q, number);
    if !created {
      ByNameKeeps(rows, q, number);
      AttachMergesNothing(known, id, q, number);
      NothingMergedTwice(rows.orgs, known.orgs, Attach(known, id, q, number).0.orgs);
    }
  }

  lemma KeptByNothingMerged(before: map<Id, Organisation>, after: map<Id, Organisation>)
    requires Flat(before) && NothingMerged(before, after)
    ensures OneCountry(before) ==> OneCountry(after)
    ensures NumbersLive(before) ==> NumbersLive(after)
  {
    if OneCountry(before) {
      forall id | id in after && Head(after, id) in after ensures after[id].country == after[Head(after, id)].country {
        if id in before {
          assert Head(after, id) == Head(before, id) && Head(before, id) in before;
        }
      }
    }
  }

  lemma MergeKeepsCountry(orgs: map<Id, Organisation>, keep: Id, absorbed: Id)
    requires Flat(orgs) && Mergeable(orgs, keep, absorbed) && OneCountry(orgs) && orgs[keep].country == orgs[absorbed].country
    ensures OneCountry(OrgsAfterMerge(orgs, keep, absorbed))
  {
    HeadsAfterMerge(orgs, keep, absorbed);
  }

  /** The kept row takes the absorbed one's number; two numbers would be two different ones. */
  lemma MergeKeepsNumbersLive(orgs: map<Id, Organisation>, keep: Id, absorbed: Id)
    requires Flat(orgs) && Mergeable(orgs, keep, absorbed) && NumbersLive(orgs) && NumbersUnique(orgs)
    requires orgs[keep].country == orgs[absorbed].country && !DifferentNumbers(orgs[keep], orgs[absorbed])
    ensures NumbersLive(OrgsAfterMerge(orgs, keep, absorbed))
  {
    assert !SameNumber(orgs[keep], orgs[absorbed]);
  }

  /** No merge of the run allows another country; or that and no conflict of numbers either. */
  predicate WithinCountry(steps: seq<Step>) {
    forall i :: 0 <= i < |steps| && steps[i].MergeRows? ==> !steps[i].allowCountry
  }

  predicate WithoutConflict(steps: seq<Step>) {
    WithinCountry(steps) && forall i :: 0 <= i < |steps| && steps[i].MergeRows? ==> !steps[i].allowConflict
  }

  lemma StepKeepsCountry(rows: Rows, step: Step)
    requires Sound(rows) && OneCountry(rows.orgs) && (step.MergeRows? ==> !step.allowCountry)
    ensures OneCountry(After(rows, step).orgs)
  {
    match step
    case MergeRows(keep, absorbed, allowConflict, allowCountry) =>
      CheckExact(rows.orgs, keep, absorbed, allowConflict, allowCountry);
      if Check(rows.orgs, keep, absorbed, allowConflict, allowCountry).Merged? {
        MergeKeepsCountry(rows.orgs, keep, absorbed);
      }
    case ResolveBuyer(_, query) =>
      ResolveMergesNothing(rows, query);
      KeptByNothingMerged(rows.orgs, Resolve(rows, query).0.orgs);
    case ResolveWinner(_, query) =>
      ResolveMergesNothing(rows, query);
      KeptByNothingMerged(rows.orgs, Resolve(rows, query).0.orgs);
  }

  lemma StepKeepsNumbersLive(rows: Rows, step: Step)
    requires Sound(rows) && NumbersLive(rows.orgs) && (step.MergeRows? ==> !step.allowCountry && !step.allowConflict)
    ensures NumbersLive(After(rows, step).orgs)
  {
    match step
    case MergeRows(keep, absorbed, allowConflict, allowCountry) =>
      CheckExact(rows.orgs, keep, absorbed, allowConflict, allowCountry);
      if Check(rows.orgs, keep, absorbed, allowConflict, allowCountry).Merged? {
        MergeKeepsNumbersLive(rows.orgs, keep, absorbed);
      }
    case ResolveBuyer(_, query) =>
      ResolveMergesNothing(rows, query);
      KeptByNothingMerged(rows.orgs, Resolve(rows, query).0.orgs);
    case ResolveWinner(_, query) =>
      ResolveMergesNothing(rows, query);
      KeptByNothingMerged(rows.orgs, Resolve(rows, query).0.orgs);
  }

  /** Over every run that allows no other country, the rows that stand for one organisation are of one country. */
  lemma {:induction false} OneCountryAlways(rows: Rows, steps: seq<Step>)
    requires Sound(rows) && OneCountry(rows.orgs) && WithinCountry(steps)
    ensures var orgs := Run(rows, steps).orgs;
            && OneCountry(orgs)
            && forall x, y :: x in orgs && y in orgs && Head(orgs, x) == Head(orgs, y) ==> orgs[x].country == orgs[y].country
    decreases |steps|
  {
    if steps != [] {
      StepKeepsCountry(rows, steps[0]);
      StepKeeps(rows, steps[0]);
      OneCountryAlways(After(rows, steps[0]), steps[1..]);
    }
  }

  /** Over every run that allows no conflict of numbers either, a number stays with the live row: the rows that stand for
      one organisation state one number at most. */
  lemma {:induction false} OneNumberAlways(rows: Rows, steps: seq<Step>)
    requires Sound(rows) && NumbersLive(rows.orgs) && WithoutConflict(steps)
    ensures var orgs := Run(rows, steps).orgs;
            && NumbersLive(orgs)
            && forall x, y :: x in orgs && y in orgs && Head(orgs, x) == Head(orgs, y) ==> !DifferentNumbers(orgs[x], orgs[y])
    decreases |steps|
  {
    if steps != [] {
      StepKeepsNumbersLive(rows, steps[0]);
      StepKeeps(rows, steps[0]);
      OneNumberAlways(After(rows, steps[0]), steps[1..]);
    }
  }

  // ------------------------------------------------------------------ awards counted once

  ghost predicate CountedOnce(orgs: map<Id, Organisation>, counted: set<(int, Id)>) {
    && (forall w :: w in counted ==> w.1 in orgs)
    && (forall v, w :: v in counted && w in counted && v.0 == w.0 && Head(orgs, v.1) == Head(orgs, w.1) ==> v == w)
  }

  /** A row merged into `absorbed` earlier holds a counted award on a notice the class of `keep` won:
      the merge looks at the awards of the absorbed row itself only. */
  ghost predicate InheritedRepeat(orgs: map<Id, Organisation>, counted: set<(int, Id)>, keep: Id, absorbed: Id) {
    exists v, w :: v in counted && w in counted && v.0 == w.0
                   && v.1 != absorbed && Head(orgs, v.1) == absorbed && Head(orgs, w.1) == keep
  }

  /** A merge leaves every award counted once exactly when no such row exists. */
  lemma MergeCountsOnceExact(rows: Rows, keep: Id, absorbed: Id)
    requires Flat(rows.orgs) && Mergeable(rows.orgs, keep, absorbed) && CountedOnce(rows.orgs, rows.counted)
    ensures var next := AfterMerge(rows, keep, absorbed);
            CountedOnce(next.orgs, next.counted) <==> !InheritedRepeat(rows.orgs, rows.counted, keep, absorbed)
  {
  }

  function Empty(): Rows {
    Rows(map[], [], map[], {}, 0)
  }

  lemma {:induction false} RunThenOne(rows: Rows, steps: seq<Step>, last: Step)
    ensures Run(rows, steps + [last]) == After(Run(rows, steps), last)
    decreases |steps|
  {
    if steps == [] {
      assert [] + [last] == [last] && [last][1..] == [];
    } else {
      assert (steps + [last])[1..] == steps[1..] + [last];
      RunThenOne(After(rows, steps[0]), steps[1..], last);
    }
  }

  ghost predicate NewName(rows: Rows, name: string) {
    && (forall i :: 0 <= i < |rows.aliases| ==> rows.aliases[i].name != name)
    && (forall id :: id in rows.orgs ==> rows.orgs[id].name != name)
  }

  /** The company of a name won, or bought. */
  function Named(name: string, country: string): Query {
    Query(name, country, None, None)
  }

  /** Such a repeat is reached: of three companies the first and the last won notice 7; the first is merged into the
      second and the second into the last, which then has both awards. */
  lemma RepeatIsReached(a: string, b: string, c: string, country: string) returns (steps: seq<Step>)
    requires a != "" && b != "" && c != "" && country != "" && a != b && a != c && b != c
    ensures var rows := Run(Empty(), steps);
            && Sound(rows) && Mergeable(rows.orgs, 2, 1) && Check(rows.orgs, 2, 1, false, false).Merged?
            && CountedOnce(rows.orgs, rows.counted) && InheritedRepeat(rows.orgs, rows.counted, 2, 1)
            && var next := Run(Empty(), steps + [MergeRows(2, 1, false, false)]);
               !CountedOnce(next.orgs, next.counted)
  {
    var r1 := ThreeCompanies(a, b, c, country);
    steps := r1 + [MergeRows(1, 0, false, false)];
    RunThenOne(Empty(), r1, MergeRows(1, 0, false, false));
    RunThenOne(Empty(), steps, MergeRows(2, 1, false, false));
    RunKeeps(Empty(), steps);
    FirstOfThreeMerged(Run(Empty(), r1), country);
    MergeCountsOnceExact(Run(Empty(), steps), 2, 1);
  }

  lemma FirstOfThreeMerged(before: Rows, country: string)
    requires before.orgs.Keys == {0, 1, 2} && before.counted == {(7, 0), (7, 2)}
    requires forall id :: id in before.orgs ==> NoMore(before.orgs[id], country)
    ensures var rows := After(before, MergeRows(1, 0, false, false));
            && Check(rows.orgs, 2, 1, false, false).Merged? && Mergeable(rows.orgs, 2, 1)
            && CountedOnce(rows.orgs, rows.counted) && InheritedRepeat(rows.orgs, rows.counted, 2, 1)
  {
    var rows := After(before, MergeRows(1, 0, false, false));
    assert rows == AfterMerge(before, 1, 0);
    assert WonTwice(before.orgs, before.counted, 1, 0) == {};
    assert (7, 0) in rows.counted && (7, 2) in rows.counted;
    assert InheritedRepeat(rows.orgs, rows.counted, 2, 1);
  }

  lemma ThreeSteps(rows: Rows, x: Step, y: Step, z: Step)
    ensures Run(rows, [x, y, z]) == After(After(After(rows, x), y), z)
  {
    RunThenOne(rows, [], x);
    RunThenOne(rows, [x], y);
    RunThenOne(rows, [x, y], z);
    assert [] + [x] == [x] && [x] + [y] == [x, y] && [x, y] + [z] == [x, y, z];
  }

  /** Two more companies, the second of which wins the notice too. */
  lemma TwoMore(one: Rows, b: Query, c: Query, country: string)
    requires b.name != "" && c.name != "" && b.name != c.name && NewName(one, b.name) && NewName(one, c.name)
    requires country != "" && b == Named(b.name, country) && c == Named(c.name, country)
    requires one.orgs.Keys == {0} && NoMore(one.orgs[0], country) && one.nextId == 1 && one.counted == {(7, 0)}
    ensures var rows := After(After(one, ResolveBuyer(7, b)), ResolveWinner(7, c));
            && rows.orgs.Keys == {0, 1, 2} && rows.counted == {(7, 0), (7, 2)}
            && forall id :: id in rows.orgs ==> NoMore(rows.orgs[id], country)
  {
    var two := After(one, ResolveBuyer(7, b));
    assert two.orgs.Keys == {0, 1} && two.nextId == 2 && two.counted == {(7, 0)};
    assert After(two, ResolveWinner(7, c)).orgs.Keys == {0, 1, 2};
  }

  lemma ThreeCompanies(a: string, b: string, c: string, country: string) returns (steps: seq<Step>)
    requires a != "" && b != "" && c != "" && country != "" && a != b && a != c && b != c
    ensures var rows := Run(Empty(), steps);
            && rows.orgs.Keys == {0, 1, 2} && rows.counted == {(7, 0), (7, 2)}
            && forall id :: id in rows.orgs ==> NoMore(rows.orgs[id], country)
  {
    var first, second := ResolveWinner(7, Named(a, country)), ResolveBuyer(7, Named(b, country));
    var third := ResolveWinner(7, Named(c, country));
    TwoMore(After(Empty(), first), Named(b, country), Named(c, country), country);
    ThreeSteps(Empty(), first, second, third);
    steps := [first, second, third];
  }

  /** Of the country, with no number, merged into nothing. */
  predicate NoMore(o: Organisation, country: string) {
    o.country == country && o.number.None? && o.mergedInto.None?
  }

  // ------------------------------------------------------------------ asking twice

  /** The stated number is unknown in the country and the name leads to an organisation with another one:
      the resolution splits off a namesake. */
  predicate SplitsNamesake(rows: Rows, q: Query) {
    && q.name != "" && q.country != "" && q.number.Some? && HolderOf(rows, q).None?
    && var (known, id, created) := ByName(rows, q, q.number);
       !created && id in known.orgs && known.orgs[id].number.Some? && known.orgs[id].number != q.number
  }

  lemma OnlyHolder(orgs: map<Id, Organisation>, next: Id, id: Id, number: string)
    requires NumbersUnique(orgs) && id in orgs && id < next && orgs[id].number == Some(number)
    ensures HolderFrom(orgs, 0, next, orgs[id].country, number) == Some(id)
  {
  }

  /** Once a name leads somewhere it keeps leading there, with or without a number. */
  lemma NameLeadsBack(rows: Rows, q: Query, number: Option<string>, later: Rows)
    requires Sound(rows)
    requires number.Some? ==> HolderFrom(rows.orgs, 0, rows.nextId, q.country, number.value).None?
    requires var (known, id, _) := ByName(rows, q, number);
             later.aliases == known.aliases && IsLive(later.orgs, id)
    requires forall x :: x in rows.orgs ==> Head(later.orgs, x) == Head(rows.orgs, x)
    ensures LeadsTo(later, q, ByName(rows, q, number).1)
  {
  }

  /** The name alone leads to `id`, whatever number is stated. */
  ghost predicate LeadsTo(rows: Rows, q: Query, id: Id) {
    && id in rows.orgs
    && ByName(rows, q, None) == (rows, id, false)
    && ByName(rows, q, q.number) == (rows, id, false)
  }

  function HolderOf(rows: Rows, q: Query): Option<Id> {
    if q.number.None? then None else HolderFrom(rows.orgs, 0, rows.nextId, q.country, q.number.value)
  }

  /** The answer once the name is known. */
  lemma ResolveKnown(rows: Rows, q: Query, id: Id)
    requires q.name != "" && q.country != "" && LeadsTo(rows, q, id)
    ensures var holder, found := HolderOf(rows, q), Resolve(rows, q).1;
            && (holder.Some? && NamesCompatible(q.name, rows.orgs[holder.value].name) ==>
                  found == Buyer(Head(rows.orgs, holder.value)))
            && (holder.Some? && !NamesCompatible(q.name, rows.orgs[holder.value].name) ==> found == Buyer(id))
            && (holder.None? && (q.number.None? || rows.orgs[id].number == q.number) ==> found == Buyer(id))
  {
  }

  /** Asking the same question twice gives the same organisation, except exactly when the first answer
      split off a namesake whose name has no word of four letters: its number is then never trusted
      again, and the second answer is the first namesake. */
  lemma AskingTwiceExact(rows: Rows, q: Query)
    requires Sound(rows) && Resolve(rows, q).1.Buyer?
    ensures var (next, first) := Resolve(rows, q);
            var second := Resolve(next, q).1;
            && second.Buyer?
            && (second == first <==> !(SplitsNamesake(rows, q) && Words(q.name) == {}))
  {
    var holder := HolderOf(rows, q);
    if holder.None? {
      AskingTwiceByName(rows, q);
    } else if !NamesCompatible(q.name, rows.orgs[holder.value].name) {
      AskingTwiceAgainstHolder(rows, q, holder.value);
    }
  }

  lemma AskingTwiceAgainstHolder(rows: Rows, q: Query, holder: Id)
    requires Sound(rows) && q.name != "" && q.country != "" && HolderOf(rows, q) == Some(holder)
    requires !NamesCompatible(q.name, rows.orgs[holder].name)
    ensures var (next, first) := Resolve(rows, q);
            first.Buyer? && Resolve(next, q).1 == first
  {
    var (known, id, created) := ByName(rows, q, None);
    assert Resolve(rows, q) == (known, Buyer(id));
    assert LeadsTo(known, q, id) by {
      ByNameKeeps(rows, q, None);
      NameLeadsBack(rows, q, None, known);
    }
    HolderStays(rows, q, holder);
    ResolveKnown(known, q, id);
  }

  /** The name is looked up without the number, so the number keeps its holder. */
  lemma HolderStays(rows: Rows, q: Query, holder: Id)
    requires Sound(rows) && HolderOf(rows, q) == Some(holder)
    ensures var known := ByName(rows, q, None).0;
            && HolderOf(known, q) == Some(holder) && holder in known.orgs && known.orgs[holder] == rows.orgs[holder]
  {
    var known := ByName(rows, q, None).0;
    ByNameKeeps(rows, q, None);
    assert holder in known.orgs && known.orgs[holder] == rows.orgs[holder];
    OnlyHolder(known.orgs, known.nextId, holder, q.number.value);
  }

  lemma ResolvesByName(rows: Rows, q: Query)
    requires q.name != "" && q.country != "" && HolderOf(rows, q).None? && Resolve(rows, q).1.Buyer?
    ensures Resolve(rows, q) == NameStages(rows, q, q.number)
  {
  }

  lemma AskingTwiceByName(rows: Rows, q: Query)
    requires Sound(rows) && Resolve(rows, q).1.Buyer? && HolderOf(rows, q).None?
    ensures var (next, first) := Resolve(rows, q);
            var second := Resolve(next, q).1;
            && second.Buyer?
            && (second == first <==> !(SplitsNamesake(rows, q) && Words(q.name) == {}))
  {
    var (known, id, created) := ByName(rows, q, q.number);
    var (next, first) := Resolve(rows, q);
    ResolvesByName(rows, q);
    ByNameKeeps(rows, q, q.number);
    NextLeadsBack(rows, q);
    if created {
      CreatedIsFoundAgain(rows, q);
      ResolveKnown(next, q, id);
    } else {
      FoundIsFoundAgain(known, next, q, id, first);
    }
  }

  lemma NextLeadsBack(rows: Rows, q: Query)
    requires Sound(rows) && HolderOf(rows, q).None? && !NameStages(rows, q, q.number).1.NumberTaken?
    ensures Sound(NameStages(rows, q, q.number).0)
    ensures LeadsTo(NameStages(rows, q, q.number).0, q, ByName(rows, q, q.number).1)
  {
    var (known, id, created) := ByName(rows, q, q.number);
    var next := NameStages(rows, q, q.number).0;
    ByNameKeeps(rows, q, q.number);
    NameStagesKeep(rows, q, q.number);
    if !created {
      AttachKeeps(known, id, q, q.number);
    }
    NameLeadsBack(rows, q, q.number, next);
  }

  /** The row created for a name and a number is the only holder of the number. */
  lemma CreatedIsFoundAgain(rows: Rows, q: Query)
    requires Sound(rows) && HolderOf(rows, q).None? && ByName(rows, q, q.number).2
    ensures var (known, id, _) := ByName(rows, q, q.number);
            known.orgs[id].number == q.number && HolderOf(known, q) == if q.number.Some? then Some(id) else None
  {
  }

  /** A known name: the number was there, was attached, or made a row of its own. */
  lemma FoundIsFoundAgain(known: Rows, next: Rows, q: Query, id: Id, first: Resolution)
    requires Sound(known) && IsLive(known.orgs, id) && HolderOf(known, q).None?
    requires Attach(known, id, q, q.number) == (next, first) && first.Buyer?
    requires Sound(next) && q.name != "" && q.country != "" && LeadsTo(next, q, id)
    ensures var second := Resolve(next, q).1;
            var split := q.number.Some? && known.orgs[id].number.Some? && known.orgs[id].number != q.number;
            && second.Buyer?
            && (second == first <==> !(split && Words(q.name) == {}))
  {
    if q.number.None? || known.orgs[id].number.None? || known.orgs[id].number == q.number {
      AttachedIsFoundAgain(known, next, q, id);
    } else {
      SplitIsFoundAgain(known, next, q, id);
    }
  }

  lemma AttachedIsFoundAgain(known: Rows, next: Rows, q: Query, id: Id)
    requires Sound(known) && IsLive(known.orgs, id) && HolderOf(known, q).None?
    requires q.number.None? || known.orgs[id].number.None? || known.orgs[id].number == q.number
    requires Attach(known, id, q, q.number) == (next, Buyer(id))
    requires IsLive(next.orgs, id) && q.name != "" && q.country != "" && LeadsTo(next, q, id)
    ensures Resolve(next, q).1 == Buyer(id)
  {
    ResolveKnown(next, q, id);
    if q.number.Some? {
      assert next.orgs[id].number == q.number;
      OwnNumberIsFound(known, next, q, id);
    }
  }

  /** The namesake's row is the only holder of the number, and answers where its name can be compared. */
  lemma SplitIsFoundAgain(known: Rows, next: Rows, q: Query, id: Id)
    requires Sound(next) && id in known.orgs && q.number.Some?
    requires known.orgs[id].number.Some? && known.orgs[id].number != q.number
    requires Attach(known, id, q, q.number).0 == next && id < known.nextId
    requires q.name != "" && q.country != "" && LeadsTo(next, q, id)
    ensures Resolve(next, q).1 == Buyer(if Words(q.name) == {} then id else known.nextId)
  {
    ResolveKnown(next, q, id);
    OnlyHolder(next.orgs, next.nextId, known.nextId, q.number.value);
  }

  /** A number that nobody in the country held is held, once attached, by the row of the name or by nobody. */
  lemma OwnNumberIsFound(known: Rows, next: Rows, q: Query, id: Id)
    requires id in known.orgs && q.number.Some? && HolderOf(known, q).None?
    requires forall x :: x in known.orgs ==> x < known.nextId
    requires next.orgs.Keys == known.orgs.Keys && forall x :: x in known.orgs && x != id ==> next.orgs[x] == known.orgs[x]
    ensures var holder := HolderOf(next, q);
            holder.Some? ==> holder.value == id
  {
  }

  /** So it happens: a name with no word of four letters, asked for with two numbers, is answered with a second
      row, and asked again with another. */
  lemma AskedTwiceAnsweredTwice(name: string, country: string, number: string, other: string)
    requires name != "" && country != "" && Words(name) == {} && number != other
    ensures var rows := Run(Empty(), [ResolveBuyer(7, Query(name, country, None, Some(number)))]);
            var q := Query(name, country, None, Some(other));
            var (next, first) := Resolve(rows, q);
            Sound(rows) && SplitsNamesake(rows, q) && first.Buyer? && Resolve(next, q).1 != first
  {
    var step := ResolveBuyer(7, Query(name, country, None, Some(number)));
    var q := Query(name, country, None, Some(other));
    var rows := After(Empty(), step);
    assert Run(Empty(), [step]) == Run(rows, [step][1..]) == rows;
    RunKeeps(Empty(), [step]);
    FirstNamesake(name, country, number, other);
    AskingTwiceExact(rows, q);
  }

  lemma FirstNamesake(name: string, country: string, number: string, other: string)
    requires name != "" && country != "" && number != other
    ensures var rows := After(Empty(), ResolveBuyer(7, Query(name, country, None, Some(number))));
            var q := Query(name, country, None, Some(other));
            SplitsNamesake(rows, q) && Resolve(rows, q).1.Buyer?
  {
    var q := Query(name, country, None, Some(number));
    FirstCompany(q);
    OnlyCompanySplits(After(Empty(), ResolveBuyer(7, q)), q.(number := Some(other)));
  }

  /** The tables hold one company, of the query's name. */
  predicate OnlyCompany(rows: Rows, name: string, country: string) {
    && rows.orgs.Keys == {0} && rows.nextId == 1 && rows.orgs[0].mergedInto.None?
    && |rows.aliases| == 1 && Names(rows.aliases[0], name, country) && rows.aliases[0].organisation == 0
  }

  lemma FirstCompany(q: Query)
    requires q.name != "" && q.country != ""
    ensures var rows := After(Empty(), ResolveBuyer(7, q));
            OnlyCompany(rows, q.name, q.country) && rows.orgs[0].number == q.number
  {
    assert HolderOf(Empty(), q).None? && ByName(Empty(), q, q.number).2;
  }

  lemma OnlyCompanySplits(rows: Rows, q: Query)
    requires OnlyCompany(rows, q.name, q.country) && q.name != "" && q.country != ""
    requires rows.orgs[0].number.Some? && q.number.Some? && q.number != rows.orgs[0].number
    ensures SplitsNamesake(rows, q) && Resolve(rows, q).1.Buyer?
  {
    assert HolderOf(rows, q).None?;
    assert ByName(rows, q, q.number) == (rows, 0, false);
  }

  lemma SomeNamesHaveNoWords()
    ensures Words("SAS") == {}
  {
    assert "SAS"[1..] == "AS" && "AS"[1..] == "S" && "S"[1..] == "";
  }
}
