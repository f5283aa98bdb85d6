/**
  Undoing a batch of merges (backend/dgate/ops/undo_merges.py, `plan`, `run`): which row stands for which, the
  aliases and the notices' buyers, from what the merges left behind.
 */
module OrganisationUndo {
  import opened Wrappers
  import opened Organisations
  import opened OrganisationRuns

  // ------------------------------------------------------------------ a batch of merges, with its log

  /** For each row, the heads it was repointed from and to, in order. */
  type Log = map<Id, seq<(Id, Id)>>

  datatype Logged = Logged(rows: Rows, log: Log)

  function Entries(log: Log, id: Id): seq<(Id, Id)> {
    if id in log then log[id] else []
  }

  function WithEntry(log: Log, orgs: map<Id, Organisation>, keep: Id, absorbed: Id): Log {
    map id | id in orgs ::
      if orgs[id].mergedInto == Some(absorbed) && id != keep then Entries(log, id) + [(absorbed, keep)] else Entries(log, id)
  }

  /** The tables once the pairs are merged one after another, each absorbed into the row kept. */
  function MergeAll(before: Logged, batch: seq<(Id, Id)>): Logged
    requires Mergeables(before, batch)
    ensures MergeAll(before, batch).rows.orgs.Keys == before.rows.orgs.Keys
    decreases |batch|, 1
  {
    if batch == [] then before
    else
      var n := |batch| - 1;
      var held := MergeAll(before, batch[..n]);
      var (keep, absorbed) := batch[n];
      Logged(AfterMerge(held.rows, keep, absorbed), WithEntry(held.log, held.rows.orgs, keep, absorbed))
  }

  /** Every merge of the batch is accepted when its turn comes. */
  predicate Mergeables(before: Logged, batch: seq<(Id, Id)>)
    decreases |batch|, 0
  {
    batch == []
    || (var n := |batch| - 1;
        Mergeables(before, batch[..n])
        && Mergeable(MergeAll(before, batch[..n]).rows.orgs, batch[n].0, batch[n].1))
  }

  function Members(batch: seq<(Id, Id)>): set<Id> {
    set p | p in batch :: p.1
  }

  // ------------------------------------------------------------------ the undo

  /** Of a row's log, the last head of the batch it was moved on from to where it points now. */
  function LastFrom(entries: seq<(Id, Id)>, members: set<Id>, pointer: Option<Id>): Option<Id> {
    if entries == [] then None
    else
      var last := entries[|entries| - 1];
      if last.0 in members && Some(last.1) == pointer then Some(last.0)
      else LastFrom(entries[..|entries| - 1], members, pointer)
  }

  /** The row goes back to the member that its newest line fits: one that moved it from a member to where it still points. */
  lemma {:induction false} LastFromExact(entries: seq<(Id, Id)>, members: set<Id>, pointer: Option<Id>)
    ensures var from := LastFrom(entries, members, pointer);
            && (from.None? <==> forall k :: 0 <= k < |entries| ==> !Fits(entries[k], members, pointer))
            && (from.Some? ==> exists k :: 0 <= k < |entries| && Fits(entries[k], members, pointer) && entries[k].0 == from.value
                                           && forall j :: k < j < |entries| ==> !Fits(entries[j], members, pointer))
  {
    if entries != [] {
      var n := |entries| - 1;
      if Fits(entries[n], members, pointer) {
        assert LastFrom(entries, members, pointer) == Some(entries[n].0);
      } else {
        var init := entries[..n];
        LastFromExact(init, members, pointer);
        assert forall k :: 0 <= k < n ==> init[k] == entries[k];
      }
    }
  }

  predicate Fits(entry: (Id, Id), members: set<Id>, pointer: Option<Id>) {
    entry.0 in members && pointer.Some? && entry.1 == pointer.value
  }

  function Repointed(orgs: map<Id, Organisation>, log: Log, members: set<Id>, id: Id): Option<Id> {
    if id in orgs then LastFrom(Entries(log, id), members, orgs[id].mergedInto) else None
  }

  /** `stays`: where a row still points once the batch is undone. */
  function StaysAt(orgs: map<Id, Organisation>, log: Log, members: set<Id>, id: Id): Option<Id> {
    var from := Repointed(orgs, log, members, id);
    if from.Some? then from
    else if id in members || id !in orgs then None
    else orgs[id].mergedInto
  }

  /** `live`: at most `hops` of those pointers. */
  function LiveAfter(orgs: map<Id, Organisation>, log: Log, members: set<Id>, id: Id, hops: nat): Id
    decreases hops
  {
    if hops == 0 || StaysAt(orgs, log, members, id).None? then id
    else LiveAfter(orgs, log, members, StaysAt(orgs, log, members, id).value, hops - 1)
  }

  /** `back_to`: the member of the batch that a row stands for afterwards, if `head` absorbed it. */
  function BackTo(orgs: map<Id, Organisation>, log: Log, members: set<Id>, id: Id, head: Id): Option<Id> {
    var t := LiveAfter(orgs, log, members, id, 16);
    if t in members && t in orgs && orgs[t].mergedInto == Some(head) then Some(t) else None
  }

  function PointerBack(orgs: map<Id, Organisation>, log: Log, members: set<Id>, id: Id): Option<Id>
    requires id in orgs
  {
    if id in members then None
    else if Repointed(orgs, log, members, id).Some? then Repointed(orgs, log, members, id)
    else orgs[id].mergedInto
  }

  function AliasBack(orgs: map<Id, Organisation>, log: Log, members: set<Id>, alias: Alias): Alias {
    if alias.previous.None? then alias
    else
      var t := BackTo(orgs, log, members, alias.previous.value, alias.organisation);
      if t.None? then alias
      else alias.(organisation := t.value, previous := if alias.previous == t then None else alias.previous)
  }

  /** A notice goes back to the member that the buyer archived before the batch stands for. */
  function BuyerBack(orgs: map<Id, Organisation>, log: Log, members: set<Id>, buyer: Id, archived: Option<Id>): Id {
    if archived.None? then buyer else BackTo(orgs, log, members, archived.value, buyer).GetOr(buyer)
  }

  function Archived(archived: map<int, Id>, notice: int): Option<Id> {
    if notice in archived then Some(archived[notice]) else None
  }

  /** The head that the row was merged into is not live. */
  predicate MergedSince(orgs: map<Id, Organisation>, id: Id) {
    Head(orgs, id) in orgs && orgs[Head(orgs, id)].mergedInto.Some?
  }

  class Tables {
    var orgs: map<Id, Organisation>
    var aliases: seq<Alias>
    var buyers: map<int, Id>
    const log: Log

    constructor (held: Logged)
      ensures orgs == held.rows.orgs && aliases == held.rows.aliases && buyers == held.rows.buyers && log == held.log
    {
      orgs, aliases, buyers, log := held.rows.orgs, held.rows.aliases, held.rows.buyers, held.log;
    }

    /** `run`: everything is planned on the tables as they are, and then written. Refused when a head of the batch was
        merged since. */
    method Undo(members: set<Id>, archived: map<int, Id>) returns (undone: bool)
      requires forall m :: m in members ==> m in orgs && orgs[m].mergedInto.Some?
      modifies this
      ensures undone <==> forall m :: m in members ==>
                var head := old(orgs)[m].mergedInto.value;
                head !in old(orgs) || old(orgs)[head].mergedInto.None?
      ensures !undone ==> orgs == old(orgs) && aliases == old(aliases) && buyers == old(buyers)
      ensures orgs.Keys == old(orgs).Keys
      ensures undone ==> forall id :: id in orgs ==>
                orgs[id] == old(orgs)[id].(mergedInto := PointerBack(old(orgs), log, members, id))
      ensures |aliases| == |old(aliases)|
      ensures undone ==> forall i :: 0 <= i < |aliases| ==> aliases[i] == AliasBack(old(orgs), log, members, old(aliases)[i])
      ensures buyers.Keys == old(buyers).Keys
      ensures undone ==> forall n :: n in buyers ==>
                buyers[n] == BuyerBack(old(orgs), log, members, old(buyers)[n], if n in archived then Some(archived[n]) else None)
    {
      var was, marked, bought := orgs, aliases, buyers;
      if exists m :: m in members && MergedSince(was, m) {
        return false;
      }
      Unmerge(members);
      Repoint(was, members);
      aliases := seq(|marked|, i requires 0 <= i < |marked| => AliasBack(was, log, members, marked[i]));
      buyers := map n | n in bought :: BuyerBack(was, log, members, bought[n], Archived(archived, n));
      return true;
    }

    method Unmerge(members: set<Id>)
      modifies this`orgs
      ensures orgs == map id | id in old(orgs) ::
                        if id in members then old(orgs)[id].(mergedInto := None) else old(orgs)[id]
    {
      orgs := map id | id in orgs :: if id in members then orgs[id].(mergedInto := None) else orgs[id];
    }

    /** Only a row that still points where it did is repointed: a member no longer does. */
    method Repoint(was: map<Id, Organisation>, members: set<Id>)
      requires forall m :: m in members ==> m in was && was[m].mergedInto.Some?
      requires orgs == map id | id in was :: if id in members then was[id].(mergedInto := None) else was[id]
      modifies this`orgs
      ensures orgs.Keys == was.Keys
      ensures forall id :: id in orgs ==> orgs[id] == was[id].(mergedInto := PointerBack(was, log, members, id))
    {
      orgs := map id | id in orgs ::
        if Repointed(was, log, members, id).Some? && orgs[id].mergedInto == was[id].mergedInto
        then orgs[id].(mergedInto := Repointed(was, log, members, id)) else orgs[id];
    }
  }

  // ------------------------------------------------------------------ what a batch leaves behind

  /** The member under which a row stood when the batch was over, if its organisation was absorbed at all. */
  function Under(before: Logged, batch: seq<(Id, Id)>, id: Id): Option<Id>
    requires Mergeables(before, batch)
  {
    if batch == [] then None
    else
      var n := |batch| - 1;
      if Head(MergeAll(before, batch[..n]).rows.orgs, id) == batch[n].1 then Some(batch[n].1) else Under(before, batch[..n], id)
  }

  /** No log line says that a row was moved on from one the batch is to absorb. */
  ghost predicate FreshLog(log: Log, members: set<Id>) {
    forall id, k :: id in log && 0 <= k < |log[id]| ==> log[id][k].0 !in members
  }

  /** What is held of a row: live and never moved, merged and never moved on, or moved on last from the member it stood
      under, which points where the row does. */
  ghost predicate Traced(before: Logged, now: Logged, under: Option<Id>, id: Id)
    requires id in before.rows.orgs && id in now.rows.orgs
  {
    var was, pointer := before.rows.orgs[id].mergedInto, now.rows.orgs[id].mergedInto;
    if under.None? then pointer == was && Entries(now.log, id) == Entries(before.log, id)
    else
      && pointer.Some? && under.value in now.rows.orgs && now.rows.orgs[under.value].mergedInto == pointer
      && (under.value == id ==> was.None? && Entries(now.log, id) == Entries(before.log, id))
      && (under.value != id ==> MovedLast(Entries(now.log, id), (under.value, pointer.value)))
  }

  predicate MovedLast(entries: seq<(Id, Id)>, entry: (Id, Id)) {
    entries != [] && entries[|entries| - 1] == entry
  }

  /** The tables stay sound, so that no head of the batch is merged itself and the undo is not refused. */
  lemma {:induction false} BatchIsSound(before: Logged, batch: seq<(Id, Id)>)
    requires Sound(before.rows) && Mergeables(before, batch)
    ensures Sound(MergeAll(before, batch).rows)
    decreases |batch|
  {
    if batch != [] {
      var n := |batch| - 1;
      BatchIsSound(before, batch[..n]);
      MergeKeeps(MergeAll(before, batch[..n]).rows, batch[n].0, batch[n].1);
    }
  }

  lemma HeadOneMore(before: Logged, batch: seq<(Id, Id)>, id: Id)
    requires batch != [] && Sound(before.rows) && Mergeables(before, batch) && id in before.rows.orgs
    ensures var n := |batch| - 1;
            var head := Head(MergeAll(before, batch[..n]).rows.orgs, id);
            Head(MergeAll(before, batch).rows.orgs, id) == if head == batch[n].1 then batch[n].0 else head
  {
    var n := |batch| - 1;
    BatchIsSound(before, batch[..n]);
    HeadsAfterMerge(MergeAll(before, batch[..n]).rows.orgs, batch[n].0, batch[n].1);
  }

  lemma {:induction false} AllTraced(before: Logged, batch: seq<(Id, Id)>, id: Id)
    requires Sound(before.rows) && Mergeables(before, batch) && id in before.rows.orgs
    ensures Traced(before, MergeAll(before, batch), Under(before, batch, id), id)
    decreases |batch|
  {
    if batch != [] {
      var n := |batch| - 1;
      AllTraced(before, batch[..n], id);
      BatchIsSound(before, batch[..n]);
      OneMoreTraced(before, MergeAll(before, batch[..n]), batch[n].0, batch[n].1, Under(before, batch[..n], id), id);
    }
  }

  lemma MembersMore(batch: seq<(Id, Id)>, id: Id)
    requires batch != []
    ensures var n := |batch| - 1;
            id in Members(batch) <==> id in Members(batch[..n]) || id == batch[n].1
  {
    assert batch == batch[..|batch| - 1] + [batch[|batch| - 1]];
  }

  /** A row is a member exactly when it was live and stands under some row of the batch, its own at first. */
  lemma {:induction false} MembersAreUnder(before: Logged, batch: seq<(Id, Id)>, id: Id)
    requires Sound(before.rows) && Mergeables(before, batch) && id in before.rows.orgs
    ensures id in Members(batch) <==> before.rows.orgs[id].mergedInto.None? && Under(before, batch, id).Some?
    decreases |batch|
  {
    if batch != [] {
      var n := |batch| - 1;
      var (keep, absorbed) := batch[n];
      MembersMore(batch, id);
      MembersAreUnder(before, batch[..n], id);
      AllTraced(before, batch[..n], id);
    }
  }

  /** The row stood under is a member, directly below the head. */
  lemma {:induction false} UnderIsMember(before: Logged, batch: seq<(Id, Id)>, id: Id)
    requires Sound(before.rows) && Mergeables(before, batch) && id in before.rows.orgs && Under(before, batch, id).Some?
    ensures var u := Under(before, batch, id).value;
            u in before.rows.orgs && u in Members(batch) && Under(before, batch, u) == Some(u)
    decreases |batch|
  {
    var n := |batch| - 1;
    var held, absorbed := MergeAll(before, batch[..n]), batch[n].1;
    MembersMore(batch, Under(before, batch, id).value);
    BatchIsSound(before, batch[..n]);
    if Head(held.rows.orgs, id) != absorbed {
      UnderIsMember(before, batch[..n], id);
      AllTraced(before, batch[..n], id);
    }
  }

  lemma OneMoreTraced(before: Logged, held: Logged, keep: Id, absorbed: Id, under: Option<Id>, id: Id)
    requires Sound(held.rows) && Mergeable(held.rows.orgs, keep, absorbed) && held.rows.orgs.Keys == before.rows.orgs.Keys
    requires id in held.rows.orgs && Traced(before, held, under, id)
    ensures var now := Logged(AfterMerge(held.rows, keep, absorbed), WithEntry(held.log, held.rows.orgs, keep, absorbed));
            Traced(before, now, if Head(held.rows.orgs, id) == absorbed then Some(absorbed) else under, id)
  {
    var next := OrgsAfterMerge(held.rows.orgs, keep, absorbed);
    var log := WithEntry(held.log, held.rows.orgs, keep, absorbed);
    assert id in log && Entries(log, id) == log[id];
    if Head(held.rows.orgs, id) == absorbed {
      assert next[id].mergedInto == Some(keep) && next[absorbed].mergedInto == Some(keep);
    } else {
      assert next[id].mergedInto == held.rows.orgs[id].mergedInto && Entries(log, id) == Entries(held.log, id);
    }
  }

  // ------------------------------------------------------------------ where the undo leads

  ghost predicate Undoable(before: Logged, batch: seq<(Id, Id)>) {
    Sound(before.rows) && Mergeables(before, batch) && FreshLog(before.log, Members(batch))
  }

  lemma {:induction false} NoneFrom(entries: seq<(Id, Id)>, members: set<Id>, pointer: Option<Id>)
    requires forall k :: 0 <= k < |entries| ==> entries[k].0 !in members
    ensures LastFrom(entries, members, pointer).None?
  {
    if entries != [] {
      NoneFrom(entries[..|entries| - 1], members, pointer);
    }
  }

  /** Rows of one organisation stay in one, and under one member. */
  lemma {:induction false} TogetherWithHead(before: Logged, batch: seq<(Id, Id)>, id: Id)
    requires Sound(before.rows) && Mergeables(before, batch) && id in before.rows.orgs
    ensures var h := Head(before.rows.orgs, id);
            && Under(before, batch, id) == Under(before, batch, h)
            && Head(MergeAll(before, batch).rows.orgs, id) == Head(MergeAll(before, batch).rows.orgs, h)
    decreases |batch|
  {
    if batch != [] {
      var n := |batch| - 1;
      TogetherWithHead(before, batch[..n], id);
      HeadOneMore(before, batch, id);
      HeadOneMore(before, batch, Head(before.rows.orgs, id));
    }
  }

  lemma RepointedIs(before: Logged, batch: seq<(Id, Id)>, id: Id)
    requires Undoable(before, batch) && id in before.rows.orgs
    ensures var u, now := Under(before, batch, id), MergeAll(before, batch);
            Repointed(now.rows.orgs, now.log, Members(batch), id) == if u == Some(id) then None else u
  {
    var u, now := Under(before, batch, id), MergeAll(before, batch);
    AllTraced(before, batch, id);
    if u.Some? && u.value != id {
      UnderIsMember(before, batch, id);
    } else {
      NoneFrom(Entries(now.log, id), Members(batch), now.rows.orgs[id].mergedInto);
    }
  }

  lemma StaysIs(before: Logged, batch: seq<(Id, Id)>, id: Id)
    requires Undoable(before, batch) && id in before.rows.orgs
    ensures var u, now := Under(before, batch, id), MergeAll(before, batch);
            StaysAt(now.rows.orgs, now.log, Members(batch), id)
            == if u.None? then before.rows.orgs[id].mergedInto else if u == Some(id) then None else u
  {
    RepointedIs(before, batch, id);
    AllTraced(before, batch, id);
    MembersAreUnder(before, batch, id);
  }

  /** Following what stays, a row leads to the member it stood under, or to its organisation of before. */
  lemma LiveIs(before: Logged, batch: seq<(Id, Id)>, id: Id)
    requires Undoable(before, batch) && id in before.rows.orgs
    ensures var now := MergeAll(before, batch);
            LiveAfter(now.rows.orgs, now.log, Members(batch), id, 16)
            == Under(before, batch, id).GetOr(Head(before.rows.orgs, id))
  {
    var now, h := MergeAll(before, batch), Head(before.rows.orgs, id);
    var next := Under(before, batch, id).GetOr(h);
    StaysIs(before, batch, id);
    if next != id {
      if Under(before, batch, id).Some? {
        UnderIsMember(before, batch, id);
      } else {
        TogetherWithHead(before, batch, id);
      }
      StaysIs(before, batch, next);
      assert LiveAfter(now.rows.orgs, now.log, Members(batch), next, 15) == next;
    }
  }

  lemma BackToIs(before: Logged, batch: seq<(Id, Id)>, id: Id, head: Id)
    requires Undoable(before, batch) && id in before.rows.orgs
    ensures var u, now := Under(before, batch, id), MergeAll(before, batch);
            BackTo(now.rows.orgs, now.log, Members(batch), id, head)
            == if Head(now.rows.orgs, id) == head then u else None
  {
    LiveIs(before, batch, id);
    AllTraced(before, batch, id);
    if Under(before, batch, id).Some? {
      UnderIsMember(before, batch, id);
    } else {
      TogetherWithHead(before, batch, id);
      MembersAreUnder(before, batch, Head(before.rows.orgs, id));
    }
  }

  // ------------------------------------------------------------------ what the undo gives back

  /** The batch absorbs the organisation, and later the one that kept it. */
  predicate Chained(batch: seq<(Id, Id)>, id: Id) {
    exists i, j :: 0 <= i < j < |batch| && batch[i].1 == id && batch[j].1 == batch[i].0
  }

  /** The organisation stands under none or under itself: exactly those in no chain of the batch. */
  ghost predicate Settled(before: Logged, batch: seq<(Id, Id)>, id: Id)
    requires Mergeables(before, batch)
  {
    Under(before, batch, id).None? || Under(before, batch, id) == Some(id)
  }

  /** What is held of an organisation that stands under `under` and is led by `head` once these pairs are merged. */
  ghost predicate ChainedSoFar(batch: seq<(Id, Id)>, id: Id, under: Option<Id>, head: Id) {
    if id !in Members(batch) then under.None? && head == id && !Chained(batch, id)
    else if Chained(batch, id) then under.Some? && under != Some(id)
    else under == Some(id) && forall i :: 0 <= i < |batch| && batch[i].1 == id ==> batch[i].0 == head
  }

  lemma {:induction false} ChainsAreUnsettled(before: Logged, batch: seq<(Id, Id)>, id: Id)
    requires Sound(before.rows) && Mergeables(before, batch) && IsLive(before.rows.orgs, id)
    ensures ChainedSoFar(batch, id, Under(before, batch, id), Head(MergeAll(before, batch).rows.orgs, id))
    decreases |batch|
  {
    if batch != [] {
      var n := |batch| - 1;
      var held := MergeAll(before, batch[..n]).rows.orgs;
      ChainsAreUnsettled(before, batch[..n], id);
      HeadOneMore(before, batch, id);
      AllTraced(before, batch[..n], id);
      OneMoreInChain(batch, id, Under(before, batch[..n], id), Head(held, id));
    }
  }

  lemma OneMoreInChain(batch: seq<(Id, Id)>, id: Id, under: Option<Id>, head: Id)
    requires batch != [] && ChainedSoFar(batch[..|batch| - 1], id, under, head)
    requires under.Some? ==> id != batch[|batch| - 1].1
    ensures var (keep, absorbed) := batch[|batch| - 1];
            ChainedSoFar(batch, id, if head == absorbed then Some(absorbed) else under, if head == absorbed then keep else head)
  {
    var n := |batch| - 1;
    MembersMore(batch, id);
    ChainsMore(batch, id);
    assert forall i :: 0 <= i < n ==> batch[..n][i] == batch[i];
    if id in Members(batch[..n]) {
      var i :| 0 <= i < n && batch[..n][i].1 == id;
      assert batch[i].1 == id;
    }
  }

  lemma ChainsMore(batch: seq<(Id, Id)>, id: Id)
    requires batch != []
    ensures var n := |batch| - 1;
            Chained(batch, id) <==>
            Chained(batch[..n], id) || exists i :: 0 <= i < n && batch[i].1 == id && batch[i].0 == batch[n].1
  {
    var n := |batch| - 1;
    assert forall i :: 0 <= i < n ==> batch[..n][i] == batch[i];
    if Chained(batch[..n], id) {
      var i, j :| 0 <= i < j < n && batch[..n][i].1 == id && batch[..n][j].1 == batch[..n][i].0;
      assert batch[i].1 == id && batch[j].1 == batch[i].0;
    }
  }

  lemma SettledExact(before: Logged, batch: seq<(Id, Id)>, id: Id)
    requires Sound(before.rows) && Mergeables(before, batch) && IsLive(before.rows.orgs, id)
    ensures Settled(before, batch, id) <==> !Chained(batch, id)
  {
    ChainsAreUnsettled(before, batch, id);
  }

  /** A row points where it did exactly when it was live or its organisation is in no chain. */
  lemma PointerBackExact(before: Logged, batch: seq<(Id, Id)>, id: Id)
    requires Undoable(before, batch) && id in before.rows.orgs
    ensures var was, now := before.rows.orgs, MergeAll(before, batch);
            PointerBack(now.rows.orgs, now.log, Members(batch), id) == was[id].mergedInto
            <==> IsLive(was, id) || !Chained(batch, Head(was, id))
  {
    RepointedIs(before, batch, id);
    AllTraced(before, batch, id);
    MembersAreUnder(before, batch, id);
    TogetherWithHead(before, batch, id);
    SettledExact(before, batch, Head(before.rows.orgs, id));
  }

  /** An alias filed under a live organisation, once that is led by `head` and stands under `under`. */
  function Carried(alias: Alias, under: Option<Id>, head: Id): Alias {
    alias.(organisation := head, previous := if under.None? then alias.previous else Some(FirstFiled(alias)))
  }

  /** An alias's organisation and first organisation, once the batch is over. */
  lemma {:induction false} AliasAfterBatch(before: Logged, batch: seq<(Id, Id)>, i: nat)
    requires Sound(before.rows) && Mergeables(before, batch) && i < |before.rows.aliases|
    ensures var was, now := before.rows.aliases[i], MergeAll(before, batch).rows;
            && |now.aliases| == |before.rows.aliases|
            && now.aliases[i] == Carried(was, Under(before, batch, was.organisation), Head(now.orgs, was.organisation))
    decreases |batch|
  {
    var was := before.rows.aliases[i];
    assert AliasFollows(before.rows.orgs, was);
    if batch != [] {
      AliasAfterBatch(before, batch[..|batch| - 1], i);
      HeadOneMore(before, batch, was.organisation);
      UnabsorbedLeadsItself(before, batch[..|batch| - 1], was.organisation);
    }
  }

  lemma UnabsorbedLeadsItself(before: Logged, batch: seq<(Id, Id)>, id: Id)
    requires Sound(before.rows) && Mergeables(before, batch) && IsLive(before.rows.orgs, id)
    ensures Under(before, batch, id).None? ==> Head(MergeAll(before, batch).rows.orgs, id) == id
  {
    AllTraced(before, batch, id);
  }

  /** The batch over and undone, the alias is as it was. */
  ghost predicate AliasIsBack(before: Logged, batch: seq<(Id, Id)>, i: nat)
    requires Mergeables(before, batch) && i < |before.rows.aliases|
  {
    var now := MergeAll(before, batch);
    i < |now.rows.aliases|
    && AliasBack(now.rows.orgs, now.log, Members(batch), now.rows.aliases[i]) == before.rows.aliases[i]
  }

  /** An alias is as it was exactly when its organisation was not absorbed, or is in no chain and was not noted as its
      own first. */
  lemma AliasBackExact(before: Logged, batch: seq<(Id, Id)>, i: nat)
    requires Undoable(before, batch) && i < |before.rows.aliases|
    ensures var was := before.rows.aliases[i];
            AliasIsBack(before, batch, i) <==>
            was.organisation !in Members(batch)
            || (!Chained(batch, was.organisation) && was.previous != Some(was.organisation))
  {
    var was, now := before.rows.aliases[i], MergeAll(before, batch);
    var o := was.organisation;
    assert AliasFollows(before.rows.orgs, was);
    AliasAfterBatch(before, batch, i);
    TogetherWithHead(before, batch, FirstFiled(was));
    BackToIs(before, batch, FirstFiled(was), Head(now.rows.orgs, o));
    MembersAreUnder(before, batch, o);
    SettledExact(before, batch, o);
    AllTraced(before, batch, o);
  }

  lemma {:induction false} BuyerAfterBatch(before: Logged, batch: seq<(Id, Id)>, notice: int)
    requires Sound(before.rows) && Mergeables(before, batch) && notice in before.rows.buyers
    ensures var now := MergeAll(before, batch).rows;
            notice in now.buyers && now.buyers[notice] == Head(now.orgs, before.rows.buyers[notice])
    decreases |batch|
  {
    assert IsLive(before.rows.orgs, before.rows.buyers[notice]);
    if batch != [] {
      var n := |batch| - 1;
      BuyerAfterBatch(before, batch[..n], notice);
      HeadOneMore(before, batch, before.rows.buyers[notice]);
    }
  }

  /** A notice has the buyer it had exactly when an absorbed buyer is the one that the archived row last stood under, or
      a buyer that was not absorbed did not absorb the archived row's organisation. */
  lemma BuyerBackExact(before: Logged, batch: seq<(Id, Id)>, notice: int, archived: Option<Id>)
    requires Undoable(before, batch) && notice in before.rows.buyers
    requires archived.Some? ==> archived.value in before.rows.orgs
    ensures var was, now := before.rows.buyers[notice], MergeAll(before, batch);
            && notice in now.rows.buyers
            && (BuyerBack(now.rows.orgs, now.log, Members(batch), now.rows.buyers[notice], archived) == was
                <==> if was in Members(batch) then archived.Some? && Under(before, batch, archived.value) == Some(was)
                     else archived.None? || Under(before, batch, archived.value).None?
                          || Head(now.rows.orgs, archived.value) != was)
  {
    var was, now := before.rows.buyers[notice], MergeAll(before, batch);
    assert IsLive(before.rows.orgs, was);
    BuyerAfterBatch(before, batch, notice);
    HeadMeansMember(before, batch, was);
    if archived.Some? {
      BackToIs(before, batch, archived.value, now.rows.buyers[notice]);
      UnderTogether(before, batch, archived.value);
    }
  }

  lemma HeadMeansMember(before: Logged, batch: seq<(Id, Id)>, id: Id)
    requires Sound(before.rows) && Mergeables(before, batch) && IsLive(before.rows.orgs, id)
    ensures Head(MergeAll(before, batch).rows.orgs, id) != id <==> id in Members(batch)
  {
    MembersAreUnder(before, batch, id);
    AllTraced(before, batch, id);
    BatchIsSound(before, batch);
  }

  lemma UnderTogether(before: Logged, batch: seq<(Id, Id)>, id: Id)
    requires Sound(before.rows) && Mergeables(before, batch) && id in before.rows.orgs
    ensures Under(before, batch, id).Some? ==>
              var u, now := Under(before, batch, id).value, MergeAll(before, batch).rows.orgs;
              u in Members(batch) && Head(now, u) == Head(now, id)
  {
    AllTraced(before, batch, id);
    if Under(before, batch, id).Some? {
      UnderIsMember(before, batch, id);
    }
  }

  /** With the buyer archived as it stood, the notice has it again exactly when it is in no chain. */
  lemma ArchivedBuyerBackExact(before: Logged, batch: seq<(Id, Id)>, notice: int)
    requires Undoable(before, batch) && notice in before.rows.buyers
    ensures var was, now := before.rows.buyers[notice], MergeAll(before, batch);
            && notice in now.rows.buyers
            && (BuyerBack(now.rows.orgs, now.log, Members(batch), now.rows.buyers[notice], Some(was)) == was
                <==> !Chained(batch, was))
  {
    var was := before.rows.buyers[notice];
    assert IsLive(before.rows.orgs, was);
    BuyerBackExact(before, batch, notice, Some(was));
    MembersAreUnder(before, batch, was);
    SettledExact(before, batch, was);
  }

  /** Nothing is in a chain when no row that is kept by one pair is absorbed by a later one: then a batch that is merged
      and undone leaves every pointer, every alias and every buyer archived as it stood. */
  lemma UnchainedComesBack(before: Logged, batch: seq<(Id, Id)>)
    requires Undoable(before, batch)
    requires forall i, j :: 0 <= i < j < |batch| ==> batch[i].0 != batch[j].1
    requires forall i :: 0 <= i < |before.rows.aliases| ==>
               before.rows.aliases[i].previous != Some(before.rows.aliases[i].organisation)
    ensures var now, members := MergeAll(before, batch), Members(batch);
            && |now.rows.aliases| == |before.rows.aliases| && now.rows.buyers.Keys == before.rows.buyers.Keys
            && (forall id :: id in before.rows.orgs ==>
                  PointerBack(now.rows.orgs, now.log, members, id) == before.rows.orgs[id].mergedInto)
            && (forall i :: 0 <= i < |before.rows.aliases| ==> AliasIsBack(before, batch, i))
            && (forall n :: n in before.rows.buyers ==>
                  BuyerBack(now.rows.orgs, now.log, members, now.rows.buyers[n], Some(before.rows.buyers[n]))
                  == before.rows.buyers[n])
  {
    var now, members := MergeAll(before, batch), Members(batch);
    SameNotices(before, batch);
    forall id | id in before.rows.orgs
      ensures PointerBack(now.rows.orgs, now.log, members, id) == before.rows.orgs[id].mergedInto
    {
      PointerBackExact(before, batch, id);
    }
    forall i | 0 <= i < |before.rows.aliases| ensures AliasIsBack(before, batch, i) {
      AliasBackExact(before, batch, i);
    }
    forall n | n in before.rows.buyers
      ensures BuyerBack(now.rows.orgs, now.log, members, now.rows.buyers[n], Some(before.rows.buyers[n])) == before.rows.buyers[n]
    {
      ArchivedBuyerBackExact(before, batch, n);
    }
  }

  lemma {:induction false} SameNotices(before: Logged, batch: seq<(Id, Id)>)
    requires Mergeables(before, batch)
    ensures MergeAll(before, batch).rows.buyers.Keys == before.rows.buyers.Keys
    ensures |MergeAll(before, batch).rows.aliases| == |before.rows.aliases|
    decreases |batch|
  {
    if batch != [] {
      SameNotices(before, batch[..|batch| - 1]);
    }
  }

  /** Of three live organisations, the first can be merged into the second and the second into the third: undone
      together, the first one's aliases do not come back. */
  lemma ChainKeepsAliases(before: Logged, a: Id, b: Id, c: Id)
    requires Flat(before.rows.orgs) && a != b && b != c && c != a
    requires IsLive(before.rows.orgs, a) && IsLive(before.rows.orgs, b) && IsLive(before.rows.orgs, c)
    ensures Mergeables(before, [(b, a), (c, b)])
    ensures Undoable(before, [(b, a), (c, b)]) ==>
              forall i :: 0 <= i < |before.rows.aliases| && before.rows.aliases[i].organisation == a ==>
                !AliasIsBack(before, [(b, a), (c, b)], i)
  {
    var batch := [(b, a), (c, b)];
    assert batch[..1] == [(b, a)];
    assert Mergeables(before, batch[..1][..0]);
    assert Mergeables(before, batch[..1]);
    HeadsAfterMerge(before.rows.orgs, b, a);
    forall i | Undoable(before, batch) && 0 <= i < |before.rows.aliases| && before.rows.aliases[i].organisation == a
      ensures !AliasIsBack(before, batch, i)
    {
      ChainedAliasStays(before, batch, i, 0, 1);
    }
  }

  lemma ChainedAliasStays(before: Logged, batch: seq<(Id, Id)>, alias: nat, i: nat, j: nat)
    requires Undoable(before, batch) && alias < |before.rows.aliases| && i < j < |batch|
    requires batch[i].1 == before.rows.aliases[alias].organisation && batch[j].1 == batch[i].0
    ensures !AliasIsBack(before, batch, alias)
  {
    assert batch[i] in batch;
    AliasBackExact(before, batch, alias);
  }
}
