/**
  Buyer organisations, their aliases and their merges (backend/dgate/db.py).

  A merge never deletes a row: the absorbed row points at the one kept, and everything that named it
  follows. The tables are the fields of `Registry`; `Rows` is a snapshot of them, and the functions on
  `Rows` say what each operation leaves behind as a whole.
 */
module Organisations {
  import opened Wrappers

  type Id = nat

  datatype Organisation = Organisation(
    name: string, country: string, number: Option<string>, mergedInto: Option<Id>,
    pic: Option<string>, vat: Option<string>, defence: bool)

  /** One way a name was written. `previous` is the organisation it was first filed under, once moved. */
  datatype Alias = Alias(
    name: string, country: Option<string>, source: Option<int>,
    organisation: Id, previous: Option<Id>, confidence: nat)

  /** `counted` holds the awards that are current and not excluded, by notice and organisation. */
  datatype Rows = Rows(
    orgs: map<Id, Organisation>, aliases: seq<Alias>, buyers: map<int, Id>,
    counted: set<(int, Id)>, nextId: Id)

  const CONF_EXACT_NAME: nat := 95
  const CONF_IDENTIFIER: nat := 97

  // ------------------------------------------------------------------ names

  function LongWord(word: string): set<string> {
    if |word| >= 4 then {word} else {}
  }

  /** `_tokens`: the words of four letters or more, a hyphen read as a space. */
  function Words(rest: string, word: string := ""): set<string>
    decreases |rest|
  {
    if rest == [] then LongWord(word)
    else if rest[0] == ' ' || rest[0] == '-' then LongWord(word) + Words(rest[1..], "")
    else Words(rest[1..], word + [rest[0]])
  }

  predicate NamesCompatible(a: string, b: string) {
    var ta, tb := Words(a), Words(b);
    if ta == {} || tb == {} then false
    else
      var (small, large) := if |ta| <= |tb| then (ta, tb) else (tb, ta);
      ta == tb || (|small| >= 2 && small <= large)
  }

  /** Two names are compatible when they have the same words, or two or more words that are all the
      words of one of them; the order they are given in does not matter. */
  lemma NamesCompatibleMeans(a: string, b: string)
    ensures NamesCompatible(a, b) == NamesCompatible(b, a)
    ensures NamesCompatible(a, b) <==>
            && Words(a) != {}
            && (Words(a) == Words(b)
                || (Words(a) <= Words(b) && |Words(a)| >= 2)
                || (Words(b) <= Words(a) && |Words(b)| >= 2))
  {
    var ta, tb := Words(a), Words(b);
    if ta <= tb {
      Smaller(ta, tb);
    }
    if tb <= ta {
      Smaller(tb, ta);
    }
  }

  lemma Smaller(a: set<string>, b: set<string>)
    requires a <= b
    ensures |a| <= |b| && (|a| == |b| ==> a == b)
  {
    assert |b| == |a| + |b - a| by {
      assert b == a + (b - a);
    }
    if |a| == |b| {
      assert b - a == {};
    }
  }

  // ------------------------------------------------------------------ following merges

  /** The loop of `_live`: at most `hops` pointers are followed. */
  function Follow(orgs: map<Id, Organisation>, id: Id, hops: nat): Id
    decreases hops
  {
    if hops == 0 || id !in orgs || orgs[id].mergedInto.None? then id
    else Follow(orgs, orgs[id].mergedInto.value, hops - 1)
  }

  /** What a row stands for when no pointer leads to another. */
  function Head(orgs: map<Id, Organisation>, id: Id): Id {
    if id in orgs then orgs[id].mergedInto.GetOr(id) else id
  }

  predicate IsLive(orgs: map<Id, Organisation>, id: Id) {
    id in orgs && orgs[id].mergedInto.None?
  }

  ghost predicate Flat(orgs: map<Id, Organisation>) {
    forall id :: id in orgs && orgs[id].mergedInto.Some? ==> IsLive(orgs, orgs[id].mergedInto.value)
  }

  lemma FollowIsHead(orgs: map<Id, Organisation>, id: Id)
    requires Flat(orgs)
    ensures Follow(orgs, id, 8) == Head(orgs, id)
  {
  }

  // ------------------------------------------------------------------ merging, as one change

  datatype MergeError = SameRow | UnknownRow | AlreadyMerged | OtherCountry | NumberConflict

  datatype MergeResult = Merged | Refused(error: MergeError)

  function Check(orgs: map<Id, Organisation>, keep: Id, absorbed: Id, allowConflict: bool, allowCountry: bool): MergeResult {
    if keep == absorbed then Refused(SameRow)
    else if keep !in orgs || absorbed !in orgs then Refused(UnknownRow)
    else
      var k, a := orgs[keep], orgs[absorbed];
      if k.mergedInto.Some? || a.mergedInto.Some? then Refused(AlreadyMerged)
      else if k.country != a.country && !allowCountry then Refused(OtherCountry)
      else if k.number.Some? && a.number.Some? && k.number != a.number && !allowConflict then Refused(NumberConflict)
      else Merged
  }

  /** The kept row takes what it lacks; number and VAT number stay within one country. */
  function HeadAfter(k: Organisation, a: Organisation): Organisation {
    var home := k.country == a.country;
    k.(number := if home then k.number.Or(a.number) else k.number,
       vat := if home then k.vat.Or(a.vat) else k.vat,
       pic := k.pic.Or(a.pic),
       defence := k.defence || a.defence)
  }

  /** The absorbed row keeps only what the kept row had already. */
  function AbsorbedAfter(keep: Id, k: Organisation, a: Organisation): Organisation {
    var home := k.country == a.country;
    a.(number := if home && k.number.None? then None else a.number,
       vat := if home && k.vat.None? then None else a.vat,
       pic := if k.pic.None? then None else a.pic,
       mergedInto := Some(keep))
  }

  function OrgsAfterMerge(orgs: map<Id, Organisation>, keep: Id, absorbed: Id): map<Id, Organisation>
    requires keep in orgs && absorbed in orgs
  {
    map id | id in orgs ::
      if id == keep then HeadAfter(orgs[keep], orgs[absorbed])
      else if id == absorbed then AbsorbedAfter(keep, orgs[keep], orgs[absorbed])
      else if orgs[id].mergedInto == Some(absorbed) then orgs[id].(mergedInto := Some(keep))
      else orgs[id]
  }

  /** An alias moved to `keep`, remembering where it was first. */
  function Moved(alias: Alias, keep: Id, absorbed: Id): Alias {
    if alias.organisation == absorbed
    then alias.(organisation := keep, previous := Some(alias.previous.GetOr(absorbed)))
    else alias
  }

  /** The absorbed row's awards on notices the kept row's class won already. */
  function WonTwice(orgs: map<Id, Organisation>, counted: set<(int, Id)>, keep: Id, absorbed: Id): set<(int, Id)> {
    set w | w in counted && w.1 == absorbed && WonByClass(orgs, counted, w.0, keep, absorbed)
  }

  /** A counted award of another row on the notice that is `keep` or was merged into it. */
  predicate WonByClass(orgs: map<Id, Organisation>, counted: set<(int, Id)>, notice: int, keep: Id, absorbed: Id) {
    exists o :: o in counted && o.0 == notice && o.1 != absorbed && o.1 in orgs
                && (o.1 == keep || orgs[o.1].mergedInto == Some(keep))
  }

  function AfterMerge(rows: Rows, keep: Id, absorbed: Id): Rows
    requires keep in rows.orgs && absorbed in rows.orgs
  {
    Rows(OrgsAfterMerge(rows.orgs, keep, absorbed),
         seq(|rows.aliases|, i requires 0 <= i < |rows.aliases| => Moved(rows.aliases[i], keep, absorbed)),
         map n | n in rows.buyers :: if rows.buyers[n] == absorbed then keep else rows.buyers[n],
         rows.counted - WonTwice(rows.orgs, rows.counted, keep, absorbed),
         rows.nextId)
  }

  // ------------------------------------------------------------------ resolving, as one change

  /** A buyer as a notice states it: its name normalised, its number normalised. */
  datatype Query = Query(name: string, country: string, source: Option<int>, number: Option<string>)

  datatype Resolution = NoBuyer | Buyer(id: Id) | NumberTaken

  predicate Names(alias: Alias, name: string, country: string) {
    alias.name == name && (alias.country == Some(country) || alias.country == None)
  }

  /** The alias of highest confidence that names the buyer, the oldest of several. */
  function BestAlias(aliases: seq<Alias>, name: string, country: string): (r: Option<nat>)
    ensures r.Some? ==> r.value < |aliases| && Names(aliases[r.value], name, country)
    ensures r.Some? ==> forall i :: 0 <= i < |aliases| && Names(aliases[i], name, country) ==>
                          aliases[i].confidence <= aliases[r.value].confidence
    ensures r.None? ==> forall i :: 0 <= i < |aliases| ==> !Names(aliases[i], name, country)
  {
    if aliases == [] then None
    else
      var n := |aliases| - 1;
      var before := BestAlias(aliases[..n], name, country);
      if !Names(aliases[n], name, country) then before
      else if before.Some? && aliases[before.value].confidence >= aliases[n].confidence then before
      else Some(n)
  }

  predicate SameKey(alias: Alias, q: Query) {
    alias.name == q.name && alias.country == Some(q.country) && alias.source == q.source
  }

  /** ON CONFLICT DO NOTHING on (name, country, source). */
  function WithAlias(aliases: seq<Alias>, q: Query, id: Id, confidence: nat): seq<Alias> {
    if exists i :: 0 <= i < |aliases| && SameKey(aliases[i], q) then aliases
    else aliases + [Alias(q.name, Some(q.country), q.source, id, None, confidence)]
  }

  ghost predicate HasKey(aliases: seq<Alias>, q: Query) {
    exists i :: 0 <= i < |aliases| && SameKey(aliases[i], q)
  }

  /** One name, country and source have one alias. */
  ghost predicate OneAliasAKey(aliases: seq<Alias>) {
    forall i, j :: 0 <= i < j < |aliases| ==> !Alike(aliases[i], aliases[j])
  }

  predicate Alike(x: Alias, y: Alias) {
    x.name == y.name && x.country == y.country && x.source == y.source
  }

  lemma WithAliasHasKey(aliases: seq<Alias>, q: Query, id: Id, confidence: nat)
    ensures var next := WithAlias(aliases, q, id, confidence);
            HasKey(next, q) && (OneAliasAKey(aliases) ==> OneAliasAKey(next))
  {
    var next := WithAlias(aliases, q, id, confidence);
    if !HasKey(aliases, q) {
      assert SameKey(next[|aliases|], q);
      forall i | 0 <= i < |aliases| ensures !Alike(aliases[i], next[|aliases|]) {
        assert !SameKey(aliases[i], q);
      }
    }
  }

  /** The holder of a registration number in a country, from `id` on. */
  function HolderFrom(orgs: map<Id, Organisation>, id: Id, next: Id, country: string, number: string): (r: Option<Id>)
    ensures r.Some? ==> id <= r.value < next && r.value in orgs
                        && orgs[r.value].country == country && orgs[r.value].number == Some(number)
    ensures r.None? ==> forall i :: id <= i < next && i in orgs ==>
                          orgs[i].country != country || orgs[i].number != Some(number)
    decreases next - id
  {
    if id >= next then None
    else if id in orgs && orgs[id].country == country && orgs[id].number == Some(number) then Some(id)
    else HolderFrom(orgs, id + 1, next, country, number)
  }

  /** The first live organisation of exactly this name in the country, from `id` on. */
  function NamedFrom(orgs: map<Id, Organisation>, id: Id, next: Id, country: string, name: string): (r: Option<Id>)
    ensures r.Some? ==> id <= r.value < next && IsLive(orgs, r.value)
                        && orgs[r.value].country == country && orgs[r.value].name == name
    ensures r.None? ==> forall i :: id <= i < next && IsLive(orgs, i) ==>
                          orgs[i].country != country || orgs[i].name != name
    decreases next - id
  {
    if id >= next then None
    else if IsLive(orgs, id) && orgs[id].country == country && orgs[id].name == name then Some(id)
    else NamedFrom(orgs, id + 1, next, country, name)
  }

  function NewRow(rows: Rows, q: Query, number: Option<string>): Rows {
    rows.(orgs := rows.orgs[rows.nextId := Organisation(q.name, q.country, number, None, None, None, false)],
          nextId := rows.nextId + 1)
  }

  /** `_attach_identifier`: give the organisation the stated number, or split off a namesake. */
  function Attach(rows: Rows, id: Id, q: Query, number: Option<string>): (Rows, Resolution) {
    if number.None? || id !in rows.orgs || rows.orgs[id].number == number then (rows, Buyer(id))
    else if rows.orgs[id].number.None? then
      if HolderFrom(rows.orgs, 0, rows.nextId, rows.orgs[id].country, number.value).Some? then (rows, NumberTaken)
      else (rows.(orgs := rows.orgs[id := rows.orgs[id].(number := number)]), Buyer(id))
    else (NewRow(rows, q, number), Buyer(rows.nextId))
  }

  /** The organisation the name alone stands for, and the rows with its alias recorded; a row is created
      when no organisation has the name. */
  function ByName(rows: Rows, q: Query, number: Option<string>): (Rows, Id, bool) {
    var best := BestAlias(rows.aliases, q.name, q.country);
    if best.Some? then (rows, Head(rows.orgs, rows.aliases[best.value].organisation), false)
    else
      var named := NamedFrom(rows.orgs, 0, rows.nextId, q.country, q.name);
      var id := named.GetOr(rows.nextId);
      var known := if named.Some? then rows else NewRow(rows, q, number);
      (known.(aliases := WithAlias(rows.aliases, q, id, CONF_EXACT_NAME)), id, named.None?)
  }

  function NameStages(rows: Rows, q: Query, number: Option<string>): (Rows, Resolution) {
    var (known, id, created) := ByName(rows, q, number);
    if created then (known, Buyer(id)) else Attach(known, id, q, number)
  }

  /** `_resolve_organisation`: the number first where its holder's name fits, then alias, then name. A
      number that another country's row holds already fails the whole request. */
  function Resolve(rows: Rows, q: Query): (Rows, Resolution) {
    if q.name == "" || q.country == "" then (rows, NoBuyer)
    else
      var holder := if q.number.None? then None else HolderFrom(rows.orgs, 0, rows.nextId, q.country, q.number.value);
      if holder.Some? && NamesCompatible(q.name, rows.orgs[holder.value].name) then
        var id := Head(rows.orgs, holder.value);
        (rows.(aliases := WithAlias(rows.aliases, q, id, CONF_IDENTIFIER)), Buyer(id))
      else
        var (next, found) := NameStages(rows, q, if holder.Some? then None else q.number);
        if found.NumberTaken? then (rows, NumberTaken) else (next, found)
  }

  // ------------------------------------------------------------------ what the tables keep

  ghost predicate Sound(rows: Rows) {
    && Flat(rows.orgs)
    && (forall id :: id in rows.orgs ==> id < rows.nextId)
    && (forall i :: 0 <= i < |rows.aliases| ==> AliasFollows(rows.orgs, rows.aliases[i]))
    && (forall n :: n in rows.buyers ==> IsLive(rows.orgs, rows.buyers[n]))
    && PicAtHead(rows.orgs)
    && NumbersUnique(rows.orgs)
    && OneAliasAKey(rows.aliases)
  }

  /** The organisation an alias was filed under when it was first recorded. */
  function FirstFiled(alias: Alias): Id {
    alias.previous.GetOr(alias.organisation)
  }

  ghost predicate AliasFollows(orgs: map<Id, Organisation>, alias: Alias) {
    && IsLive(orgs, alias.organisation)
    && FirstFiled(alias) in orgs
    && alias.organisation == Head(orgs, FirstFiled(alias))
  }

  ghost predicate PicAtHead(orgs: map<Id, Organisation>) {
    forall id :: id in orgs && orgs[id].pic.Some? && orgs[id].mergedInto.Some? ==> HasPic(orgs, orgs[id].mergedInto.value)
  }

  predicate HasPic(orgs: map<Id, Organisation>, id: Id) {
    id in orgs && orgs[id].pic.Some?
  }

  ghost predicate NumbersUnique(orgs: map<Id, Organisation>) {
    forall x, y :: x in orgs && y in orgs && SameNumber(orgs[x], orgs[y]) ==> x == y
  }

  predicate SameNumber(x: Organisation, y: Organisation) {
    x.number.Some? && x.number == y.number && x.country == y.country
  }

  function Pics(orgs: map<Id, Organisation>): set<string> {
    set id | id in orgs && orgs[id].pic.Some? :: orgs[id].pic.value
  }

  // ------------------------------------------------------------------ the tables

  class Registry {
    var orgs: map<Id, Organisation>
    var aliases: seq<Alias>
    var buyers: map<int, Id>
    var counted: set<(int, Id)>
    var nextId: Id

    constructor ()
      ensures State() == Rows(map[], [], map[], {}, 0)
    {
      orgs, aliases, buyers, counted, nextId := map[], [], map[], {}, 0;
    }

    function State(): Rows
      reads this
    {
      Rows(orgs, aliases, buyers, counted, nextId)
    }

    /** `_live`: follows `merged_into`, at most eight times. */
    method Live(id: Id) returns (head: Id)
      ensures head == Follow(orgs, id, 8)
    {
      head := id;
      for hop := 0 to 8
        invariant Follow(orgs, head, 8 - hop) == Follow(orgs, id, 8)
      {
        if head !in orgs || orgs[head].mergedInto.None? {
          return;
        }
        head := orgs[head].mergedInto.value;
      }
    }

    /** `carry_to_head`: the PIC, the VAT number, and the awards won twice. */
    method CarryToHead(keep: Id, absorbed: Id, k: Organisation, a: Organisation)
      requires keep in orgs && absorbed in orgs && keep != absorbed
      modifies this`orgs, this`counted
      ensures counted == old(counted) - WonTwice(old(orgs), old(counted), keep, absorbed)
      ensures var home := k.country == a.country;
              var pic, vat := a.pic.Some? && k.pic.None?, a.vat.Some? && k.vat.None? && home;
              && orgs.Keys == old(orgs).Keys
              && (forall id :: id in orgs && id != keep && id != absorbed ==> orgs[id] == old(orgs)[id])
              && orgs[keep] == old(orgs)[keep].(pic := if pic then a.pic else old(orgs)[keep].pic,
                                                vat := if vat then a.vat else old(orgs)[keep].vat)
              && orgs[absorbed] == old(orgs)[absorbed].(pic := if pic then None else old(orgs)[absorbed].pic,
                                                        vat := if vat then None else old(orgs)[absorbed].vat)
    {
      if a.pic.Some? && k.pic.None? {
        orgs := orgs[absorbed := orgs[absorbed].(pic := None)];
        orgs := orgs[keep := orgs[keep].(pic := a.pic)];
      }
      if a.vat.Some? && k.vat.None? && k.country == a.country {
        orgs := orgs[absorbed := orgs[absorbed].(vat := None)];
        orgs := orgs[keep := orgs[keep].(vat := a.vat)];
      }
      counted := counted - WonTwice(orgs, counted, keep, absorbed);
    }

    /** `repoint_merged`: nothing is merged into the old head any more, and what was stands for the new one. */
    method RepointMerged(oldHead: Id, newHead: Id)
      modifies this`orgs
      ensures orgs.Keys == old(orgs).Keys
      ensures oldHead != newHead ==> forall id :: id in orgs && orgs[id].mergedInto == Some(oldHead) ==> id == newHead
      ensures forall id :: id in orgs && id != newHead && old(orgs)[id].mergedInto == Some(oldHead) ==> Head(orgs, id) == newHead
      ensures forall id :: id in orgs && (id == newHead || old(orgs)[id].mergedInto != Some(oldHead)) ==>
                Head(orgs, id) == Head(old(orgs), id)
      ensures forall id :: id in orgs ==>
                orgs[id].(mergedInto := None) == old(orgs)[id].(mergedInto := None)
                && (orgs[id].mergedInto.Some? <==> old(orgs)[id].mergedInto.Some?)
    {
      orgs := map id | id in orgs ::
        if orgs[id].mergedInto == Some(oldHead) && id != newHead then orgs[id].(mergedInto := Some(newHead)) else orgs[id];
    }

    /** The registration number, within one country, and the defence flag. */
    method CarryNumber(keep: Id, absorbed: Id, k: Organisation, a: Organisation)
      requires keep in orgs && absorbed in orgs && keep != absorbed && k == orgs[keep] && a == orgs[absorbed]
      modifies this`orgs
      ensures orgs.Keys == old(orgs).Keys
      ensures forall id :: id in orgs && id != keep && id != absorbed ==> orgs[id] == old(orgs)[id]
      ensures orgs[keep] == k.(number := HeadAfter(k, a).number, defence := k.defence || a.defence)
      ensures orgs[absorbed] == a.(number := AbsorbedAfter(keep, k, a).number)
    {
      if a.number.Some? && k.number.None? && k.country == a.country {
        orgs := orgs[absorbed := orgs[absorbed].(number := None)];
        orgs := orgs[keep := orgs[keep].(number := a.number)];
      }
      if a.defence && !k.defence {
        orgs := orgs[keep := orgs[keep].(defence := true)];
      }
    }

    /** What the kept row takes from the absorbed one. */
    method Carry(keep: Id, absorbed: Id, k: Organisation, a: Organisation)
      requires keep in orgs && absorbed in orgs && keep != absorbed && k == orgs[keep] && a == orgs[absorbed]
      modifies this`orgs, this`counted
      ensures orgs == old(orgs)[keep := HeadAfter(k, a)][absorbed := AbsorbedAfter(keep, k, a).(mergedInto := a.mergedInto)]
      ensures counted == old(counted) - WonTwice(old(orgs), old(counted), keep, absorbed)
    {
      CarryNumber(keep, absorbed, k, a);
      CarryToHead(keep, absorbed, k, a);
    }

    /** The organisation rows of a merge, in the order they are written. */
    method AbsorbRow(keep: Id, absorbed: Id, k: Organisation, a: Organisation)
      requires keep in orgs && absorbed in orgs && keep != absorbed && k == orgs[keep] && a == orgs[absorbed]
      requires k.mergedInto.None? && a.mergedInto.None?
      modifies this`orgs, this`counted
      ensures orgs == OrgsAfterMerge(old(orgs), keep, absorbed)
      ensures counted == old(counted) - WonTwice(old(orgs), old(counted), keep, absorbed)
    {
      Carry(keep, absorbed, k, a);
      ghost var carried := orgs;
      RepointMerged(absorbed, keep);
      orgs := orgs[absorbed := orgs[absorbed].(mergedInto := Some(keep))];
    }

    /** `merge_organisations`: make `absorbed` an alias of `keep`. */
    method Merge(keep: Id, absorbed: Id, allowConflict: bool, allowCountry: bool) returns (result: MergeResult)
      modifies this
      ensures result == Check(old(orgs), keep, absorbed, allowConflict, allowCountry)
      ensures State() == if result.Merged? then AfterMerge(old(State()), keep, absorbed) else old(State())
    {
      if keep == absorbed {
        return Refused(SameRow);
      }
      if keep !in orgs || absorbed !in orgs {
        return Refused(UnknownRow);
      }
      var k, a := orgs[keep], orgs[absorbed];
      if k.mergedInto.Some? || a.mergedInto.Some? {
        return Refused(AlreadyMerged);
      }
      if k.country != a.country && !allowCountry {
        return Refused(OtherCountry);
      }
      if k.number.Some? && a.number.Some? && k.number != a.number && !allowConflict {
        return Refused(NumberConflict);
      }
      var held := aliases;
      aliases := seq(|held|, i requires 0 <= i < |held| => Moved(held[i], keep, absorbed));
      buyers := map n | n in buyers :: if buyers[n] == absorbed then keep else buyers[n];
      AbsorbRow(keep, absorbed, k, a);
      return Merged;
    }

    /** `_record_alias`: afterwards one alias has the key, the one held before if there was one. */
    method RecordAlias(q: Query, id: Id, confidence: nat)
      modifies this`aliases
      ensures old(aliases) <= aliases && HasKey(aliases, q)
      ensures HasKey(old(aliases), q) ==> aliases == old(aliases)
      ensures OneAliasAKey(old(aliases)) ==> OneAliasAKey(aliases)
      ensures aliases == WithAlias(old(aliases), q, id, confidence)
    {
      WithAliasHasKey(aliases, q, id, confidence);
      if !exists i :: 0 <= i < |aliases| && SameKey(aliases[i], q) {
        aliases := aliases + [Alias(q.name, Some(q.country), q.source, id, None, confidence)];
      }
    }

    method NewOrganisation(q: Query, number: Option<string>) returns (id: Id)
      modifies this`orgs, this`nextId
      ensures State() == NewRow(old(State()), q, number) && id == old(nextId)
    {
      id := nextId;
      orgs := orgs[id := Organisation(q.name, q.country, number, None, None, None, false)];
      nextId := nextId + 1;
    }

    method AttachIdentifier(id: Id, q: Query, number: Option<string>) returns (r: Resolution)
      modifies this`orgs, this`nextId
      ensures (State(), r) == Attach(old(State()), id, q, number)
    {
      if number.None? || id !in orgs || orgs[id].number == number {
        return Buyer(id);
      }
      if orgs[id].number.None? {
        if HolderFrom(orgs, 0, nextId, orgs[id].country, number.value).Some? {
          return NumberTaken;
        }
        orgs := orgs[id := orgs[id].(number := number)];
        return Buyer(id);
      }
      var other := NewOrganisation(q, number);
      return Buyer(other);
    }

    /** The cascade, and the rollback of its transaction when the number is taken. */
    method ResolveOrganisation(q: Query) returns (r: Resolution)
      requires Flat(orgs)
      modifies this
      ensures (State(), r) == Resolve(old(State()), q)
    {
      var before := State();
      r := RunCascade(q);
      if r.NumberTaken? {
        orgs, aliases, buyers, counted, nextId := before.orgs, before.aliases, before.buyers, before.counted, before.nextId;
      }
    }

    /** `_resolve_organisation`. */
    method RunCascade(q: Query) returns (r: Resolution)
      requires Flat(orgs)
      modifies this
      ensures r == Resolve(old(State()), q).1
      ensures !r.NumberTaken? ==> State() == Resolve(old(State()), q).0
    {
      if q.name == "" || q.country == "" {
        return NoBuyer;
      }
      var number := q.number;
      if q.number.Some? {
        var holder := HolderFrom(orgs, 0, nextId, q.country, q.number.value);
        if holder.Some? {
          if NamesCompatible(q.name, orgs[holder.value].name) {
            FollowIsHead(orgs, holder.value);
            var head := Live(holder.value);
            RecordAlias(q, head, CONF_IDENTIFIER);
            return Buyer(head);
          }
          number := None;
        }
      }
      r := RunNameStages(q, number);
    }

    /** The alias of the name, then the name itself, then a new row. */
    method RunNameStages(q: Query, number: Option<string>) returns (r: Resolution)
      requires Flat(orgs)
      modifies this
      ensures r == NameStages(old(State()), q, number).1
      ensures !r.NumberTaken? ==> State() == NameStages(old(State()), q, number).0
    {
      var best := BestAlias(aliases, q.name, q.country);
      if best.Some? {
        FollowIsHead(orgs, aliases[best.value].organisation);
        var head := Live(aliases[best.value].organisation);
        r := AttachIdentifier(head, q, number);
        return;
      }
      var named := NamedFrom(orgs, 0, nextId, q.country, q.name);
      var id;
      if named.Some? {
        id := named.value;
      } else {
        id := NewOrganisation(q, number);
      }
      RecordAlias(q, id, CONF_EXACT_NAME);
      if named.None? {
        return Buyer(id);
      }
      r := AttachIdentifier(id, q, number);
    }
  }
}
