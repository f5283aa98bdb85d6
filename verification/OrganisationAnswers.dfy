/**
  What a merge writes and what a resolution answers, said of the rows: which words a name has, which columns and awards
  move, and which organisation a name and a number lead to (backend/dgate/db.py).
 */
module OrganisationAnswers {
  import opened Wrappers
  import opened Organisations
  import opened OrganisationRuns

  // ------------------------------------------------------------------ words

  predicate Parts(c: char) {
    c == ' ' || c == '-'
  }

  /** A stretch of the name without space or hyphen, between two of them or the name's ends. */
  predicate IsWord(name: string, i: nat, j: nat) {
    && i <= j <= |name|
    && (forall k :: i <= k < j ==> !Parts(name[k]))
    && (i == 0 || Parts(name[i - 1])) && (j == |name| || Parts(name[j]))
  }

  ghost predicate HasWord(name: string, w: string) {
    exists i: nat, j: nat :: IsWord(name, i, j) && name[i..j] == w
  }

  predicate Whole(word: string) {
    forall k :: 0 <= k < |word| ==> !Parts(word[k])
  }

  lemma OnlyWord(word: string, w: string)
    requires Whole(word)
    ensures HasWord(word, w) <==> w == word
  {
    assert IsWord(word, 0, |word|) && word[0..|word|] == word;
    if HasWord(word, w) {
      var i: nat, j: nat :| IsWord(word, i, j) && word[i..j] == w;
      assert i == 0 && j == |word|;
    }
  }

  lemma StretchMoves(before: string, rest: string, i: nat, j: nat)
    requires i <= j <= |rest| && before != [] && Parts(before[|before| - 1])
    ensures var n := |before|;
            (before + rest)[n + i..n + j] == rest[i..j] && (IsWord(before + rest, n + i, n + j) <==> IsWord(rest, i, j))
  {
    var name, n := before + rest, |before|;
    assert name[n + i..n + j] == rest[i..j];
    assert forall k :: i <= k < j ==> name[n + k] == rest[k];
    if IsWord(name, n + i, n + j) {
      forall k | i <= k < j ensures !Parts(rest[k]) {
        assert !Parts(name[n + k]);
      }
    }
  }

  lemma FirstStretch(word: string, c: char, rest: string, i: nat, j: nat)
    requires Parts(c) && Whole(word) && i <= |word| && IsWord(word + [c] + rest, i, j)
    ensures i == 0 && j == |word| && (word + [c] + rest)[i..j] == word
  {
    var name := word + [c] + rest;
    assert name[|word|] == c;
    assert forall k :: 0 <= k < |word| ==> name[k] == word[k];
  }

  lemma WordAfterPart(word: string, c: char, rest: string, w: string)
    requires Parts(c) && Whole(word)
    ensures HasWord(word + [c] + rest, w) <==> w == word || HasWord(rest, w)
  {
    var before, n := word + [c], |word| + 1;
    var name := before + rest;
    if w == word {
      FirstIsWord(word, c, rest);
    }
    if HasWord(rest, w) {
      var i: nat, j: nat :| IsWord(rest, i, j) && rest[i..j] == w;
      StretchMoves(before, rest, i, j);
      assert HasWord(name, w);
    }
    if HasWord(name, w) {
      var i: nat, j: nat :| IsWord(name, i, j) && name[i..j] == w;
      if i <= |word| {
        FirstStretch(word, c, rest, i, j);
      } else {
        StretchMoves(before, rest, i - n, j - n);
        assert HasWord(rest, w);
      }
    }
  }

  lemma FirstIsWord(word: string, c: char, rest: string)
    requires Parts(c) && Whole(word)
    ensures HasWord(word + [c] + rest, word)
  {
    var name := word + [c] + rest;
    assert IsWord(name, 0, |word|) && name[0..|word|] == word;
  }

  lemma {:induction false} WordsFrom(rest: string, word: string, w: string)
    requires Whole(word)
    ensures w in Words(rest, word) <==> |w| >= 4 && HasWord(word + rest, w)
    decreases |rest|
  {
    if rest == [] {
      assert word + rest == word;
      OnlyWord(word, w);
    } else {
      assert word + [rest[0]] + rest[1..] == word + rest;
      if Parts(rest[0]) {
        WordsFrom(rest[1..], "", w);
        WordAfterPart(word, rest[0], rest[1..], w);
        assert "" + rest[1..] == rest[1..];
      } else {
        WordsFrom(rest[1..], word + [rest[0]], w);
      }
    }
  }

  /** A name's words are its stretches of four letters or more between spaces, hyphens and its ends. */
  lemma WordsExact(name: string, w: string)
    ensures w in Words(name) <==> |w| >= 4 && HasWord(name, w)
  {
    WordsFrom(name, "", w);
    assert "" + name == name;
  }

  // ------------------------------------------------------------------ what a merge writes

  /** Of a number that the kept row lacks, the absorbed row's goes over; one it has leaves both as they are. */
  predicate GoesOver(kept: Option<string>, absorbed: Option<string>, keptNow: Option<string>, absorbedNow: Option<string>) {
    if kept.Some? then keptNow == kept && absorbedNow == absorbed
    else keptNow == absorbed && absorbedNow.None?
  }

  /** What each of the two rows states after the merge, column by column, and that every other row is left but for where
      it points. */
  lemma MergedRowsExact(orgs: map<Id, Organisation>, keep: Id, absorbed: Id)
    requires Flat(orgs) && Mergeable(orgs, keep, absorbed)
    ensures var next := OrgsAfterMerge(orgs, keep, absorbed);
            var k, a, kNow, aNow := orgs[keep], orgs[absorbed], next[keep], next[absorbed];
            && kNow.name == k.name && kNow.country == k.country && kNow.mergedInto.None?
            && aNow.name == a.name && aNow.country == a.country && aNow.mergedInto == Some(keep)
            && GoesOver(k.pic, a.pic, kNow.pic, aNow.pic)
            && (if k.country == a.country
                then GoesOver(k.number, a.number, kNow.number, aNow.number) && GoesOver(k.vat, a.vat, kNow.vat, aNow.vat)
                else kNow.number == k.number && aNow.number == a.number && kNow.vat == k.vat && aNow.vat == a.vat)
            && (kNow.defence <==> k.defence || a.defence) && aNow.defence == a.defence
            && (forall id :: id in orgs && id != keep && id != absorbed ==>
                  next[id] == orgs[id].(mergedInto := if orgs[id].mergedInto == Some(absorbed) then Some(keep) else orgs[id].mergedInto))
  {
  }

  /** An award stops counting exactly when it is the absorbed row's own and another row of the kept organisation has a
      counted award on the notice. */
  lemma CountedExact(rows: Rows, keep: Id, absorbed: Id, w: (int, Id))
    requires Flat(rows.orgs) && Mergeable(rows.orgs, keep, absorbed) && forall v :: v in rows.counted ==> v.1 in rows.orgs
    ensures w in AfterMerge(rows, keep, absorbed).counted
            <==> w in rows.counted
                 && !(w.1 == absorbed && exists id :: id in rows.orgs && Head(rows.orgs, id) == keep && (w.0, id) in rows.counted)
  {
    if id :| id in rows.orgs && Head(rows.orgs, id) == keep && (w.0, id) in rows.counted {
      var o := (w.0, id);
      assert o in rows.counted && o.0 == w.0 && o.1 != absorbed;
    }
  }

  /** Aliases and notices of the absorbed row go to the kept one, and no others move. */
  lemma FollowersExact(rows: Rows, keep: Id, absorbed: Id)
    requires Mergeable(rows.orgs, keep, absorbed)
    ensures var next := AfterMerge(rows, keep, absorbed);
            && |next.aliases| == |rows.aliases| && next.nextId == rows.nextId && next.buyers.Keys == rows.buyers.Keys
            && (forall i :: 0 <= i < |rows.aliases| ==>
                  var was, now := rows.aliases[i], next.aliases[i];
                  if was.organisation == absorbed
                  then now == was.(organisation := keep, previous := if was.previous.Some? then was.previous else Some(absorbed))
                  else now == was)
            && (forall n :: n in rows.buyers ==> next.buyers[n] == if rows.buyers[n] == absorbed then keep else rows.buyers[n])
  {
  }

  // ------------------------------------------------------------------ where a name and a number lead

  /** The organisation of the country that the number was stated by. */
  predicate Holds(rows: Rows, q: Query, id: Id) {
    && q.number.Some? && id in rows.orgs
    && rows.orgs[id].country == q.country && rows.orgs[id].number.Some? && rows.orgs[id].number.value == q.number.value
  }

  /** Of the aliases of the name in the country, or of the name in no country, one of the highest confidence, and the
      first of those. */
  ghost predicate Leads(rows: Rows, q: Query, i: nat) {
    && i < |rows.aliases| && IsOf(rows.aliases[i], q)
    && (forall j :: 0 <= j < |rows.aliases| && IsOf(rows.aliases[j], q) ==> rows.aliases[j].confidence <= rows.aliases[i].confidence)
    && (forall j :: 0 <= j < i && IsOf(rows.aliases[j], q) ==> rows.aliases[j].confidence < rows.aliases[i].confidence)
  }

  predicate IsOf(alias: Alias, q: Query) {
    alias.name == q.name && (alias.country.None? || alias.country.value == q.country)
  }

  /** The first live organisation of this very name in the country. */
  predicate IsNamesake(rows: Rows, q: Query, id: Id) {
    && id in rows.orgs && rows.orgs[id].mergedInto.None? && rows.orgs[id].country == q.country && rows.orgs[id].name == q.name
    && (forall x :: x in rows.orgs && x < id ==>
          rows.orgs[x].mergedInto.Some? || rows.orgs[x].country != q.country || rows.orgs[x].name != q.name)
  }

  /** The way the name is written, filed under the organisation unless it is filed already. */
  ghost predicate Filed(before: seq<Alias>, after: seq<Alias>, q: Query, id: Id, confidence: nat) {
    if exists i :: 0 <= i < |before| && before[i].name == q.name && before[i].country == Some(q.country) && before[i].source == q.source
    then after == before
    else after == before + [Alias(q.name, Some(q.country), q.source, id, None, confidence)]
  }

  lemma FiledExact(aliases: seq<Alias>, q: Query, id: Id, confidence: nat)
    ensures Filed(aliases, WithAlias(aliases, q, id, confidence), q, id, confidence)
  {
    if i :| 0 <= i < |aliases| && aliases[i].name == q.name && aliases[i].country == Some(q.country) && aliases[i].source == q.source {
      assert SameKey(aliases[i], q);
    }
  }

  lemma HolderExact(rows: Rows, q: Query)
    requires Sound(rows)
    ensures HolderOf(rows, q).None? <==> forall id: Id :: !Holds(rows, q, id)
    ensures HolderOf(rows, q).Some? ==> Holds(rows, q, HolderOf(rows, q).value)
    ensures forall id: Id :: Holds(rows, q, id) ==> HolderOf(rows, q) == Some(id)
  {
    forall id: Id | Holds(rows, q, id) ensures HolderOf(rows, q) == Some(id) {
      OnlyHolder(rows.orgs, rows.nextId, id, q.number.value);
    }
  }

  /** No name or no country: no buyer, and nothing is written. */
  lemma NamelessExact(rows: Rows, q: Query)
    ensures Resolve(rows, q).1.NoBuyer? <==> q.name == "" || q.country == ""
    ensures Resolve(rows, q).1.NoBuyer? || Resolve(rows, q).1.NumberTaken? ==> Resolve(rows, q).0 == rows
  {
  }

  /** A number whose holder's name is compatible decides: the answer is who the holder stands for. */
  lemma TrustedNumberExact(rows: Rows, q: Query, holder: Id)
    requires Sound(rows) && q.name != "" && q.country != "" && Holds(rows, q, holder) && NamesCompatible(q.name, rows.orgs[holder].name)
    ensures var (next, found) := Resolve(rows, q);
            && found == Buyer(if rows.orgs[holder].mergedInto.Some? then rows.orgs[holder].mergedInto.value else holder)
            && next == rows.(aliases := next.aliases) && Filed(rows.aliases, next.aliases, q, found.id, 97)
  {
    HolderExact(rows, q);
    FiledExact(rows.aliases, q, Head(rows.orgs, holder), 97);
  }

  /** The number that the name stages go by: the one stated, unless another body of the country holds it. */
  predicate Untrusted(rows: Rows, q: Query, number: Option<string>) {
    if exists id :: id in rows.orgs && Holds(rows, q, id) then
      number.None? && forall id :: id in rows.orgs && Holds(rows, q, id) ==> !NamesCompatible(q.name, rows.orgs[id].name)
    else number == q.number
  }

  lemma StagesExact(rows: Rows, q: Query, number: Option<string>)
    requires Sound(rows) && q.name != "" && q.country != "" && Untrusted(rows, q, number)
    ensures var (next, found) := NameStages(rows, q, number);
            Resolve(rows, q) == if found.NumberTaken? then (rows, NumberTaken) else (next, found)
  {
    HolderExact(rows, q);
  }

  /** What becomes of the number where the name leads to `id`: nothing, or it is given to the row, is refused because
      another row of the row's country has it, or makes a row of its own. */
  ghost predicate Attached(before: Rows, after: Rows, id: Id, q: Query, number: Option<string>, found: Resolution)
    requires id in before.orgs
  {
    var held := before.orgs[id].number;
    if number.None? || held == number then found == Buyer(id) && after == before
    else if held.None? then
      if exists x :: x in before.orgs && before.orgs[x].country == before.orgs[id].country && before.orgs[x].number == number
      then found == NumberTaken
      else found == Buyer(id) && after == before.(orgs := before.orgs[id := before.orgs[id].(number := number)])
    else
      && found == Buyer(before.nextId)
      && after == before.(nextId := before.nextId + 1,
                          orgs := before.orgs[before.nextId := Organisation(q.name, q.country, number, None, None, None, false)])
  }

  lemma AttachedExact(rows: Rows, id: Id, q: Query, number: Option<string>)
    requires id in rows.orgs && forall x :: x in rows.orgs ==> x < rows.nextId
    ensures var (next, found) := Attach(rows, id, q, number);
            Attached(rows, next, id, q, number, found)
  {
  }

  /** A name that is filed leads to who its alias's organisation stands for. */
  lemma FiledNameExact(rows: Rows, q: Query, number: Option<string>, i: nat)
    requires Sound(rows) && Leads(rows, q, i)
    ensures var (next, found) := NameStages(rows, q, number);
            var id := rows.aliases[i].organisation;
            id in rows.orgs && Attached(rows, next, id, q, number, found)
  {
    assert AliasFollows(rows.orgs, rows.aliases[i]);
    BestIsFirst(rows.aliases, q);
    var best := BestAlias(rows.aliases, q.name, q.country);
    assert best == Some(i);
    AttachedExact(rows, rows.aliases[i].organisation, q, number);
  }

  lemma {:induction false} BestIsFirst(aliases: seq<Alias>, q: Query)
    ensures var best := BestAlias(aliases, q.name, q.country);
            && (best.Some? ==> IsOf(aliases[best.value], q)
                               && forall j :: 0 <= j < best.value && IsOf(aliases[j], q) ==> aliases[j].confidence < aliases[best.value].confidence)
            && (best.None? ==> forall j :: 0 <= j < |aliases| ==> !IsOf(aliases[j], q))
  {
    if aliases != [] {
      BestIsFirst(aliases[..|aliases| - 1], q);
    }
  }

  /** A name that is not filed leads to its first namesake, and is filed. */
  lemma NamesakeExact(rows: Rows, q: Query, number: Option<string>, id: Id)
    requires Sound(rows) && (forall i :: 0 <= i < |rows.aliases| ==> !IsOf(rows.aliases[i], q)) && IsNamesake(rows, q, id)
    ensures var (next, found) := NameStages(rows, q, number);
            exists known: Rows :: known == rows.(aliases := known.aliases) && Filed(rows.aliases, known.aliases, q, id, 95)
                            && Attached(known, next, id, q, number, found)
  {
    BestIsFirst(rows.aliases, q);
    NamedIsFirst(rows.orgs, 0, rows.nextId, q.country, q.name, id);
    FiledExact(rows.aliases, q, id, 95);
    var known := rows.(aliases := WithAlias(rows.aliases, q, id, 95));
    AttachedExact(known, id, q, number);
  }

  lemma {:induction false} NamedIsFirst(orgs: map<Id, Organisation>, from: Id, next: Id, country: string, name: string, id: Id)
    requires from <= id < next && IsLive(orgs, id) && orgs[id].country == country && orgs[id].name == name
    requires forall x :: from <= x < id && IsLive(orgs, x) ==> orgs[x].country != country || orgs[x].name != name
    ensures NamedFrom(orgs, from, next, country, name) == Some(id)
    decreases id - from
  {
    if from < id {
      NamedIsFirst(orgs, from + 1, next, country, name, id);
    }
  }

  /** A name that nothing is known by makes a new live row, of the name, the country and the number, and is filed. */
  lemma NewNameExact(rows: Rows, q: Query, number: Option<string>)
    requires Sound(rows) && (forall i :: 0 <= i < |rows.aliases| ==> !IsOf(rows.aliases[i], q))
    requires forall id: Id :: !IsNamesake(rows, q, id)
    ensures var (next, found) := NameStages(rows, q, number);
            && found == Buyer(rows.nextId) && next.nextId == rows.nextId + 1
            && next.orgs == rows.orgs[rows.nextId := Organisation(q.name, q.country, number, None, None, None, false)]
            && Filed(rows.aliases, next.aliases, q, rows.nextId, 95) && next.buyers == rows.buyers && next.counted == rows.counted
  {
    BestIsFirst(rows.aliases, q);
    var named := NamedFrom(rows.orgs, 0, rows.nextId, q.country, q.name);
    if named.Some? {
      FirstNamesake(rows, q, 0, named.value);
    }
    FiledExact(rows.aliases, q, rows.nextId, 95);
  }

  lemma {:induction false} FirstNamesake(rows: Rows, q: Query, from: Id, id: Id)
    requires NamedFrom(rows.orgs, from, rows.nextId, q.country, q.name) == Some(id)
    requires forall x :: x in rows.orgs && x < from ==>
               rows.orgs[x].mergedInto.Some? || rows.orgs[x].country != q.country || rows.orgs[x].name != q.name
    ensures IsNamesake(rows, q, id)
    decreases rows.nextId - from
  {
    if from < id {
      FirstNamesake(rows, q, from + 1, id);
    }
  }

  /** A notice's buyer is who it was resolved to, and the winner's award counts for who that was; nothing is noted of a
      resolution that answers nobody. */
  lemma AnswerIsNoted(rows: Rows, notice: int, q: Query)
    ensures var (next, found) := Resolve(rows, q);
            && After(rows, ResolveBuyer(notice, q)) == (if found.Buyer? then next.(buyers := next.buyers[notice := found.id]) else next)
            && After(rows, ResolveWinner(notice, q)) == (if found.Buyer? then next.(counted := next.counted + {(notice, found.id)}) else next)
            && next.buyers == rows.buyers && next.counted == rows.counted
  {
    ResolveNotesNothing(rows, q);
  }

  lemma ResolveNotesNothing(rows: Rows, q: Query)
    ensures Resolve(rows, q).0.buyers == rows.buyers && Resolve(rows, q).0.counted == rows.counted
  {
    StagesNoteNothing(rows, q, q.number);
    StagesNoteNothing(rows, q, None);
  }

  lemma StagesNoteNothing(rows: Rows, q: Query, number: Option<string>)
    ensures NameStages(rows, q, number).0.buyers == rows.buyers && NameStages(rows, q, number).0.counted == rows.counted
  {
    var (known, id, _) := ByName(rows, q, number);
    assert known.buyers == rows.buyers && known.counted == rows.counted;
    assert Attach(known, id, q, number).0.buyers == known.buyers && Attach(known, id, q, number).0.counted == known.counted;
  }
}
