/**
  What holds of billing over every run of checkouts and events: whose subscription is replaced and when,
  where rows come from, that replays change nothing, that delivery order does not matter, and exactly
  when the founding cap holds.
 */
module BillingRuns {
  import opened Wrappers
  import opened Billing

  // ------------------------------------------------------------------ runs

  datatype Action = Deliver(event: Event) | Open(request: Request)

  datatype Step = Step(action: Action, now: Time)

  ghost function After(books: Books, prices: seq<Price>, s: Step): Books {
    match s.action
    case Deliver(e) => Delivered(books, prices, e, s.now).0
    case Open(r) => AfterRequest(books, prices, r, s.now).0
  }

  ghost function Run(books: Books, prices: seq<Price>, steps: seq<Step>): Books
    decreases |steps|
  {
    if steps == [] then books else Run(After(books, prices, steps[0]), prices, steps[1..])
  }

  lemma {:induction false} RunThenOne(books: Books, prices: seq<Price>, steps: seq<Step>, last: Step)
    ensures Run(books, prices, steps + [last]) == After(Run(books, prices, steps), prices, last)
    decreases |steps|
  {
    if steps == [] {
      assert [] + [last] == [last] && [last][1..] == [];
    } else {
      assert (steps + [last])[1..] == steps[1..] + [last];
      RunThenOne(After(books, prices, steps[0]), prices, steps[1..], last);
    }
  }

  /** The clock does not go back. */
  ghost predicate Clocked(from: Time, steps: seq<Step>) {
    && (forall i :: 0 <= i < |steps| ==> from <= steps[i].now)
    && (forall i, j :: 0 <= i < j < |steps| ==> steps[i].now <= steps[j].now)
  }

  // ------------------------------------------------------------------ rows, ids and where they come from

  /** No two accounts share a subscription id, and every row belongs to an account that opened a checkout. */
  ghost predicate Sound(books: Books) {
    && IdsUnique(books.subs)
    && (forall a :: a in books.subs ==> OpenedOne(books.checkouts, a))
    && (forall r :: r in books.checkouts ==> r < books.nextRef)
  }

  ghost predicate OpenedOne(checkouts: map<Ref, Checkout>, a: Account) {
    exists r :: r in checkouts && checkouts[r].account == a
  }

  /** An event writes the row of one account at most, one that already has a row or opened a checkout, and
      takes a held subscription id away only when the held subscription is over. */
  lemma AskedIsOwn(books: Books, prices: seq<Price>, e: Event, now: Time)
    requires Sound(books)
    ensures var (change, ref) := Asked(books, prices, e, now);
            && (ref.Some? ==> ref.value in books.checkouts)
            && (change.Write? ==>
                  && OpenedOne(books.checkouts, change.account)
                  && (change.account in books.subs && books.subs[change.account].id.Some? ==>
                        var held := books.subs[change.account];
                        && change.row.id.Some?
                        && (change.row.id != held.id ==> Over(Some(held.status), held.periodEnd, now))))
  {
  }

  /** The row an account held before a step, if its subscription id went, was over by then. */
  ghost predicate ReplacedOnlyWhenOver(before: map<Account, Subscription>, after: map<Account, Subscription>, now: Time) {
    forall a :: a in before ==>
      && a in after
      && (before[a].id.Some? && after[a].id != before[a].id ==>
            after[a].id.Some? && Over(Some(before[a].status), before[a].periodEnd, now))
  }

  lemma OpenedStays(books: Books, later: map<Ref, Checkout>)
    requires forall a :: a in books.subs ==> OpenedOne(books.checkouts, a)
    requires forall r :: r in books.checkouts ==> r in later && later[r].account == books.checkouts[r].account
    ensures forall a :: OpenedOne(books.checkouts, a) ==> OpenedOne(later, a)
  {
    forall a | OpenedOne(books.checkouts, a) ensures OpenedOne(later, a) {
      var r :| r in books.checkouts && books.checkouts[r].account == a;
      assert later[r].account == a;
    }
  }

  /** A row is written for an account whose id is not taken, and no checkout goes. */
  lemma DeliveredMeans(books: Books, prices: seq<Price>, e: Event, now: Time)
    requires Sound(books)
    ensures var next, (change, ref) := Delivered(books, prices, e, now).0, Asked(books, prices, e, now);
            && next.nextRef == books.nextRef && next.checkouts.Keys == books.checkouts.Keys
            && (forall r :: r in books.checkouts ==> next.checkouts[r].account == books.checkouts[r].account)
            && (next.subs == books.subs
                || (change.Write? && !Taken(books.subs, change.account, change.row.id)
                    && next.subs == books.subs[change.account := change.row]))
  {
    AskedIsOwn(books, prices, e, now);
  }

  lemma DeliveryKeeps(books: Books, prices: seq<Price>, e: Event, now: Time)
    requires Sound(books)
    ensures Sound(Delivered(books, prices, e, now).0)
    ensures ReplacedOnlyWhenOver(books.subs, Delivered(books, prices, e, now).0.subs, now)
  {
    AskedIsOwn(books, prices, e, now);
    DeliveredMeans(books, prices, e, now);
    OpenedStays(books, Delivered(books, prices, e, now).0.checkouts);
  }

  lemma StepKeeps(books: Books, prices: seq<Price>, s: Step)
    requires Sound(books)
    ensures Sound(After(books, prices, s))
    ensures ReplacedOnlyWhenOver(books.subs, After(books, prices, s).subs, s.now)
  {
    match s.action
    case Deliver(e) => DeliveryKeeps(books, prices, e, s.now);
    case Open(r) => OpenedStays(books, After(books, prices, s).checkouts);
  }

  /** Over every run rows stay, every one of them belongs to an account whose checkout was opened here, and
      no two accounts share a subscription. */
  lemma {:induction false} RunKeeps(books: Books, prices: seq<Price>, steps: seq<Step>)
    requires Sound(books)
    ensures Sound(Run(books, prices, steps))
    ensures books.subs.Keys <= Run(books, prices, steps).subs.Keys
    decreases |steps|
  {
    if steps != [] {
      StepKeeps(books, prices, steps[0]);
      RunKeeps(After(books, prices, steps[0]), prices, steps[1..]);
    }
  }

  /** Over every run, an account whose subscription id changed held, at some step, a subscription that was
      over at that moment, under the id it started with. */
  lemma {:induction false} IdReplacedOnlyWhenOver(books: Books, prices: seq<Price>, steps: seq<Step>, a: Account)
    requires Sound(books) && a in books.subs && books.subs[a].id.Some?
    ensures a in Run(books, prices, steps).subs
    ensures Run(books, prices, steps).subs[a].id != books.subs[a].id ==>
              exists i :: 0 <= i < |steps| && OverAt(books, prices, steps, i, a, books.subs[a].id)
    decreases |steps|
  {
    RunKeeps(books, prices, steps);
    if steps != [] {
      StepKeeps(books, prices, steps[0]);
      var next := After(books, prices, steps[0]);
      if next.subs[a].id != books.subs[a].id {
        assert OverAt(books, prices, steps, 0, a, books.subs[a].id);
      } else {
        IdReplacedOnlyWhenOver(next, prices, steps[1..], a);
        if Run(books, prices, steps).subs[a].id != books.subs[a].id {
          var i :| 0 <= i < |steps[1..]| && OverAt(next, prices, steps[1..], i, a, books.subs[a].id);
          assert steps[1..][..i] == steps[..i + 1][1..];
          assert OverAt(books, prices, steps, i + 1, a, books.subs[a].id);
        }
      }
    }
  }

  /** When step `i` is taken, the account holds this subscription and it is over. */
  ghost predicate OverAt(books: Books, prices: seq<Price>, steps: seq<Step>, i: nat, a: Account, id: Option<string>)
    requires i < |steps|
  {
    var subs := Run(books, prices, steps[..i]).subs;
    a in subs && subs[a].id == id && Over(Some(subs[a].status), subs[a].periodEnd, steps[i].now)
  }

  // ------------------------------------------------------------------ replays

  /** Whether a step is the first time this event is taken up: not refused by its age, not a duplicate. */
  ghost predicate TakesUp(books: Books, prices: seq<Price>, s: Step, id: string) {
    s.action.Deliver? && s.action.event.id == id
    && var outcome := Delivered(books, prices, s.action.event, s.now).1;
       outcome != Refused && outcome != Duplicate && outcome != Clash
  }

  /** The id is remembered for as long as the event's age would let it in. */
  ghost predicate Remembered(books: Books, id: string, at: Time, now: Time) {
    id in books.events || at < now - EVENT_MAX_AGE
  }

  /** The same of step `j` of a run. */
  ghost predicate TakesUpAt(books: Books, prices: seq<Price>, steps: seq<Step>, j: nat, id: string)
    requires j < |steps|
    decreases j
  {
    if j == 0 then TakesUp(books, prices, steps[0], id)
    else TakesUpAt(After(books, prices, steps[0]), prices, steps[1..], j - 1, id)
  }

  lemma {:induction false} TakesUpAtMeans(books: Books, prices: seq<Price>, steps: seq<Step>, j: nat, id: string)
    requires j < |steps|
    ensures TakesUpAt(books, prices, steps, j, id) <==> TakesUp(Run(books, prices, steps[..j]), prices, steps[j], id)
    decreases j
  {
    if j > 0 {
      assert steps[..j][1..] == steps[1..][..j - 1];
      TakesUpAtMeans(After(books, prices, steps[0]), prices, steps[1..], j - 1, id);
    }
  }

  /** Every event of this id states this time. */
  ghost predicate StatesTime(steps: seq<Step>, id: string, at: Time) {
    forall k :: 0 <= k < |steps| && steps[k].action.Deliver? && steps[k].action.event.id == id ==> steps[k].action.event.at == at
  }

  lemma RestIsClocked(from: Time, steps: seq<Step>, id: string, at: Time)
    requires Clocked(from, steps) && steps != [] && StatesTime(steps, id, at)
    ensures Clocked(steps[0].now, steps[1..]) && StatesTime(steps[1..], id, at) && from <= steps[0].now
  {
  }

  /** An event id, whose event always states the same time, is taken up at most once in any run, although
      ids are pruned after thirty days. */
  lemma TakenUpOnce(books: Books, prices: seq<Price>, steps: seq<Step>, from: Time, id: string, at: Time, i: nat, j: nat)
    requires Clocked(from, steps) && i < j < |steps| && StatesTime(steps, id, at)
    requires TakesUp(Run(books, prices, steps[..i]), prices, steps[i], id)
    ensures !TakesUp(Run(books, prices, steps[..j]), prices, steps[j], id)
  {
    TakesUpAtMeans(books, prices, steps, i, id);
    TakesUpAtMeans(books, prices, steps, j, id);
    OnceOnly(books, prices, steps, from, id, at, i, j);
  }

  lemma {:induction false} OnceOnly(books: Books, prices: seq<Price>, steps: seq<Step>, from: Time, id: string, at: Time, i: nat, j: nat)
    requires Clocked(from, steps) && i < j < |steps| && StatesTime(steps, id, at) && TakesUpAt(books, prices, steps, i, id)
    ensures !TakesUpAt(books, prices, steps, j, id)
    decreases |steps|
  {
    if i == 0 {
      NotAfterFirst(books, prices, steps, from, id, at, j);
    } else {
      RestIsClocked(from, steps, id, at);
      OnceOnly(After(books, prices, steps[0]), prices, steps[1..], steps[0].now, id, at, i - 1, j - 1);
    }
  }

  lemma NotAfterFirst(books: Books, prices: seq<Price>, steps: seq<Step>, from: Time, id: string, at: Time, j: nat)
    requires Clocked(from, steps) && 0 < j < |steps| && StatesTime(steps, id, at)
    requires TakesUp(books, prices, steps[0], id)
    ensures !TakesUpAt(books, prices, steps, j, id)
  {
    RestIsClocked(from, steps, id, at);
    TakenIsRemembered(books, prices, steps[0], id);
    NeverAgain(After(books, prices, steps[0]), prices, steps[1..], steps[0].now, id, at, j - 1);
  }

  /** The books remember the id of an event of this time for as long as its age would let it in. */
  ghost predicate Knows(books: Books, id: string, at: Time, now: Time) {
    Remembered(books, id, at, now) && (id in books.events ==> at <= books.events[id] + EVENT_MAX_SKEW)
  }

  lemma TakenIsRemembered(books: Books, prices: seq<Price>, s: Step, id: string)
    requires TakesUp(books, prices, s, id)
    ensures s.action.Deliver? && s.action.event.id == id && Knows(After(books, prices, s), id, s.action.event.at, s.now)
  {
  }

  lemma StillKnown(books: Books, prices: seq<Price>, s: Step, id: string, at: Time, from: Time)
    requires Knows(books, id, at, from) && from <= s.now
    requires s.action.Deliver? && s.action.event.id == id ==> s.action.event.at == at
    ensures Knows(After(books, prices, s), id, at, s.now) && !TakesUp(books, prices, s, id)
  {
  }

  lemma {:induction false} NeverAgain(books: Books, prices: seq<Price>, steps: seq<Step>, from: Time, id: string, at: Time, j: nat)
    requires Clocked(from, steps) && j < |steps| && StatesTime(steps, id, at) && Knows(books, id, at, from)
    ensures !TakesUpAt(books, prices, steps, j, id)
    decreases |steps|
  {
    RestIsClocked(from, steps, id, at);
    StillKnown(books, prices, steps[0], id, at, from);
    if j > 0 {
      NeverAgain(After(books, prices, steps[0]), prices, steps[1..], steps[0].now, id, at, j - 1);
    }
  }

  // ------------------------------------------------------------------ delivery order

  /** What a subscription event says of the subscription. */
  datatype Facts = Facts(plan: Plan, period: Period, status: Status, periodEnd: Time, at: Time)

  /** An event of subscription `id` that states its status, its period end and a product on sale, and
      does not name another customer than the row's. */
  predicate Complete(prices: seq<Price>, e: Event, id: string, customer: Option<string>) {
    && e.body.SubscriptionChanged? && e.sub == Some(id)
    && (e.customer.None? || e.customer == customer)
    && e.status.Some? && e.periodEnd.Some? && PlanFor(prices, e.product).Some?
  }

  /** A refund or a dispute of it, which states no more than that. */
  predicate Reversal(e: Event, id: string) {
    (e.body.Refund? || e.body.Dispute?) && e.sub == Some(id)
  }

  predicate About(prices: seq<Price>, e: Event, id: string, customer: Option<string>) {
    Complete(prices, e, id, customer) || Reversal(e, id)
  }

  function Says(prices: seq<Price>, e: Event): Facts
    requires e.status.Some? && e.periodEnd.Some? && PlanFor(prices, e.product).Some?
  {
    var (plan, period) := PlanFor(prices, e.product).value;
    Facts(plan, period, e.status.value, e.periodEnd.value, e.at)
  }

  /** The status a reversal leaves, if it changes it. */
  function StatusAfter(e: Event): Option<Status> {
    if e.body.Dispute? then Some(Disputed) else if e.body.Refund? && e.body.canceled then Some(Canceled) else None
  }

  /** What an event makes of what was said before: all of it, or no more than its status and its time. */
  function Told(prices: seq<Price>, e: Event, f: Facts): Facts {
    if e.status.Some? && e.periodEnd.Some? && PlanFor(prices, e.product).Some? && e.body.SubscriptionChanged? then Says(prices, e)
    else f.(status := StatusAfter(e).GetOr(f.status), at := e.at)
  }

  /** An event about another subscription that does not come with this account's checkout. */
  predicate Elsewhere(e: Event, a: Account, id: string) {
    e.sub != Some(id) && (e.named.Some? ==> e.named.value.1 != a)
  }

  ghost predicate RowSays(books: Books, a: Account, id: string, customer: Option<string>, f: Facts) {
    && a in books.subs
    && var row := books.subs[a];
       && row.id == Some(id) && row.customer == customer
       && row.plan == f.plan && row.period == f.period && row.status == f.status
       && row.periodEnd == Some(f.periodEnd) && row.lastAt == f.at
  }

  predicate LetIn(prices: seq<Price>, s: Step, id: string, customer: Option<string>) {
    s.action.Deliver? && About(prices, s.action.event, id, customer) && Accepted(s.action.event, s.now)
  }

  /** One step: an event about the subscription is told unless it is older than what was said last. */
  function ToldBy(prices: seq<Price>, s: Step, id: string, customer: Option<string>, f: Facts): Facts {
    if LetIn(prices, s, id, customer) && s.action.event.at >= f.at then Told(prices, s.action.event, f) else f
  }

  function Folded(prices: seq<Price>, steps: seq<Step>, id: string, customer: Option<string>, f: Facts): Facts
    decreases |steps|
  {
    if steps == [] then f else Folded(prices, steps[1..], id, customer, ToldBy(prices, steps[0], id, customer, f))
  }

  /** Events about this subscription are complete or reversals, and one id is one event. */
  ghost predicate WellStated(prices: seq<Price>, steps: seq<Step>, a: Account, id: string, customer: Option<string>) {
    && (forall i :: 0 <= i < |steps| && steps[i].action.Deliver? ==>
          About(prices, steps[i].action.event, id, customer) || Elsewhere(steps[i].action.event, a, id))
    && (forall i, j :: 0 <= i < |steps| && 0 <= j < |steps| && SameId(steps[i], steps[j]) ==>
          steps[i].action.event == steps[j].action.event)
  }

  predicate SameId(s: Step, t: Step) {
    s.action.Deliver? && t.action.Deliver? && s.action.event.id == t.action.event.id
  }

  /** Two events of one time tell the same. */
  predicate TellSame(prices: seq<Price>, e: Event, o: Event, id: string, customer: Option<string>)
    requires About(prices, e, id, customer) && About(prices, o, id, customer)
  {
    e.at == o.at ==>
      && e.body.SubscriptionChanged? == o.body.SubscriptionChanged?
      && (if e.body.SubscriptionChanged? then Says(prices, e) == Says(prices, o) else StatusAfter(e) == StatusAfter(o))
  }

  /** No two events of the subscription share a time but tell different things, nor do one and the row. */
  ghost predicate OneTimeOneSaying(prices: seq<Price>, steps: seq<Step>, id: string, customer: Option<string>, f: Facts) {
    && (forall i, j :: 0 <= i < |steps| && 0 <= j < |steps| && LetIn(prices, steps[i], id, customer)
                       && LetIn(prices, steps[j], id, customer) ==>
          TellSame(prices, steps[i].action.event, steps[j].action.event, id, customer))
    && (forall i :: 0 <= i < |steps| && LetIn(prices, steps[i], id, customer) ==>
          Agree(prices, steps[i].action.event, f))
  }

  /** An event of the row's own time tells nothing new. */
  predicate Agree(prices: seq<Price>, e: Event, f: Facts) {
    e.at == f.at ==> Told(prices, e, f) == f
  }

  ghost predicate Orderly(prices: seq<Price>, steps: seq<Step>, a: Account, id: string, customer: Option<string>, f: Facts) {
    WellStated(prices, steps, a, id, customer) && OneTimeOneSaying(prices, steps, id, customer, f)
  }

  /** Events already seen are no newer than the row. */
  ghost predicate SeenAreOld(books: Books, prices: seq<Price>, steps: seq<Step>, id: string, customer: Option<string>, at: Time) {
    forall i :: 0 <= i < |steps| && LetIn(prices, steps[i], id, customer) && steps[i].action.event.id in books.events
                ==> steps[i].action.event.at <= at
  }

  lemma ElsewhereLeavesRow(books: Books, prices: seq<Price>, e: Event, now: Time, a: Account, id: string)
    requires Sound(books) && a in books.subs && books.subs[a].id == Some(id) && Elsewhere(e, a, id)
    ensures var (change, _) := Asked(books, prices, e, now);
            change.Write? ==> change.account != a
  {
  }

  lemma CompleteIsApplied(books: Books, prices: seq<Price>, e: Event, now: Time, a: Account, id: string, customer: Option<string>, f: Facts)
    requires Sound(books) && RowSays(books, a, id, customer, f) && Complete(prices, e, id, customer) && e.id !in books.events
    ensures RowSays(AfterEvent(books, prices, e, now).0, a, id, customer, if e.at >= f.at then Says(prices, e) else f)
    ensures e.id in AfterEvent(books, prices, e, now).0.events
  {
    RowIsTheOne(books.subs, a);
  }

  lemma ReversalIsApplied(books: Books, prices: seq<Price>, e: Event, now: Time, a: Account, id: string, customer: Option<string>, f: Facts)
    requires Sound(books) && RowSays(books, a, id, customer, f) && Reversal(e, id) && e.id !in books.events
    ensures RowSays(AfterEvent(books, prices, e, now).0, a, id, customer, if e.at >= f.at then Told(prices, e, f) else f)
    ensures e.id in AfterEvent(books, prices, e, now).0.events
  {
    RowIsTheOne(books.subs, a);
  }

  lemma StepTells(books: Books, prices: seq<Price>, s: Step, a: Account, id: string, customer: Option<string>, f: Facts)
    requires Sound(books) && RowSays(books, a, id, customer, f)
    requires s.action.Deliver? ==> About(prices, s.action.event, id, customer) || Elsewhere(s.action.event, a, id)
    requires LetIn(prices, s, id, customer) ==>
               Agree(prices, s.action.event, f) && (s.action.event.id in books.events ==> s.action.event.at <= f.at)
    ensures RowSays(After(books, prices, s), a, id, customer, ToldBy(prices, s, id, customer, f))
  {
    match s.action
    case Open(_) =>
    case Deliver(e) =>
      if LetIn(prices, s, id, customer) && e.id !in books.events {
        if Complete(prices, e, id, customer) {
          CompleteIsApplied(books, prices, e, s.now, a, id, customer, f);
        } else {
          ReversalIsApplied(books, prices, e, s.now, a, id, customer, f);
        }
      } else if Accepted(e, s.now) && Elsewhere(e, a, id) {
        ElsewhereLeavesRow(books, prices, e, s.now, a, id);
      }
  }

  lemma EventsAreSeen(books: Books, prices: seq<Price>, s: Step, id: string)
    requires id in After(books, prices, s).events && id !in books.events
    ensures s.action.Deliver? && s.action.event.id == id
  {
  }

  /** What is said only gets newer. */
  lemma ToldIsNewer(prices: seq<Price>, s: Step, id: string, customer: Option<string>, f: Facts)
    ensures ToldBy(prices, s, id, customer, f).at >= f.at
    ensures LetIn(prices, s, id, customer) ==> ToldBy(prices, s, id, customer, f).at >= s.action.event.at
  {
  }

  lemma SeenStayOld(books: Books, prices: seq<Price>, steps: seq<Step>, a: Account, id: string, customer: Option<string>, f: Facts)
    requires steps != [] && WellStated(prices, steps, a, id, customer) && SeenAreOld(books, prices, steps, id, customer, f.at)
    ensures SeenAreOld(After(books, prices, steps[0]), prices, steps[1..], id, customer, ToldBy(prices, steps[0], id, customer, f).at)
  {
    var s, rest := steps[0], steps[1..];
    ToldIsNewer(prices, s, id, customer, f);
    forall i | 0 <= i < |rest| && LetIn(prices, rest[i], id, customer) && rest[i].action.event.id in After(books, prices, s).events
      ensures rest[i].action.event.at <= ToldBy(prices, s, id, customer, f).at
    {
      assert steps[i + 1] == rest[i];
      if rest[i].action.event.id !in books.events {
        EventsAreSeen(books, prices, s, rest[i].action.event.id);
        assert SameId(steps[0], steps[i + 1]);
      }
    }
  }

  lemma AgreesAfter(prices: seq<Price>, s: Step, e: Event, id: string, customer: Option<string>, f: Facts)
    requires About(prices, e, id, customer) && Agree(prices, e, f)
    requires LetIn(prices, s, id, customer) ==> TellSame(prices, s.action.event, e, id, customer)
    ensures Agree(prices, e, ToldBy(prices, s, id, customer, f))
  {
  }

  lemma OrderlyAfter(prices: seq<Price>, steps: seq<Step>, a: Account, id: string, customer: Option<string>, f: Facts)
    requires steps != [] && Orderly(prices, steps, a, id, customer, f)
    ensures Orderly(prices, steps[1..], a, id, customer, ToldBy(prices, steps[0], id, customer, f))
  {
    var rest := steps[1..];
    assert forall i :: 0 <= i < |rest| ==> rest[i] == steps[i + 1];
    forall i | 0 <= i < |rest| && LetIn(prices, rest[i], id, customer)
      ensures Agree(prices, rest[i].action.event, ToldBy(prices, steps[0], id, customer, f))
    {
      assert LetIn(prices, steps[i + 1], id, customer);
      AgreesAfter(prices, steps[0], rest[i].action.event, id, customer, f);
    }
  }

  /** Whatever the order of delivery, with repeats and other accounts' events in between, the row says what is told one
      after another, each unless it is older than what was said last. */
  lemma {:induction false} EndsFolded(books: Books, prices: seq<Price>, steps: seq<Step>, a: Account, id: string,
                                      customer: Option<string>, f: Facts)
    requires Sound(books) && RowSays(books, a, id, customer, f)
    requires Orderly(prices, steps, a, id, customer, f) && SeenAreOld(books, prices, steps, id, customer, f.at)
    ensures RowSays(Run(books, prices, steps), a, id, customer, Folded(prices, steps, id, customer, f))
    decreases |steps|
  {
    if steps != [] {
      var s := steps[0];
      StepTells(books, prices, s, a, id, customer, f);
      StepKeeps(books, prices, s);
      OrderlyAfter(prices, steps, a, id, customer, f);
      SeenStayOld(books, prices, steps, a, id, customer, f);
      EndsFolded(After(books, prices, s), prices, steps[1..], a, id, customer, ToldBy(prices, s, id, customer, f));
    }
  }

  // ------------------------------------------------------------------ subscription events alone

  /** No refund and no dispute of the subscription is delivered. */
  ghost predicate NoReversal(steps: seq<Step>, id: string) {
    forall i :: 0 <= i < |steps| && steps[i].action.Deliver? ==> !Reversal(steps[i].action.event, id)
  }

  /** The newest of what was said: the row's own facts and those of every event the run lets in. */
  function Newest(prices: seq<Price>, steps: seq<Step>, id: string, customer: Option<string>, f: Facts): Facts
    decreases |steps|
  {
    if steps == [] then f
    else Newest(prices, steps[1..], id, customer, NewestAfter(prices, steps[0], id, customer, f))
  }

  function NewestAfter(prices: seq<Price>, s: Step, id: string, customer: Option<string>, f: Facts): Facts {
    if SaysIn(prices, s, id, customer) && s.action.event.at > f.at then Says(prices, s.action.event) else f
  }

  /** A complete event is let in. */
  predicate SaysIn(prices: seq<Price>, s: Step, id: string, customer: Option<string>) {
    LetIn(prices, s, id, customer) && Complete(prices, s.action.event, id, customer)
  }

  lemma {:induction false} FoldedIsNewest(prices: seq<Price>, steps: seq<Step>, a: Account, id: string, customer: Option<string>, f: Facts)
    requires Orderly(prices, steps, a, id, customer, f) && NoReversal(steps, id)
    ensures Folded(prices, steps, id, customer, f) == Newest(prices, steps, id, customer, f)
    decreases |steps|
  {
    if steps != [] {
      assert steps[0].action.Deliver? ==> !Reversal(steps[0].action.event, id);
      assert forall i :: 0 <= i < |steps[1..]| ==> steps[1..][i] == steps[i + 1];
      OrderlyAfter(prices, steps, a, id, customer, f);
      FoldedIsNewest(prices, steps[1..], a, id, customer, ToldBy(prices, steps[0], id, customer, f));
    }
  }

  /** Whatever the order of delivery, with repeats, late events and other accounts' events in between, the
      row ends with the newest of what was said, where nothing is reversed. */
  lemma EndsWithNewest(books: Books, prices: seq<Price>, steps: seq<Step>, a: Account, id: string, customer: Option<string>, f: Facts)
    requires Sound(books) && RowSays(books, a, id, customer, f) && NoReversal(steps, id)
    requires Orderly(prices, steps, a, id, customer, f) && SeenAreOld(books, prices, steps, id, customer, f.at)
    ensures RowSays(Run(books, prices, steps), a, id, customer, Newest(prices, steps, id, customer, f))
  {
    EndsFolded(books, prices, steps, a, id, customer, f);
    FoldedIsNewest(prices, steps, a, id, customer, f);
  }

  /** The newest is one of what was said, and nothing said is newer. */
  lemma {:induction false} NewestMeans(prices: seq<Price>, steps: seq<Step>, id: string, customer: Option<string>, f: Facts)
    ensures var g := Newest(prices, steps, id, customer, f);
            && f.at <= g.at
            && (forall i :: 0 <= i < |steps| && SaysIn(prices, steps[i], id, customer) ==> steps[i].action.event.at <= g.at)
            && (g == f || exists i :: 0 <= i < |steps| && SaysIn(prices, steps[i], id, customer)
                                      && g == Says(prices, steps[i].action.event))
    decreases |steps|
  {
    if steps != [] {
      var h := NewestAfter(prices, steps[0], id, customer, f);
      NewestMeans(prices, steps[1..], id, customer, h);
      var g := Newest(prices, steps, id, customer, f);
      forall i | 0 <= i < |steps| && SaysIn(prices, steps[i], id, customer) ensures steps[i].action.event.at <= g.at {
        if i > 0 {
          assert steps[1..][i - 1] == steps[i];
        }
      }
      if g != f {
        if g == h {
          assert SaysIn(prices, steps[0], id, customer) && g == Says(prices, steps[0].action.event);
        } else {
          var i :| 0 <= i < |steps[1..]| && SaysIn(prices, steps[1..][i], id, customer)
                   && g == Says(prices, steps[1..][i].action.event);
          assert steps[i + 1] == steps[1..][i];
        }
      }
    }
  }

  /** The same events let in, in any two orders and any numbers of times. */
  ghost predicate SameEvents(prices: seq<Price>, xs: seq<Step>, ys: seq<Step>, id: string, customer: Option<string>) {
    && (forall i :: 0 <= i < |xs| && SaysIn(prices, xs[i], id, customer) ==> LetsIn(prices, ys, xs[i].action.event, id, customer))
    && (forall i :: 0 <= i < |ys| && SaysIn(prices, ys[i], id, customer) ==> LetsIn(prices, xs, ys[i].action.event, id, customer))
  }

  ghost predicate LetsIn(prices: seq<Price>, steps: seq<Step>, e: Event, id: string, customer: Option<string>) {
    exists i :: 0 <= i < |steps| && SaysIn(prices, steps[i], id, customer) && steps[i].action.event == e
  }

  /** Two runs that let in the same events leave the subscription in the same state, where nothing is reversed. */
  lemma DeliveryOrderIsIrrelevant(books: Books, prices: seq<Price>, xs: seq<Step>, ys: seq<Step>, a: Account, id: string,
                                  customer: Option<string>, f: Facts)
    requires Sound(books) && RowSays(books, a, id, customer, f) && NoReversal(xs, id) && NoReversal(ys, id)
    requires Orderly(prices, xs, a, id, customer, f) && SeenAreOld(books, prices, xs, id, customer, f.at)
    requires Orderly(prices, ys, a, id, customer, f) && SeenAreOld(books, prices, ys, id, customer, f.at)
    requires SameEvents(prices, xs, ys, id, customer)
    ensures exists g :: RowSays(Run(books, prices, xs), a, id, customer, g) && RowSays(Run(books, prices, ys), a, id, customer, g)
  {
    EndsWithNewest(books, prices, xs, a, id, customer, f);
    EndsWithNewest(books, prices, ys, a, id, customer, f);
    SameNewest(prices, xs, ys, id, customer, f);
  }

  lemma SameNewest(prices: seq<Price>, xs: seq<Step>, ys: seq<Step>, id: string, customer: Option<string>, f: Facts)
    requires OneTimeOneSaying(prices, xs, id, customer, f) && OneTimeOneSaying(prices, ys, id, customer, f)
    requires SameEvents(prices, xs, ys, id, customer)
    ensures Newest(prices, xs, id, customer, f) == Newest(prices, ys, id, customer, f)
  {
    var g, h := Newest(prices, xs, id, customer, f), Newest(prices, ys, id, customer, f);
    NewestIsSaid(prices, xs, ys, id, customer, f);
    NewestIsSaid(prices, ys, xs, id, customer, f);
    NewestMeans(prices, ys, id, customer, f);
    if h != f {
      var j :| 0 <= j < |ys| && SaysIn(prices, ys[j], id, customer) && h == Says(prices, ys[j].action.event);
    }
  }

  predicate SameAt(f: Facts, g: Facts) {
    f.at == g.at ==> f == g
  }

  /** What one run ends with is no newer than what the other ends with, and agrees with everything it said. */
  lemma NewestIsSaid(prices: seq<Price>, xs: seq<Step>, ys: seq<Step>, id: string, customer: Option<string>, f: Facts)
    requires OneTimeOneSaying(prices, xs, id, customer, f) && OneTimeOneSaying(prices, ys, id, customer, f)
    requires SameEvents(prices, xs, ys, id, customer)
    ensures var g := Newest(prices, xs, id, customer, f);
            && g.at <= Newest(prices, ys, id, customer, f).at
            && SameAt(g, f)
            && forall j :: 0 <= j < |ys| && SaysIn(prices, ys[j], id, customer) ==> SameAt(Says(prices, ys[j].action.event), g)
  {
    var g := Newest(prices, xs, id, customer, f);
    NewestMeans(prices, xs, id, customer, f);
    NewestMeans(prices, ys, id, customer, f);
    if g != f {
      var i :| 0 <= i < |xs| && SaysIn(prices, xs[i], id, customer) && g == Says(prices, xs[i].action.event);
      assert LetsIn(prices, ys, xs[i].action.event, id, customer);
      var k :| 0 <= k < |ys| && SaysIn(prices, ys[k], id, customer) && ys[k].action.event == xs[i].action.event;
    }
  }

  // ------------------------------------------------------------------ and with refunds and disputes

  /** Both say the same plan, period and period end, and, where reversals leave it alone, the same status. */
  predicate SameTerms(f: Facts, g: Facts, withStatus: bool) {
    f.plan == g.plan && f.period == g.period && f.periodEnd == g.periodEnd && (withStatus ==> f.status == g.status)
  }

  /** Every reversal let in is a refund that leaves the status alone. */
  ghost predicate PlainRefunds(prices: seq<Price>, steps: seq<Step>, id: string, customer: Option<string>) {
    forall i :: 0 <= i < |steps| && LetIn(prices, steps[i], id, customer) && steps[i].action.event.body != SubscriptionChanged ==>
      StatusAfter(steps[i].action.event).None?
  }

  /** Step `n` lets in the newest complete event for the first time; it says other terms than the row and than every
      other complete event, which are all older. */
  ghost predicate IsNewest(prices: seq<Price>, steps: seq<Step>, n: nat, id: string, customer: Option<string>, f: Facts, withStatus: bool) {
    && n < |steps| && SaysIn(prices, steps[n], id, customer)
    && var says := Says(prices, steps[n].action.event);
       && says.at > f.at && !SameTerms(f, says, withStatus)
       && (forall i :: 0 <= i < |steps| && SaysIn(prices, steps[i], id, customer) ==>
             OlderOrSame(prices, steps[i].action.event, steps[n].action.event, withStatus))
       && (forall i :: 0 <= i < n && SaysIn(prices, steps[i], id, customer) ==> steps[i].action.event != steps[n].action.event)
  }

  predicate OlderOrSame(prices: seq<Price>, e: Event, newest: Event, withStatus: bool)
    requires e.status.Some? && e.periodEnd.Some? && PlanFor(prices, e.product).Some?
    requires newest.status.Some? && newest.periodEnd.Some? && PlanFor(prices, newest.product).Some?
  {
    e == newest || (e.at < newest.at && !SameTerms(Says(prices, e), Says(prices, newest), withStatus))
  }

  /** A newer refund or dispute came in before. */
  ghost predicate Overtaken(prices: seq<Price>, steps: seq<Step>, n: nat, id: string, customer: Option<string>)
    requires n < |steps| && steps[n].action.Deliver?
  {
    exists j :: 0 <= j < n && LetIn(prices, steps[j], id, customer) && steps[j].action.event.at > steps[n].action.event.at
  }

  lemma TermsStayOnce(prices: seq<Price>, s: Step, newest: Event, id: string, customer: Option<string>, f: Facts, withStatus: bool)
    requires Complete(prices, newest, id, customer) && f.at >= newest.at
    requires f.at > newest.at || SameTerms(f, Says(prices, newest), withStatus)
    requires SaysIn(prices, s, id, customer) ==> OlderOrSame(prices, s.action.event, newest, withStatus)
    requires withStatus && LetIn(prices, s, id, customer) && s.action.event.body != SubscriptionChanged ==>
               StatusAfter(s.action.event).None?
    ensures var g := ToldBy(prices, s, id, customer, f);
            && SameTerms(g, f, withStatus) && g.at >= newest.at
            && (g.at > newest.at || SameTerms(g, Says(prices, newest), withStatus))
  {
  }

  /** Once something as new as the newest event was said, the terms stay. */
  lemma {:induction false} TermsStay(prices: seq<Price>, steps: seq<Step>, newest: Event, id: string, customer: Option<string>,
                                     f: Facts, withStatus: bool)
    requires Complete(prices, newest, id, customer) && f.at >= newest.at
    requires f.at > newest.at || SameTerms(f, Says(prices, newest), withStatus)
    requires forall i :: 0 <= i < |steps| && SaysIn(prices, steps[i], id, customer) ==>
               OlderOrSame(prices, steps[i].action.event, newest, withStatus)
    requires withStatus ==> PlainRefunds(prices, steps, id, customer)
    ensures SameTerms(Folded(prices, steps, id, customer, f), f, withStatus)
    decreases |steps|
  {
    if steps != [] {
      TermsStayOnce(prices, steps[0], newest, id, customer, f, withStatus);
      assert forall i :: 0 <= i < |steps[1..]| ==> steps[1..][i] == steps[i + 1];
      TermsStay(prices, steps[1..], newest, id, customer, ToldBy(prices, steps[0], id, customer, f), withStatus);
    }
  }

  /** The terms told in the end are the newest event's exactly when no newer refund or dispute overtook it. */
  lemma {:induction false} NewestStandsExact(prices: seq<Price>, steps: seq<Step>, n: nat, a: Account, id: string,
                                             customer: Option<string>, f: Facts, withStatus: bool)
    requires Orderly(prices, steps, a, id, customer, f) && IsNewest(prices, steps, n, id, customer, f, withStatus)
    requires withStatus ==> PlainRefunds(prices, steps, id, customer)
    ensures SameTerms(Folded(prices, steps, id, customer, f), Says(prices, steps[n].action.event), withStatus)
            <==> !Overtaken(prices, steps, n, id, customer)
    decreases |steps|
  {
    var s, newest, rest := steps[0], steps[n].action.event, steps[1..];
    var g := ToldBy(prices, s, id, customer, f);
    assert forall i :: 0 <= i < |rest| ==> rest[i] == steps[i + 1];
    OrderlyAfter(prices, steps, a, id, customer, f);
    if n == 0 {
      TermsStay(prices, rest, newest, id, customer, g, withStatus);
    } else if LetIn(prices, s, id, customer) && s.action.event.at > newest.at {
      TermsStay(prices, rest, newest, id, customer, g, withStatus);
    } else {
      NotYetSaid(prices, steps, n, id, customer, f, withStatus);
      NewestStandsExact(prices, rest, n - 1, a, id, customer, g, withStatus);
      OvertakenLater(prices, steps, n, id, customer);
    }
  }

  lemma OvertakenLater(prices: seq<Price>, steps: seq<Step>, n: nat, id: string, customer: Option<string>)
    requires 0 < n < |steps| && steps[n].action.Deliver?
    requires !(LetIn(prices, steps[0], id, customer) && steps[0].action.event.at > steps[n].action.event.at)
    ensures Overtaken(prices, steps, n, id, customer) <==> Overtaken(prices, steps[1..], n - 1, id, customer)
  {
    var rest := steps[1..];
    if Overtaken(prices, steps, n, id, customer) {
      var j :| 0 <= j < n && LetIn(prices, steps[j], id, customer) && steps[j].action.event.at > steps[n].action.event.at;
      assert rest[j - 1] == steps[j];
    }
    if Overtaken(prices, rest, n - 1, id, customer) {
      var j :| 0 <= j < n - 1 && LetIn(prices, rest[j], id, customer) && rest[j].action.event.at > rest[n - 1].action.event.at;
      assert steps[j + 1] == rest[j];
    }
  }

  lemma NotYetSaid(prices: seq<Price>, steps: seq<Step>, n: nat, id: string, customer: Option<string>, f: Facts, withStatus: bool)
    requires OneTimeOneSaying(prices, steps, id, customer, f) && IsNewest(prices, steps, n, id, customer, f, withStatus) && n > 0
    requires !(LetIn(prices, steps[0], id, customer) && steps[0].action.event.at > steps[n].action.event.at)
    requires withStatus ==> PlainRefunds(prices, steps, id, customer)
    ensures IsNewest(prices, steps[1..], n - 1, id, customer, ToldBy(prices, steps[0], id, customer, f), withStatus)
  {
    var rest := steps[1..];
    assert forall i :: 0 <= i < |rest| ==> rest[i] == steps[i + 1];
    assert LetIn(prices, steps[0], id, customer) ==>
        TellSame(prices, steps[0].action.event, steps[n].action.event, id, customer);
  }

  /** So, with refunds and disputes, a run ends with the newest event's terms exactly when none of them is newer and came
      before it: it would move the row's time on, and the event would be taken for an older one. */
  lemma EndsWithNewestExact(books: Books, prices: seq<Price>, steps: seq<Step>, n: nat, a: Account, id: string,
                            customer: Option<string>, f: Facts, withStatus: bool)
    requires Sound(books) && RowSays(books, a, id, customer, f)
    requires Orderly(prices, steps, a, id, customer, f) && SeenAreOld(books, prices, steps, id, customer, f.at)
    requires IsNewest(prices, steps, n, id, customer, f, withStatus) && (withStatus ==> PlainRefunds(prices, steps, id, customer))
    ensures exists g :: RowSays(Run(books, prices, steps), a, id, customer, g)
                        && (SameTerms(g, Says(prices, steps[n].action.event), withStatus)
                            <==> !Overtaken(prices, steps, n, id, customer))
  {
    EndsFolded(books, prices, steps, a, id, customer, f);
    NewestStandsExact(prices, steps, n, a, id, customer, f, withStatus);
  }

  /** For example: an active subscription is ended, and a payment of it refunded later. Told in this order it ends; with
      the refund first it stays active. */
  lemma RefundFirst(prices: seq<Price>, id: string, f: Facts, ended: Step, refund: Step)
    requires LetIn(prices, ended, id, None) && LetIn(prices, refund, id, None)
    requires Complete(prices, ended.action.event, id, None) && refund.action.event.body == Refund(false)
    requires f.at < ended.action.event.at < refund.action.event.at
    ensures Folded(prices, [ended, refund], id, None, f).status == ended.action.event.status.value
    ensures Folded(prices, [refund, ended], id, None, f).status == f.status
  {
    assert [ended, refund][1..] == [refund] && [refund][1..] == [] && [refund, ended][1..] == [ended] && [ended][1..] == [];
    var g, h := ToldBy(prices, ended, id, None, f), ToldBy(prices, refund, id, None, f);
    assert Folded(prices, [ended, refund], id, None, f) == Folded(prices, [refund], id, None, g) == ToldBy(prices, refund, id, None, g);
    assert Folded(prices, [refund, ended], id, None, f) == Folded(prices, [ended], id, None, h) == ToldBy(prices, ended, id, None, h);
  }

  // ------------------------------------------------------------------ the founding cap

  /** The accounts that hold a founding place: a live founding subscription or an open founding hold. */
  function Holders(books: Books, now: Time): set<Account> {
    FoundingSubs(books.subs) + HoldAccounts(books.checkouts, now)
  }

  function HoldAccounts(checkouts: map<Ref, Checkout>, now: Time): set<Account> {
    set r | r in checkouts && HoldsPlace(checkouts[r], now) :: checkouts[r].account
  }

  lemma HoldsOnlyExpire(books: Books, now: Time, later: Time)
    requires now <= later
    ensures Holders(books, later) <= Holders(books, now) && |Holders(books, later)| <= |Holders(books, now)|
  {
    SubsetSize(Holders(books, later), Holders(books, now));
  }

  /** Counting rows bounds counting accounts. */
  lemma {:induction false} AccountsOfRefs(checkouts: map<Ref, Checkout>, refs: set<Ref>)
    requires refs <= checkouts.Keys
    ensures |set r | r in refs :: checkouts[r].account| <= |refs|
    decreases |refs|
  {
    var accounts := set r | r in refs :: checkouts[r].account;
    if refs == {} {
      assert accounts == {};
    } else {
      var r :| r in refs;
      var rest := refs - {r};
      AccountsOfRefs(checkouts, rest);
      var others := set x | x in rest :: checkouts[x].account;
      assert accounts <= others + {checkouts[r].account};
      SubsetSize(accounts, others + {checkouts[r].account});
    }
  }

  lemma OpenedFits(books: Books, prices: seq<Price>, r: Request, now: Time)
    requires AfterRequest(books, prices, r, now).1 == Opened && r.plan == Founding
    ensures |Holders(AfterRequest(books, prices, r, now).0, now)| <= FOUNDING_CAP
  {
    var next := AfterRequest(books, prices, r, now).0;
    var others := OthersHolding(books.checkouts, r.account, now);
    var accounts := set x | x in others :: books.checkouts[x].account;
    AccountsOfRefs(books.checkouts, others);
    HoldersOfOpened(books, prices, r, now);
    var bound := FoundingSubs(books.subs) + accounts + {r.account};
    SubsetSize(Holders(next, now), bound);
    UnionSize(FoundingSubs(books.subs), accounts, r.account);
    OpenedMeans(books, prices, r, now);
  }

  lemma UnionSize(x: set<Account>, y: set<Account>, a: Account)
    ensures |x + y + {a}| <= |x| + |y| + 1
  {
  }

  lemma OpenedMeans(books: Books, prices: seq<Price>, r: Request, now: Time)
    requires AfterRequest(books, prices, r, now).1 == Opened && r.plan == Founding
    ensures |FoundingSubs(books.subs)| + |OthersHolding(books.checkouts, r.account, now)| < FOUNDING_CAP
  {
  }

  lemma HoldersOfOpened(books: Books, prices: seq<Price>, r: Request, now: Time)
    requires AfterRequest(books, prices, r, now).1 == Opened
    ensures var others := OthersHolding(books.checkouts, r.account, now);
            Holders(AfterRequest(books, prices, r, now).0, now)
            <= FoundingSubs(books.subs) + (set x | x in others :: books.checkouts[x].account) + {r.account}
    ensures r.plan != Founding ==> Holders(AfterRequest(books, prices, r, now).0, now) <= Holders(books, now)
  {
    var next := AfterRequest(books, prices, r, now).0;
    forall a | a in HoldAccounts(next.checkouts, now) && (a != r.account || r.plan != Founding)
      ensures a in HoldAccounts(books.checkouts, now)
      ensures a != r.account ==> exists x :: x in OthersHolding(books.checkouts, r.account, now) && books.checkouts[x].account == a
    {
      var x :| x in next.checkouts && HoldsPlace(next.checkouts[x], now) && next.checkouts[x].account == a;
      assert x in books.checkouts && books.checkouts[x] == next.checkouts[x];
    }
  }

  /** A founding checkout is opened only while the places of all accounts, the caller's own included,
      stay within the cap: its own hold was left out of the count and is counted once. */
  lemma OpeningKeepsCap(books: Books, prices: seq<Price>, r: Request, now: Time)
    requires |Holders(books, now)| <= FOUNDING_CAP
    ensures |Holders(AfterRequest(books, prices, r, now).0, now)| <= FOUNDING_CAP
  {
    var (next, result) := AfterRequest(books, prices, r, now);
    if result == Opened && r.plan == Founding {
      OpenedFits(books, prices, r, now);
    } else if result == Opened {
      HoldersOfOpened(books, prices, r, now);
      SubsetSize(Holders(next, now), Holders(books, now));
    } else {
      assert next == books;
    }
  }

  /** The row asked for would make a founding subscription live for an account that holds no place. */
  ghost predicate WritesLate(books: Books, prices: seq<Price>, e: Event, now: Time) {
    && Accepted(e, now) && e.id !in books.events
    && var (change, _) := Asked(books, prices, e, now);
       && change.Write? && !Taken(books.subs, change.account, change.row.id)
       && change.row.plan == Founding && !Ended(change.row.status)
       && change.account !in Holders(books, now)
  }

  // What of the event and the tables makes it so, kind by kind.

  /** The account has no live founding subscription, and every founding checkout it left open has run out. */
  ghost predicate HoldsNothing(books: Books, a: Account, now: Time) {
    && (a in books.subs && books.subs[a].plan == Founding ==> Ended(books.subs[a].status))
    && (forall r :: r in books.checkouts && OpenFounding(books.checkouts[r], a) ==>
          books.checkouts[r].created + FOUNDING_HOLD <= now)
  }

  /** A founding checkout the account has not completed. */
  predicate OpenFounding(c: Checkout, a: Account) {
    c.account == a && c.plan == Founding && c.completed.None?
  }

  /** The account has a subscription that is not over. */
  predicate Subscribed(books: Books, a: Account, now: Time) {
    a in books.subs && books.subs[a].id.Some? && !Over(Some(books.subs[a].status), books.subs[a].periodEnd, now)
  }

  ghost predicate HasRow(books: Books, sub: Option<string>) {
    sub.Some? && exists a :: a in books.subs && books.subs[a].id == sub
  }

  /** A founding checkout is paid whose hold has run out, by an account without another running subscription. */
  ghost predicate PaidLate(books: Books, e: Event, ref: Ref, now: Time) {
    && e.body.CheckoutCompleted? && !e.body.notCompleted && NamesCheckout(books, e, ref)
    && var c := books.checkouts[ref];
       && c.provider == e.body.provider && c.plan == Founding && HoldsNothing(books, c.account, now)
       && !Ended(e.status.GetOr(Active))
       && (Subscribed(books, c.account, now) ==> books.subs[c.account].id == e.sub)
       && (c.account in books.subs && books.subs[c.account].id == e.sub ==> books.subs[c.account].lastAt <= e.at)
       && (forall a :: a in books.subs && a != c.account ==> e.sub.None? || books.subs[a].id != e.sub)
  }

  /** The event names a checkout opened here, with its account and its product. */
  predicate NamesCheckout(books: Books, e: Event, ref: Ref) {
    && ref in books.checkouts
    && e.named == Some((ref, books.checkouts[ref].account))
    && e.product == Some(books.checkouts[ref].product)
  }

  /** The provider starts a subscription for a founding checkout whose hold has run out. */
  ghost predicate StartedLate(books: Books, e: Event, ref: Ref, now: Time) {
    && e.body.SubscriptionChanged? && !HasRow(books, e.sub) && NamesCheckout(books, e, ref)
    && e.status.Some? && !Ended(e.status.value)
    && books.checkouts[ref].plan == Founding && HoldsNothing(books, books.checkouts[ref].account, now)
    && !Subscribed(books, books.checkouts[ref].account, now)
  }

  /** A subscription is changed to the founding plan, or an ended founding one is stated to live again. */
  ghost predicate TurnedFounding(books: Books, prices: seq<Price>, e: Event, a: Account, now: Time) {
    && e.body.SubscriptionChanged? && a in books.subs && e.sub.Some? && books.subs[a].id == e.sub
    && var row := books.subs[a];
       && (row.customer.None? || e.customer.None? || row.customer == e.customer)
       && row.lastAt <= e.at
       && (if PlanFor(prices, e.product).Some? then PlanFor(prices, e.product).value.0 == Founding else row.plan == Founding)
       && !Ended(e.status.GetOr(row.status)) && HoldsNothing(books, a, now)
  }

  /** A payment of an ended founding subscription is disputed: the disputed row counts as live again. */
  ghost predicate DisputedAfterEnd(books: Books, e: Event, a: Account, now: Time) {
    && e.body.Dispute? && a in books.subs && e.sub.Some? && books.subs[a].id == e.sub
    && books.subs[a].lastAt <= e.at && books.subs[a].plan == Founding && HoldsNothing(books, a, now)
  }

  /** The event takes a place for an account that holds none. */
  ghost predicate LateConversion(books: Books, prices: seq<Price>, e: Event, now: Time) {
    && Accepted(e, now) && e.id !in books.events
    && ((exists ref :: PaidLate(books, e, ref, now))
        || (exists ref :: StartedLate(books, e, ref, now))
        || (exists a :: TurnedFounding(books, prices, e, a, now))
        || (exists a :: DisputedAfterEnd(books, e, a, now)))
  }

  lemma PaidLateExact(books: Books, prices: seq<Price>, e: Event, now: Time)
    requires IdsUnique(books.subs) && e.body.CheckoutCompleted? && Accepted(e, now) && e.id !in books.events
    ensures WritesLate(books, prices, e, now) <==> exists ref :: PaidLate(books, e, ref, now)
  {
    var ref := OurCheckout(books, e.named, e.product);
    if ref.Some? {
      assert WritesLate(books, prices, e, now) <==> PaidLate(books, e, ref.value, now);
    }
  }

  lemma StartedLateExact(books: Books, prices: seq<Price>, e: Event, now: Time)
    requires IdsUnique(books.subs) && e.body.SubscriptionChanged? && !HasRow(books, e.sub)
    requires Accepted(e, now) && e.id !in books.events
    ensures WritesLate(books, prices, e, now) <==> exists ref :: StartedLate(books, e, ref, now)
  {
    assert RowOf(books.subs, e.sub).None?;
    var ref := OurCheckout(books, e.named, e.product);
    if ref.Some? {
      assert WritesLate(books, prices, e, now) <==> StartedLate(books, e, ref.value, now);
    }
  }

  lemma TurnedFoundingExact(books: Books, prices: seq<Price>, e: Event, now: Time)
    requires IdsUnique(books.subs) && e.body.SubscriptionChanged? && HasRow(books, e.sub)
    requires Accepted(e, now) && e.id !in books.events
    ensures WritesLate(books, prices, e, now) <==> exists a :: TurnedFounding(books, prices, e, a, now)
  {
    var a :| a in books.subs && books.subs[a].id == e.sub;
    RowIsTheOne(books.subs, a);
    assert WritesLate(books, prices, e, now) <==> TurnedFounding(books, prices, e, a, now);
  }

  lemma DisputedAfterEndExact(books: Books, prices: seq<Price>, e: Event, now: Time)
    requires IdsUnique(books.subs) && (e.body.Refund? || e.body.Dispute?)
    requires Accepted(e, now) && e.id !in books.events
    ensures WritesLate(books, prices, e, now) <==> exists a :: DisputedAfterEnd(books, e, a, now)
  {
    if HasRow(books, e.sub) {
      var a :| a in books.subs && books.subs[a].id == e.sub;
      RowIsTheOne(books.subs, a);
      assert WritesLate(books, prices, e, now) <==> DisputedAfterEnd(books, e, a, now);
    }
  }

  /** An event writes a late row in exactly these four cases. */
  lemma LateExact(books: Books, prices: seq<Price>, e: Event, now: Time)
    requires IdsUnique(books.subs)
    ensures WritesLate(books, prices, e, now) <==> LateConversion(books, prices, e, now)
  {
    if Accepted(e, now) && e.id !in books.events {
      match e.body
      case CheckoutCompleted(_, _) => PaidLateExact(books, prices, e, now);
      case SubscriptionChanged =>
        if HasRow(books, e.sub) {
          TurnedFoundingExact(books, prices, e, now);
        } else {
          StartedLateExact(books, prices, e, now);
        }
      case Refund(_) => DisputedAfterEndExact(books, prices, e, now);
      case Dispute => DisputedAfterEndExact(books, prices, e, now);
      case OtherEvent =>
    }
  }

  lemma CompletionsOnlyRelease(checkouts: map<Ref, Checkout>, ref: Option<Ref>, now: Time)
    ensures HoldAccounts(Completed(checkouts, ref, now), now) <= HoldAccounts(checkouts, now)
    ensures forall a :: a in HoldAccounts(checkouts, now) && a !in HoldAccounts(Completed(checkouts, ref, now), now) ==>
              ref.Some? && ref.value in checkouts && checkouts[ref.value].account == a
  {
    var later := Completed(checkouts, ref, now);
    forall a | a in HoldAccounts(later, now) ensures a in HoldAccounts(checkouts, now) {
      var r :| r in later && HoldsPlace(later[r], now) && later[r].account == a;
      assert HoldsPlace(checkouts[r], now);
    }
    forall a | a in HoldAccounts(checkouts, now) && a !in HoldAccounts(later, now)
      ensures ref.Some? && ref.value in checkouts && checkouts[ref.value].account == a
    {
      var r :| r in checkouts && HoldsPlace(checkouts[r], now) && checkouts[r].account == a;
      assert later[r] != checkouts[r];
    }
  }

  /** Who holds a place after an event: the same accounts or fewer, and one more where a late row is written. */
  lemma HoldersAfterEvent(books: Books, prices: seq<Price>, e: Event, now: Time)
    ensures var next := Delivered(books, prices, e, now).0;
            && (!WritesLate(books, prices, e, now) ==> Holders(next, now) <= Holders(books, now))
            && (WritesLate(books, prices, e, now) ==>
                  Holders(next, now) == Holders(books, now) + {Asked(books, prices, e, now).0.account})
  {
    var next := Delivered(books, prices, e, now).0;
    var (change, ref) := Asked(books, prices, e, now);
    CompletionsOnlyRelease(books.checkouts, ref, now);
  }

  /** An event breaks the cap exactly when it converts late while every place is held. */
  lemma EventKeepsCapExact(books: Books, prices: seq<Price>, e: Event, now: Time)
    requires IdsUnique(books.subs) && |Holders(books, now)| <= FOUNDING_CAP
    ensures |Holders(Delivered(books, prices, e, now).0, now)| <= FOUNDING_CAP
            <==> !(LateConversion(books, prices, e, now) && |Holders(books, now)| == FOUNDING_CAP)
  {
    LateExact(books, prices, e, now);
    HoldersAfterEvent(books, prices, e, now);
    if !WritesLate(books, prices, e, now) {
      SubsetSize(Holders(Delivered(books, prices, e, now).0, now), Holders(books, now));
    }
  }

  /** No event of the run converts late while every place is held. */
  ghost predicate NoLateConversionWhenFull(books: Books, prices: seq<Price>, steps: seq<Step>)
    decreases |steps|
  {
    steps == []
    || ((steps[0].action.Deliver? && LateConversion(books, prices, steps[0].action.event, steps[0].now)
         ==> |Holders(books, steps[0].now)| < FOUNDING_CAP)
        && NoLateConversionWhenFull(After(books, prices, steps[0]), prices, steps[1..]))
  }

  /** Over every such run, at every moment, at most twenty accounts hold a founding place. */
  lemma {:induction false} FoundingCapHolds(books: Books, prices: seq<Price>, steps: seq<Step>, from: Time, to: Time)
    requires Sound(books) && Clocked(from, steps) && |Holders(books, from)| <= FOUNDING_CAP
    requires NoLateConversionWhenFull(books, prices, steps)
    requires from <= to && forall i :: 0 <= i < |steps| ==> steps[i].now <= to
    ensures |Holders(Run(books, prices, steps), to)| <= FOUNDING_CAP
    decreases |steps|
  {
    if steps == [] {
      HoldsOnlyExpire(books, from, to);
    } else {
      var s := steps[0];
      HoldsOnlyExpire(books, from, s.now);
      match s.action {
        case Deliver(e) => EventKeepsCapExact(books, prices, e, s.now);
        case Open(r) => OpeningKeepsCap(books, prices, r, s.now);
      }
      StepKeeps(books, prices, s);
      FoundingCapHolds(After(books, prices, s), prices, steps[1..], s.now, to);
    }
  }

  /** After every step of the run, at most twenty accounts hold a place. */
  ghost predicate CapKept(books: Books, prices: seq<Price>, steps: seq<Step>)
    decreases |steps|
  {
    steps == []
    || (|Holders(After(books, prices, steps[0]), steps[0].now)| <= FOUNDING_CAP
        && CapKept(After(books, prices, steps[0]), prices, steps[1..]))
  }

  /** A run keeps the cap at every step exactly when no event of it converts late while every place is held. */
  lemma {:induction false} FoundingCapExact(books: Books, prices: seq<Price>, steps: seq<Step>, from: Time)
    requires Sound(books) && Clocked(from, steps) && |Holders(books, from)| <= FOUNDING_CAP
    ensures CapKept(books, prices, steps) <==> NoLateConversionWhenFull(books, prices, steps)
    decreases |steps|
  {
    if steps != [] {
      var s := steps[0];
      HoldsOnlyExpire(books, from, s.now);
      match s.action {
        case Deliver(e) => EventKeepsCapExact(books, prices, e, s.now);
        case Open(r) => OpeningKeepsCap(books, prices, r, s.now);
      }
      if |Holders(After(books, prices, s), s.now)| <= FOUNDING_CAP {
        StepKeeps(books, prices, s);
        FoundingCapExact(After(books, prices, s), prices, steps[1..], s.now);
      }
    }
  }
}
