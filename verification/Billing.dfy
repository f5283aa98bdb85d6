/**
  Subscriptions bought through the payment provider (backend/dgate/billing.py).

  The provider's events arrive duplicated and in any order; a capped number of founding places is held
  for a while by open checkouts. `Ledger` holds the tables and updates them as the code does, and the
  functions on `Books`, a snapshot of them, say what one event or one checkout leaves behind.

  An event is modelled as it stands after its body has been read: ids that do not have the shape of an
  id, unknown states and unreadable dates are already absent.
 */
module Billing {
  import opened Wrappers

  type Account = nat
  type Ref = nat
  type Time = int

  datatype Plan = Pro | Team | Consultant | Founding
  datatype Period = Monthly | Yearly
  datatype Status =
    Active | Trialing | PastDue | Unpaid | Paused | ScheduledCancel | Canceled | Expired | Disputed

  const HOUR: Time := 3600
  const DAY: Time := 24 * HOUR
  const FOUNDING_CAP: nat := 20
  const FOUNDING_HOLD: Time := HOUR
  const CHECKOUTS_PER_HOUR: nat := 5
  const EVENT_MAX_AGE: Time := 25 * HOUR
  const EVENT_MAX_SKEW: Time := 300
  const EVENT_KEPT: Time := 30 * DAY

  // ------------------------------------------------------------------ entitlement

  predicate Entitling(s: Status) {
    s.Active? || s.Trialing? || s.PastDue?
  }

  /** `ENDED`. */
  predicate Ended(s: Status) {
    s.Canceled? || s.Expired?
  }

  /** `over`: the provider can charge the subscription no more. */
  predicate Over(status: Option<Status>, periodEnd: Option<Time>, now: Time) {
    if status.None? || Ended(status.value) then true
    else status.value.ScheduledCancel? && periodEnd.Some? && periodEnd.value <= now
  }

  function Rank(p: Option<Plan>): nat {
    match p
    case None => 0
    case Some(Pro) => 1
    case Some(Founding) => 1
    case Some(Team) => 2
    case Some(Consultant) => 3
  }

  function SubscriptionPlan(plan: Option<Plan>, status: Option<Status>, periodEnd: Option<Time>, now: Time): Option<Plan> {
    if plan.None? || status.None? then None
    else if Entitling(status.value) then plan
    else if status.value.ScheduledCancel? then
      (if periodEnd.None? || periodEnd.value > now then plan else None)
    else None
  }

  /** A plan that has the team workspace. */
  function WithWorkspace(p: Option<Plan>): Option<Plan> {
    if p == Some(Team) || p == Some(Consultant) then p else None
  }

  function LargestPlan(sub: Option<Plan>, association: Option<Plan>, workspace: Option<Plan>): Option<Plan> {
    var best := if Rank(association) > Rank(sub) then association else sub;
    var ws := WithWorkspace(workspace);
    if Rank(ws) > Rank(best) then ws else best
  }

  /** The plan is paid for: it runs, or it is canceled for a later time or for one not stated. */
  predicate Grants(status: Status, periodEnd: Option<Time>, now: Time) {
    match status
    case Active | Trialing | PastDue => true
    case ScheduledCancel => periodEnd.None? || now < periodEnd.value
    case Unpaid | Paused | Canceled | Expired | Disputed => false
  }

  /** The provider may still charge: in every status but the ended ones, and until a canceled period ends. */
  predicate MayCharge(status: Status, periodEnd: Option<Time>, now: Time) {
    match status
    case Active | Trialing | PastDue | Unpaid | Paused | Disputed => true
    case ScheduledCancel => periodEnd.None? || now < periodEnd.value
    case Canceled | Expired => false
  }

  /** Free is below every plan, Pro and Founding are one step, Team and Consultant the next two. */
  predicate Below(p: Option<Plan>, q: Option<Plan>) {
    match (p, q)
    case (None, Some(_)) => true
    case (Some(x), Some(y)) =>
      ((x == Pro || x == Founding) && (y == Team || y == Consultant)) || (x == Team && y == Consultant)
    case _ => false
  }

  /** What the owner's plan lends the workspace. */
  predicate Lent(workspace: Option<Plan>, p: Option<Plan>) {
    p.Some? && p == workspace && (p == Some(Team) || p == Some(Consultant))
  }

  /** The subscription grants its plan exactly in three statuses, and in the canceled one until the period ends. */
  lemma OwnPlanExact(plan: Option<Plan>, status: Option<Status>, periodEnd: Option<Time>, now: Time)
    ensures SubscriptionPlan(plan, status, periodEnd, now)
            == if plan.Some? && status.Some? && Grants(status.value, periodEnd, now) then plan else None
    ensures LargestPlan(SubscriptionPlan(plan, status, periodEnd, now), None, None) == SubscriptionPlan(plan, status, periodEnd, now)
    ensures Over(status, periodEnd, now) <==> status.None? || !MayCharge(status.value, periodEnd, now)
  {
  }

  /** The plan is one of the three, none of the three is above it, and of equal ones the subscription's own stands before
      the association's and that before the workspace's. */
  ghost predicate IsLargest(own: Option<Plan>, association: Option<Plan>, workspace: Option<Plan>, best: Option<Plan>) {
    && (best == own || best == association || Lent(workspace, best))
    && !Below(best, own) && !Below(best, association) && (Lent(workspace, workspace) ==> !Below(best, workspace))
    && (!Below(own, best) ==> best == own)
    && (!Below(association, best) ==> best == own || best == association)
  }

  lemma LargestExact(own: Option<Plan>, association: Option<Plan>, workspace: Option<Plan>, best: Option<Plan>)
    ensures best == LargestPlan(own, association, workspace) <==> IsLargest(own, association, workspace, best)
  {
  }

  /** `plan_in_force`; None is the free plan. */
  method PlanInForce(plan: Option<Plan>, status: Option<Status>, periodEnd: Option<Time>, now: Time,
                     association: Option<Plan>, workspace: Option<Plan>) returns (best: Option<Plan>)
    ensures best == LargestPlan(SubscriptionPlan(plan, status, periodEnd, now), association, workspace)
    ensures IsLargest(if plan.Some? && status.Some? && Grants(status.value, periodEnd, now) then plan else None,
                      association, workspace, best)
  {
    OwnPlanExact(plan, status, periodEnd, now);
    best := SubscriptionPlan(plan, status, periodEnd, now);
    var others := [association, WithWorkspace(workspace)];
    for i := 0 to 2
      invariant i == 0 ==> best == SubscriptionPlan(plan, status, periodEnd, now)
      invariant i == 1 ==> best == if Rank(association) > Rank(SubscriptionPlan(plan, status, periodEnd, now))
                                   then association else SubscriptionPlan(plan, status, periodEnd, now)
      invariant i == 2 ==> best == LargestPlan(SubscriptionPlan(plan, status, periodEnd, now), association, workspace)
    {
      if Rank(others[i]) > Rank(best) {
        best := others[i];
      }
    }
    LargestExact(SubscriptionPlan(plan, status, periodEnd, now), association, workspace, best);
  }

  /** A subscription that is over stays over, and grants nothing by itself. */
  lemma OverIsFinal(plan: Option<Plan>, status: Option<Status>, periodEnd: Option<Time>, now: Time, later: Time)
    requires Over(status, periodEnd, now) && now <= later
    ensures Over(status, periodEnd, later)
    ensures SubscriptionPlan(plan, status, periodEnd, later) == None
  {
  }

  // ------------------------------------------------------------------ tables

  datatype Checkout = Checkout(
    account: Account, plan: Plan, period: Period, product: string,
    provider: Option<string>, created: Time, completed: Option<Time>)

  datatype Subscription = Subscription(
    plan: Plan, period: Period, status: Status, customer: Option<string>, id: Option<string>,
    periodEnd: Option<Time>, refunded: Option<Time>, lastAt: Time)

  /** `events` maps each event id seen to when it was received. */
  datatype Books = Books(
    checkouts: map<Ref, Checkout>, subs: map<Account, Subscription>, events: map<string, Time>, nextRef: Ref)

  /** The price list: the provider's product of each plan and period on sale. */
  datatype Price = Price(plan: Plan, period: Period, product: string)

  function ProductOf(prices: seq<Price>, plan: Plan, period: Period): Option<string> {
    if prices == [] then None
    else if prices[0].plan == plan && prices[0].period == period then Some(prices[0].product)
    else ProductOf(prices[1..], plan, period)
  }

  function PlanFor(prices: seq<Price>, product: Option<string>): Option<(Plan, Period)> {
    if prices == [] then None
    else if Some(prices[0].product) == product then Some((prices[0].plan, prices[0].period))
    else PlanFor(prices[1..], product)
  }

  datatype Body =
    | CheckoutCompleted(provider: Option<string>, notCompleted: bool)
    | SubscriptionChanged
    | Refund(canceled: bool)
    | Dispute
    | OtherEvent

  /** An event: its id and time, and what its body states, whatever its kind. */
  datatype Event = Event(
    id: string, at: Time, body: Body, named: Option<(Ref, Account)>, product: Option<string>,
    customer: Option<string>, sub: Option<string>, status: Option<Status>, periodEnd: Option<Time>)

  datatype Outcome =
    | Applied | Unmatched | SecondSubscription | Older | CustomerMismatch | Ignored | Duplicate
    | Refused   // outside the accepted time window
    | Clash     // the row would break a unique index: the transaction is rolled back

  // ------------------------------------------------------------------ one event, as one change

  function HeldRow(subs: map<Account, Subscription>, a: Account): Option<Subscription> {
    if a in subs then Some(subs[a]) else None
  }

  /** `_write`: one row an account; what the event does not state is kept. */
  function Written(held: Option<Subscription>, plan: Plan, period: Period, status: Status, customer: Option<string>,
                   sub: Option<string>, periodEnd: Option<Time>, at: Time, refunded: bool): Subscription {
    var stamp := if refunded then Some(at) else None;
    match held
    case None => Subscription(plan, period, status, customer, sub, periodEnd, stamp, at)
    case Some(row) =>
      Subscription(plan, period, status, customer.Or(row.customer), sub.Or(row.id),
                   periodEnd.Or(row.periodEnd), stamp.Or(row.refunded), at)
  }

  /** Whether another account's row already has this subscription id. */
  predicate Taken(subs: map<Account, Subscription>, a: Account, id: Option<string>) {
    id.Some? && exists b :: b in subs && b != a && subs[b].id == id
  }

  /** `_our_checkout`: the checkout opened here that the event names with its account and its product. */
  function OurCheckout(books: Books, named: Option<(Ref, Account)>, product: Option<string>): Option<Ref> {
    if named.Some? && named.value.0 in books.checkouts
       && books.checkouts[named.value.0].account == named.value.1
       && product == Some(books.checkouts[named.value.0].product)
    then Some(named.value.0) else None
  }

  /** `_subscription_row`. */
  ghost function RowOf(subs: map<Account, Subscription>, sub: Option<string>): Option<Account> {
    if sub.Some? && exists a :: a in subs && subs[a].id == sub
    then Some(var a :| a in subs && subs[a].id == sub; a) else None
  }

  datatype Change = Keep(outcome: Outcome) | Write(account: Account, row: Subscription)

  /** What a completed checkout does to the account's row. */
  function CompletionChange(books: Books, e: Event, c: Checkout, now: Time): Change {
    var live := HeldRow(books.subs, c.account);
    if live.Some? && live.value.id.Some? && live.value.id != e.sub
       && !Over(Some(live.value.status), live.value.periodEnd, now) then Keep(SecondSubscription)
    else if live.Some? && live.value.id == e.sub && live.value.lastAt > e.at then Keep(Older)
    else Write(c.account, Written(live, c.plan, c.period, e.status.GetOr(Active), e.customer, e.sub, e.periodEnd, e.at, false))
  }

  /** What a subscription event does, given the account whose row has its id. */
  function SubscriptionChange(books: Books, prices: seq<Price>, e: Event, holder: Option<Account>, now: Time): Change
    requires holder.Some? ==> holder.value in books.subs
  {
    match holder
    case None =>
      var ref := OurCheckout(books, e.named, e.product);
      if ref.None? || e.status.None? then Keep(Unmatched)
      else
        var c := books.checkouts[ref.value];
        var live := HeldRow(books.subs, c.account);
        if live.Some? && live.value.id.Some? && !Over(Some(live.value.status), live.value.periodEnd, now)
        then Keep(SecondSubscription)
        else Write(c.account, Written(live, c.plan, c.period, e.status.value, e.customer, e.sub, e.periodEnd, e.at, false))
    case Some(a) =>
      var row := books.subs[a];
      if row.customer.Some? && e.customer.Some? && row.customer != e.customer then Keep(CustomerMismatch)
      else if row.lastAt > e.at then Keep(Older)
      else
        var (plan, period) := PlanFor(prices, e.product).GetOr((row.plan, row.period));
        Write(a, Written(Some(row), plan, period, e.status.GetOr(row.status), e.customer, e.sub, e.periodEnd, e.at, false))
  }

  function RefundChange(books: Books, e: Event, holder: Option<Account>): Change
    requires holder.Some? ==> holder.value in books.subs
  {
    match holder
    case None => Keep(Unmatched)
    case Some(a) =>
      var row := books.subs[a];
      if row.lastAt > e.at then Keep(Older)
      else
        var status := if e.body.Dispute? then Disputed
                      else if e.body.Refund? && e.body.canceled then Canceled else row.status;
        Write(a, Written(Some(row), row.plan, row.period, status, None, None, None, e.at, e.body.Refund?))
  }

  /** The change an event asks for, and the checkout it completes. */
  ghost function Asked(books: Books, prices: seq<Price>, e: Event, now: Time): (Change, Option<Ref>) {
    match e.body
    case CheckoutCompleted(provider, notCompleted) =>
      var ref := OurCheckout(books, e.named, e.product);
      if ref.None? || books.checkouts[ref.value].provider != provider || notCompleted then (Keep(Unmatched), None)
      else (CompletionChange(books, e, books.checkouts[ref.value], now), ref)
    case SubscriptionChanged => (SubscriptionChange(books, prices, e, RowOf(books.subs, e.sub), now), None)
    case OtherEvent => (Keep(Ignored), None)
    case _ => (RefundChange(books, e, RowOf(books.subs, e.sub)), None)
  }

  function Completed(checkouts: map<Ref, Checkout>, ref: Option<Ref>, now: Time): map<Ref, Checkout> {
    if ref.Some? && ref.value in checkouts
    then checkouts[ref.value := checkouts[ref.value].(completed := Some(checkouts[ref.value].completed.GetOr(now)))]
    else checkouts
  }

  /** `apply_event`: the event id first, then the change, in one transaction. */
  ghost function AfterEvent(books: Books, prices: seq<Price>, e: Event, now: Time): (Books, Outcome) {
    if e.id in books.events then (books, Duplicate)
    else
      var (change, ref) := Asked(books, prices, e, now);
      var seen := books.(events := books.events[e.id := now], checkouts := Completed(books.checkouts, ref, now));
      match change
      case Keep(outcome) => (seen, outcome)
      case Write(a, row) =>
        if Taken(books.subs, a, row.id) then (books, Clash) else (seen.(subs := books.subs[a := row]), Applied)
  }

  /** `prune_events`. */
  function Pruned(events: map<string, Time>, now: Time): map<string, Time> {
    map id | id in events && events[id] >= now - EVENT_KEPT :: events[id]
  }

  /** `parse_event`: the clock of an event is its own time. */
  predicate Accepted(e: Event, now: Time) {
    now - EVENT_MAX_AGE <= e.at <= now + EVENT_MAX_SKEW
  }

  /** One delivery of the webhook. */
  ghost function Delivered(books: Books, prices: seq<Price>, e: Event, now: Time): (Books, Outcome) {
    if !Accepted(e, now) then (books, Refused)
    else
      var (next, outcome) := AfterEvent(books, prices, e, now);
      if outcome == Clash then (books, Clash) else (next.(events := Pruned(next.events, now)), outcome)
  }

  // ------------------------------------------------------------------ opening a checkout

  predicate HoldsPlace(c: Checkout, now: Time) {
    c.plan == Founding && c.completed.None? && c.created > now - FOUNDING_HOLD
  }

  function FoundingSubs(subs: map<Account, Subscription>): set<Account> {
    set a | a in subs && subs[a].plan == Founding && !Ended(subs[a].status)
  }

  function OthersHolding(checkouts: map<Ref, Checkout>, a: Account, now: Time): set<Ref> {
    set r | r in checkouts && HoldsPlace(checkouts[r], now) && checkouts[r].account != a
  }

  /** `founding_left`: rows are counted, of live subscriptions and of other accounts' open checkouts. */
  function FoundingLeft(books: Books, a: Account, now: Time): nat {
    var taken := |FoundingSubs(books.subs)| + |OthersHolding(books.checkouts, a, now)|;
    if taken <= FOUNDING_CAP then FOUNDING_CAP - taken else 0
  }

  function RecentCheckouts(checkouts: map<Ref, Checkout>, a: Account, now: Time): set<Ref> {
    set r | r in checkouts && checkouts[r].account == a && checkouts[r].created > now - HOUR
  }

  function PlanNow(books: Books, a: Account, association: Option<Plan>, workspace: Option<Plan>, now: Time): Option<Plan> {
    var row := HeldRow(books.subs, a);
    var sub := if row.Some? then SubscriptionPlan(Some(row.value.plan), Some(row.value.status), row.value.periodEnd, now) else None;
    LargestPlan(sub, association, workspace)
  }

  datatype CheckoutResult = Opened | NoSuchPlan | AlreadySubscribed | RateLimited | FoundingFull | ProviderFailed

  /** A request for a checkout. `answer` is the id the provider gave it, or None when it did not answer. */
  datatype Request = Request(
    account: Account, plan: Plan, period: Period, association: Option<Plan>, workspace: Option<Plan>,
    answer: Option<string>)

  function AfterRequest(books: Books, prices: seq<Price>, r: Request, now: Time): (Books, CheckoutResult) {
    var product := ProductOf(prices, r.plan, r.period);
    if product.None? then (books, NoSuchPlan)
    else if PlanNow(books, r.account, r.association, r.workspace, now).Some? then (books, AlreadySubscribed)
    else if |RecentCheckouts(books.checkouts, r.account, now)| >= CHECKOUTS_PER_HOUR then (books, RateLimited)
    else if r.plan == Founding && FoundingLeft(books, r.account, now) == 0 then (books, FoundingFull)
    else if r.answer.None? || (exists c :: c in books.checkouts && books.checkouts[c].provider == r.answer)
    then (books, ProviderFailed)
    else
      var added := Checkout(r.account, r.plan, r.period, product.value, r.answer, now, None);
      (books.(checkouts := books.checkouts[books.nextRef := added], nextRef := books.nextRef + 1), Opened)
  }

  // ------------------------------------------------------------------ the tables as they are updated

  ghost predicate IdsUnique(subs: map<Account, Subscription>) {
    forall a, b :: a in subs && b in subs && subs[a].id.Some? && subs[a].id == subs[b].id ==> a == b
  }

  lemma RowIsTheOne(subs: map<Account, Subscription>, a: Account)
    requires IdsUnique(subs) && a in subs && subs[a].id.Some?
    ensures RowOf(subs, subs[a].id) == Some(a)
  {
  }

  class Ledger {
    var checkouts: map<Ref, Checkout>
    var subs: map<Account, Subscription>
    var events: map<string, Time>
    var nextRef: Ref
    const prices: seq<Price>

    constructor (prices: seq<Price>)
      ensures State() == Books(map[], map[], map[], 0) && this.prices == prices
    {
      checkouts, subs, events, nextRef := map[], map[], map[], 0;
      this.prices := prices;
    }

    function State(): Books
      reads this
    {
      Books(checkouts, subs, events, nextRef)
    }

    /** `_write`: false when the unique index on the subscription id refuses the row. */
    method WriteRow(a: Account, plan: Plan, period: Period, status: Status, customer: Option<string>,
                    sub: Option<string>, periodEnd: Option<Time>, at: Time, refunded: bool) returns (ok: bool)
      modifies this`subs
      ensures var row := Written(HeldRow(old(subs), a), plan, period, status, customer, sub, periodEnd, at, refunded);
              ok == !Taken(old(subs), a, row.id) && subs == if ok then old(subs)[a := row] else old(subs)
    {
      var stamp := if refunded then Some(at) else None;
      var row;
      if a !in subs {
        row := Subscription(plan, period, status, customer, sub, periodEnd, stamp, at);
      } else {
        var held := subs[a];
        row := held.(plan := plan, period := period, status := status, lastAt := at);
        row := row.(customer := customer.Or(held.customer), id := sub.Or(held.id));
        row := row.(periodEnd := periodEnd.Or(held.periodEnd), refunded := stamp.Or(held.refunded));
      }
      if row.id.Some? && exists b :: b in subs && b != a && subs[b].id == row.id {
        return false;
      }
      subs := subs[a := row];
      return true;
    }

    /** The account whose row has this subscription id. */
    method FindRow(sub: Option<string>) returns (holder: Option<Account>)
      requires IdsUnique(subs)
      ensures holder == RowOf(subs, sub) && (holder.Some? ==> holder.value in subs)
    {
      if sub.Some? && exists a :: a in subs && subs[a].id == sub {
        var a :| a in subs && subs[a].id == sub;
        RowIsTheOne(subs, a);
        return Some(a);
      }
      return None;
    }

    /** `_checkout_completed`. */
    method CompleteCheckout(e: Event, now: Time) returns (outcome: Outcome)
      requires e.body.CheckoutCompleted?
      modifies this`checkouts, this`subs
      ensures Reflects(old(State()), e, now, outcome)
    {
      var ref := OurCheckout(State(), e.named, e.product);
      if ref.None? || checkouts[ref.value].provider != e.body.provider || e.body.notCompleted {
        return Unmatched;
      }
      var c := checkouts[ref.value];
      checkouts := checkouts[ref.value := c.(completed := if c.completed.Some? then c.completed else Some(now))];
      if c.account in subs {
        var live := subs[c.account];
        if live.id.Some? && live.id != e.sub && !Over(Some(live.status), live.periodEnd, now) {
          return SecondSubscription;
        }
        if live.id == e.sub && live.lastAt > e.at {
          return Older;
        }
      }
      var ok := WriteRow(c.account, c.plan, c.period, e.status.GetOr(Active), e.customer, e.sub, e.periodEnd, e.at, false);
      return if ok then Applied else Clash;
    }

    /** `_subscription_event`. */
    method ChangeSubscription(e: Event, now: Time) returns (outcome: Outcome)
      requires e.body.SubscriptionChanged? && IdsUnique(subs)
      modifies this`subs
      ensures Reflects(old(State()), e, now, outcome)
    {
      var holder := FindRow(e.sub);
      if holder.None? {
        var ref := OurCheckout(State(), e.named, e.product);
        if ref.None? || e.status.None? {
          return Unmatched;
        }
        var c := checkouts[ref.value];
        if c.account in subs && subs[c.account].id.Some?
           && !Over(Some(subs[c.account].status), subs[c.account].periodEnd, now) {
          return SecondSubscription;
        }
        var ok := WriteRow(c.account, c.plan, c.period, e.status.value, e.customer, e.sub, e.periodEnd, e.at, false);
        return if ok then Applied else Clash;
      }
      var row := subs[holder.value];
      if row.customer.Some? && e.customer.Some? && row.customer != e.customer {
        return CustomerMismatch;
      }
      if row.lastAt > e.at {
        return Older;
      }
      var (plan, period) := PlanFor(prices, e.product).GetOr((row.plan, row.period));
      var ok := WriteRow(holder.value, plan, period, e.status.GetOr(row.status), e.customer, e.sub, e.periodEnd, e.at, false);
      return if ok then Applied else Clash;
    }

    /** `_refund_or_dispute`. */
    method RefundOrDispute(e: Event, now: Time) returns (outcome: Outcome)
      requires (e.body.Refund? || e.body.Dispute?) && IdsUnique(subs)
      modifies this`subs
      ensures Reflects(old(State()), e, now, outcome)
    {
      var holder := FindRow(e.sub);
      if holder.None? {
        return Unmatched;
      }
      var row := subs[holder.value];
      if row.lastAt > e.at {
        return Older;
      }
      var status := row.status;
      if e.body.Dispute? {
        status := Disputed;
      } else if e.body.canceled {
        status := Canceled;
      }
      var ok := WriteRow(holder.value, row.plan, row.period, status, None, None, None, e.at, e.body.Refund?);
      return if ok then Applied else Clash;
    }

    /** The change asked for was made, but for the event id and the rollback of a clash. */
    ghost predicate Reflects(before: Books, e: Event, now: Time, outcome: Outcome)
      reads this
    {
      var (change, ref) := Asked(before, prices, e, now);
      && checkouts == Completed(before.checkouts, ref, now)
      && match change
         case Keep(o) => outcome == o && subs == before.subs
         case Write(a, row) =>
           if Taken(before.subs, a, row.id) then outcome == Clash && subs == before.subs
           else outcome == Applied && subs == before.subs[a := row]
    }

    /** The change that the event's kind asks for. */
    method Dispatch(e: Event, now: Time) returns (outcome: Outcome)
      requires IdsUnique(subs)
      modifies this`checkouts, this`subs
      ensures Reflects(old(State()), e, now, outcome)
    {
      match e.body {
        case CheckoutCompleted(_, _) => outcome := CompleteCheckout(e, now);
        case SubscriptionChanged => outcome := ChangeSubscription(e, now);
        case Refund(_) => outcome := RefundOrDispute(e, now);
        case Dispute => outcome := RefundOrDispute(e, now);
        case OtherEvent => outcome := Ignored;
      }
    }

    /** `apply_event`, and the rollback of its transaction on a clash. */
    method ApplyEvent(e: Event, now: Time) returns (outcome: Outcome)
      requires IdsUnique(subs)
      modifies this`checkouts, this`subs, this`events
      ensures (State(), outcome) == AfterEvent(old(State()), prices, e, now)
    {
      if e.id in events {
        return Duplicate;
      }
      var before := State();
      events := events[e.id := now];
      AskedIgnoresEvents(before, State(), prices, e, now);
      outcome := Dispatch(e, now);
      if outcome == Clash {
        checkouts, subs, events := before.checkouts, before.subs, before.events;
      }
    }

    /** One delivery of the webhook: the age check, the event, the pruning of old event ids. */
    method Webhook(e: Event, now: Time) returns (outcome: Outcome)
      requires IdsUnique(subs)
      modifies this`checkouts, this`subs, this`events
      ensures (State(), outcome) == Delivered(old(State()), prices, e, now)
    {
      if e.at < now - EVENT_MAX_AGE || e.at > now + EVENT_MAX_SKEW {
        return Refused;
      }
      outcome := ApplyEvent(e, now);
      if outcome != Clash {
        events := Pruned(events, now);
      }
    }

    /** `create_checkout`: the provider's failure rolls the row back. */
    method CreateCheckout(r: Request, now: Time) returns (result: CheckoutResult)
      modifies this`checkouts, this`nextRef
      ensures (State(), result) == AfterRequest(old(State()), prices, r, now)
    {
      var product := ProductOf(prices, r.plan, r.period);
      if product.None? {
        return NoSuchPlan;
      }
      var plan: Option<Plan>;
      if r.account in subs {
        var row := subs[r.account];
        plan := PlanInForce(Some(row.plan), Some(row.status), row.periodEnd, now, r.association, r.workspace);
      } else {
        plan := PlanInForce(None, None, None, now, r.association, r.workspace);
      }
      if plan.Some? {
        return AlreadySubscribed;
      }
      if |RecentCheckouts(checkouts, r.account, now)| >= CHECKOUTS_PER_HOUR {
        return RateLimited;
      }
      if r.plan == Founding && FoundingLeft(State(), r.account, now) == 0 {
        return FoundingFull;
      }
      if r.answer.None? || exists c :: c in checkouts && checkouts[c].provider == r.answer {
        return ProviderFailed;
      }
      checkouts := checkouts[nextRef := Checkout(r.account, r.plan, r.period, product.value, r.answer, now, None)];
      nextRef := nextRef + 1;
      return Opened;
    }
  }

  lemma AskedIgnoresEvents(a: Books, b: Books, prices: seq<Price>, e: Event, now: Time)
    requires a.checkouts == b.checkouts && a.subs == b.subs
    ensures Asked(a, prices, e, now) == Asked(b, prices, e, now)
  {
  }
}
