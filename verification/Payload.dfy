/**
  A record written as a payload and read back (backend/dgate/db.py, `opportunity_payload`,
  `opportunity_from_payload`; backend/dgate/normalise.py, `Opportunity.__post_init__`, `http_url`).
 */
module Payload {
  import opened Wrappers

  // ------------------------------------------------------------------ records and payloads

  datatype Field =
    | SourceCode | NativeId | BuyerNameRaw | TitleOriginal | BuyerIdentifier | Country | OriginalLanguage | TitleEn
    | SummaryEn | ProcedureType | LegalBasis | ValueAmount | ValueCurrency | PublishedAt | DeadlineAt | CpvCodes
    | SourceUrl | NoticeVersion | BuyerOrgId | Status | StatusNative | TedRef | RelatedNativeId | SourceUpdatedAt
    | NoticeSubtype | ProcedureIdentifier | LotCount | ValueKind | NoticeDate | NoticeKind | OtherBuyers | DocumentsUrl
    | ContractStart | ContractEnd | ContractDuration | ContractDurationUnit | ContractRenewal | ContractRenewalsMax
    | IsDefence | SigLegalBasis | SigCpv | SigBuyer | SigClearance | SigCpvMilitary | SigCpvAdjacent | SigLinkedDefence
    | DualUse | BuyerClass | SecurityClearanceRequired | NdaRequired | SubcontractingSignal | Description

  /** The days of Python's `date`, from 1 January of year 1 to 31 December of year 9999, numbered as `toordinal` does. */
  const LAST_DAY := 3652059

  type DayNumber = d: int | 1 <= d <= LAST_DAY witness 1

  /** What an attribute holds in memory; a moment is numbered. */
  datatype Value =
    | Null
    | Text(text: string)
    | Flag(flag: bool)
    | Number(number: real)
    | Decimal(decimal: real)
    | Day(day: DayNumber)
    | Moment(moment: nat)
    | Items(items: seq<string>)
    | Tuple(items: seq<string>)

  /** What a payload holds. */
  datatype Json = JNull | JText(text: string) | JFlag(flag: bool) | JNumber(number: real) | JItems(items: seq<string>)

  datatype Key = Known(field: Field) | Unknown(name: string)

  type Record = map<Field, Value>
  type PayloadMap = map<Key, Json>

  /** The library calls underneath: the ISO spellings, what a link and a blank are, what the classifier reads in codes. */
  datatype Library = Library(
    printDay: DayNumber -> string, readDay: string -> Option<DayNumber>,
    printMoment: nat -> string, readMoment: string -> Option<nat>,
    blank: char -> bool, link: string -> bool, military: Json -> (bool, bool))

  /** A printed day has ten characters and reads back; a printed moment has no Z and reads back. */
  ghost predicate Faithful(lib: Library) {
    && (forall d: DayNumber :: |lib.printDay(d)| == 10 && lib.readDay(lib.printDay(d)) == Some(d))
    && (forall t: nat :: 'Z' !in lib.printMoment(t) && lib.readMoment(lib.printMoment(t)) == Some(t))
  }

  // ------------------------------------------------------------------ a library that is faithful

  function Digits(d: nat, n: nat): string {
    if n == 0 then "" else Digits(d / 10, n - 1) + [('0' as int + d % 10) as char]
  }

  /** Ten to the power of `n`. */
  function Power(n: nat): nat {
    if n == 0 then 1 else 10 * Power(n - 1)
  }

  function FromDigits(s: string): nat {
    if s == "" then 0
    else
      var c := s[|s| - 1] as int - '0' as int;
      10 * FromDigits(s[..|s| - 1]) + (if 0 <= c <= 9 then c else 0)
  }

  lemma {:induction false} DigitsReadBack(d: nat, n: nat)
    requires d < Power(n)
    ensures |Digits(d, n)| == n && FromDigits(Digits(d, n)) == d
  {
    if n > 0 {
      DigitsReadBack(d / 10, n - 1);
      var s := Digits(d, n);
      assert s[..|s| - 1] == Digits(d / 10, n - 1);
    }
  }

  function ReadDays(s: string): Option<DayNumber> {
    if 1 <= FromDigits(s) <= LAST_DAY then Some(FromDigits(s)) else None
  }

  /** Days as ten digits, moments as a row of strokes. */
  function Plainest(): Library {
    Library((d: DayNumber) => Digits(d, 10), ReadDays,
            (t: nat) => seq(11 + t, _ => '|'), (s: string) => if |s| >= 11 then Some(|s| - 11) else None,
            (c: char) => c == ' ', (s: string) => true, (j: Json) => (false, false))
  }

  lemma DayReadsBack(d: DayNumber)
    ensures |Digits(d, 10)| == 10 && ReadDays(Digits(d, 10)) == Some(d)
  {
    assert Power(5) == 100000;
    assert Power(10) == 100000 * 100000;
    DigitsReadBack(d, 10);
  }

  /** What is asked of the library can be met. */
  lemma SomeLibraryIsFaithful()
    ensures Faithful(Plainest())
  {
    var lib := Plainest();
    forall d: DayNumber ensures |lib.printDay(d)| == 10 && lib.readDay(lib.printDay(d)) == Some(d) {
      DayReadsBack(d);
    }
  }

  datatype Kind = DayField | MomentField | Plain

  function KindOf(f: Field): Kind {
    match f
    case PublishedAt | NoticeDate | ContractStart | ContractEnd => DayField
    case DeadlineAt | SourceUpdatedAt => MomentField
    case _ => Plain
  }

  /** When a key is left out of the payload. */
  datatype Rule = Kept | LeftOutIfNull | LeftOutIfEmpty | LeftOut

  function RuleOf(f: Field): Rule {
    match f
    case SigCpvMilitary | SigCpvAdjacent => LeftOut
    case SigLinkedDefence | DualUse | BuyerClass | OtherBuyers => LeftOutIfEmpty
    case TedRef | RelatedNativeId | SourceUpdatedAt | BuyerIdentifier | NoticeSubtype | ProcedureIdentifier => LeftOutIfNull
    case LotCount | ValueKind | NoticeDate | NoticeKind | DocumentsUrl => LeftOutIfNull
    case ContractStart | ContractEnd | ContractDuration | ContractDurationUnit => LeftOutIfNull
    case ContractRenewal | ContractRenewalsMax => LeftOutIfNull
    case _ => Kept
  }

  function Default(f: Field): Value {
    match f
    case CpvCodes => Items([])
    case Status => Text("unknown")
    case IsDefence | SigLegalBasis | SigCpv | SigBuyer | SigClearance | SigCpvMilitary | SigCpvAdjacent => Flag(false)
    case SigLinkedDefence | DualUse | SecurityClearanceRequired | NdaRequired | SubcontractingSignal => Flag(false)
    case _ => Null
  }

  predicate Required(f: Field) {
    f == SourceCode || f == NativeId || f == BuyerNameRaw || f == TitleOriginal
  }

  predicate Falsy(j: Json) {
    j == JNull || j == JText("") || j == JFlag(false) || j == JNumber(0.0) || j == JItems([])
  }

  // ------------------------------------------------------------------ writing

  /** `_jsonable`. */
  function ToJson(lib: Library, v: Value): Json {
    match v
    case Null => JNull
    case Text(s) => JText(s)
    case Flag(b) => JFlag(b)
    case Number(x) => JNumber(x)
    case Decimal(x) => JNumber(x)
    case Day(d) => JText(lib.printDay(d))
    case Moment(t) => JText(lib.printMoment(t))
    case Items(vs) => JItems(vs)
    case Tuple(vs) => JItems(vs)
  }

  predicate Written(f: Field, j: Json) {
    match RuleOf(f)
    case Kept => true
    case LeftOutIfNull => j != JNull
    case LeftOutIfEmpty => !Falsy(j)
    case LeftOut => false
  }

  ghost predicate Complete(r: Record) {
    forall f: Field :: f in r
  }

  /** `opportunity_payload`. */
  function Print(lib: Library, r: Record): PayloadMap {
    map f | f in r && Written(f, ToJson(lib, r[f])) :: Known(f) := ToJson(lib, r[f])
  }

  // ------------------------------------------------------------------ reading

  function ZuluSpelt(s: string): string {
    if s == "" then "" else (if s[0] == 'Z' then "+00:00" else [s[0]]) + ZuluSpelt(s[1..])
  }

  /** One value of the payload; None where the text is no date. */
  function FromJson(lib: Library, f: Field, j: Json): Option<Value> {
    match j
    case JNull => Some(Null)
    case JFlag(b) => Some(Flag(b))
    case JNumber(x) => Some(Number(x))
    case JItems(vs) => Some(Items(vs))
    case JText(s) =>
      match KindOf(f)
      case Plain => Some(Text(s))
      case DayField =>
        var d := lib.readDay(if |s| < 10 then s else s[..10]);
        if d.None? then None else Some(Day(d.value))
      case MomentField =>
        var t := lib.readMoment(ZuluSpelt(s));
        if t.None? then None else Some(Moment(t.value))
  }

  function StripLeft(lib: Library, s: string): string {
    if s != "" && lib.blank(s[0]) then StripLeft(lib, s[1..]) else s
  }

  function StripRight(lib: Library, s: string): string {
    if s != "" && lib.blank(s[|s| - 1]) then StripRight(lib, s[..|s| - 1]) else s
  }

  /** `http_url`. */
  function HttpUrl(lib: Library, v: Value): Value {
    if !v.Text? then Null
    else
      var text := StripRight(lib, StripLeft(lib, v.text));
      if text == "" || (exists c :: c in text && (c < 32 as char || lib.blank(c))) || !lib.link(text) then Null
      else Text(text)
  }

  function Truthy(lib: Library, v: Value): bool {
    !Falsy(ToJson(lib, v))
  }

  /** `Opportunity.__post_init__`. */
  function Built(lib: Library, r: Record): Record
    requires Complete(r)
  {
    var linked := r[SourceUrl := HttpUrl(lib, r[SourceUrl])];
    if Truthy(lib, r[CpvCodes]) && !Truthy(lib, r[SigCpvMilitary]) && !Truthy(lib, r[SigCpvAdjacent]) then
      var (military, adjacent) := lib.military(ToJson(lib, r[CpvCodes]));
      linked[SigCpvMilitary := Flag(military)][SigCpvAdjacent := Flag(adjacent)]
    else linked
  }

  datatype Loading = Loaded(record: Record) | Unreadable | Missing(fields: set<Field>)

  /** Some value of the payload is no date where a date is meant. */
  predicate Illegible(lib: Library, p: PayloadMap) {
    exists k :: k in p && k.Known? && FromJson(lib, k.field, p[k]).None?
  }

  function Absent(p: PayloadMap): set<Field> {
    set f: Field | Required(f) && Known(f) !in p
  }

  function Values(lib: Library, p: PayloadMap): Record
    requires !Illegible(lib, p)
  {
    map f: Field | true :: if Known(f) in p then FromJson(lib, f, p[Known(f)]).GetOr(Null) else Default(f)
  }

  /** `opportunity_from_payload`. */
  function Load(lib: Library, p: PayloadMap): Loading {
    if Illegible(lib, p) then Unreadable
    else if Absent(p) != {} then Missing(Absent(p))
    else Loaded(Built(lib, Values(lib, p)))
  }

  // ------------------------------------------------------------------ the code

  method WritePayload(lib: Library, r: Record) returns (payload: PayloadMap)
    ensures payload == Print(lib, r)
  {
    payload := map f | f in r :: Known(f) := ToJson(lib, r[f]);
    var left := r.Keys;
    while left != {}
      invariant left <= r.Keys
      invariant payload == map f | f in r && (f in left || Written(f, ToJson(lib, r[f]))) :: Known(f) := ToJson(lib, r[f])
      decreases left
    {
      var f :| f in left;
      if !Written(f, payload[Known(f)]) {
        payload := payload - {Known(f)};
      }
      left := left - {f};
    }
  }

  method ReadPayload(lib: Library, p: PayloadMap) returns (loading: Loading)
    ensures loading == Load(lib, p)
  {
    var values: Record := map[];
    var left := p.Keys;
    while left != {}
      invariant left <= p.Keys
      invariant forall k :: k in p && k !in left && k.Known? ==> FromJson(lib, k.field, p[k]).Some?
      invariant forall f: Field :: f in values <==> Known(f) in p && Known(f) !in left
      invariant forall f :: f in values ==> FromJson(lib, f, p[Known(f)]) == Some(values[f])
      decreases left
    {
      var key :| key in left;
      if key.Known? {
        var v := FromJson(lib, key.field, p[key]);
        if v.None? {
          return Unreadable;
        }
        values := values[key.field := v.value];
      }
      left := left - {key};
    }
    var missing := set f: Field | Required(f) && f !in values;
    assert missing == Absent(p);
    if missing != {} {
      return Missing(missing);
    }
    var all := map f: Field | true :: if f in values then values[f] else Default(f);
    assert all == Values(lib, p);
    loading := Loaded(Built(lib, all));
  }

  // ------------------------------------------------------------------ what was written reads back

  /** A day's field holds no moment and no spelling of a day, a moment's no day and no spelling. */
  ghost predicate DatedRight(r: Record)
    requires Complete(r)
  {
    forall f: Field :: f in r ==> FitsKind(f, r[f])
  }

  predicate FitsKind(f: Field, v: Value) {
    match KindOf(f)
    case DayField => !v.Text? && !v.Moment?
    case MomentField => !v.Text? && !v.Day?
    case Plain => true
  }

  /** The record's link is one `http_url` has let through, as it is in every record since it was built. */
  predicate LinkSettled(lib: Library, r: Record)
    requires Complete(r)
  {
    HttpUrl(lib, r[SourceUrl]) == r[SourceUrl]
  }

  lemma {:induction false} NoZulu(s: string)
    requires 'Z' !in s
    ensures ZuluSpelt(s) == s
  {
    if s != "" {
      assert s[0] in s && forall c :: c in s[1..] ==> c in s;
      NoZulu(s[1..]);
      assert s == [s[0]] + s[1..];
    }
  }

  /** A written value reads back as one that is written the same. */
  lemma WrittenReadsBack(lib: Library, f: Field, v: Value)
    requires Faithful(lib) && FitsKind(f, v)
    ensures FromJson(lib, f, ToJson(lib, v)).Some?
    ensures ToJson(lib, FromJson(lib, f, ToJson(lib, v)).value) == ToJson(lib, v)
    ensures FromJson(lib, f, ToJson(lib, v)).value == v <==>
              !v.Decimal? && !v.Tuple? && (KindOf(f) == Plain ==> !v.Day? && !v.Moment?)
  {
    match v
    case Moment(t) => NoZulu(lib.printMoment(t));
    case Day(d) => assert lib.printDay(d)[..10] == lib.printDay(d);
    case _ =>
  }

  /** What a field holds after the record is written and read. */
  function Reread(lib: Library, f: Field, v: Value): Value {
    if Written(f, ToJson(lib, v)) then FromJson(lib, f, ToJson(lib, v)).GetOr(Null) else Default(f)
  }

  lemma RereadIsWrittenTheSame(lib: Library, f: Field, v: Value)
    requires Faithful(lib) && FitsKind(f, v)
    ensures Written(f, ToJson(lib, Reread(lib, f, v))) <==> Written(f, ToJson(lib, v))
    ensures Written(f, ToJson(lib, v)) ==> ToJson(lib, Reread(lib, f, v)) == ToJson(lib, v)
  {
    WrittenReadsBack(lib, f, v);
  }

  lemma PrintedIsLegible(lib: Library, r: Record)
    requires Faithful(lib) && Complete(r) && DatedRight(r)
    ensures !Illegible(lib, Print(lib, r)) && Absent(Print(lib, r)) == {}
  {
    var p := Print(lib, r);
    forall k | k in p && k.Known? ensures FromJson(lib, k.field, p[k]).Some? {
      WrittenReadsBack(lib, k.field, r[k.field]);
    }
    forall f: Field | Required(f) ensures Known(f) in p {
      assert f in r && RuleOf(f) == Kept;
    }
  }

  /** Apart from the link and the two derived flags, building changes nothing. */
  lemma BuiltKeeps(lib: Library, values: Record, f: Field)
    requires Complete(values)
    ensures Complete(Built(lib, values))
    ensures RuleOf(f) != LeftOut && f != SourceUrl ==> Built(lib, values)[f] == values[f]
    ensures Built(lib, values)[SourceUrl] == HttpUrl(lib, values[SourceUrl])
  {
  }

  lemma BuiltPrintsTheSame(lib: Library, r: Record, values: Record)
    requires Faithful(lib) && Complete(r) && DatedRight(r) && LinkSettled(lib, r) && Complete(values)
    requires forall f: Field :: f in r ==> values[f] == Reread(lib, f, r[f])
    ensures Complete(Built(lib, values)) && Print(lib, Built(lib, values)) == Print(lib, r)
  {
    var q := Built(lib, values);
    forall f: Field
      ensures f in q && f in r
      ensures Written(f, ToJson(lib, q[f])) <==> Written(f, ToJson(lib, r[f]))
      ensures Written(f, ToJson(lib, r[f])) ==> ToJson(lib, q[f]) == ToJson(lib, r[f])
    {
      BuiltKeeps(lib, values, f);
      RereadIsWrittenTheSame(lib, f, r[f]);
      assert f in r && values[f] == Reread(lib, f, r[f]);
    }
  }

  /** Writing, reading and writing again gives the same payload, so its hash stands. */
  lemma WrittenAgainIsTheSame(lib: Library, r: Record)
    requires Faithful(lib) && Complete(r) && DatedRight(r) && LinkSettled(lib, r)
    ensures var again := Load(lib, Print(lib, r));
            again.Loaded? && Complete(again.record) && Print(lib, again.record) == Print(lib, r)
  {
    PrintedIsLegible(lib, r);
    BuiltPrintsTheSame(lib, r, Values(lib, Print(lib, r)));
  }

  // ------------------------------------------------------------------ what comes back

  /** The two flags are what the codes say. */
  predicate FlagsDerived(lib: Library, r: Record)
    requires Complete(r)
  {
    var flags := DerivedFlags(lib, ToJson(lib, r[CpvCodes]));
    r[SigCpvMilitary] == Flag(flags.0) && r[SigCpvAdjacent] == Flag(flags.1)
  }

  /** Numbers are floats, lists are lists, a plain field holds no date, and what is left out is the default. */
  predicate Canonical(f: Field, v: Value) {
    && !v.Decimal? && !v.Tuple?
    && (KindOf(f) == Plain ==> !v.Day? && !v.Moment?)
    && (RuleOf(f) == LeftOutIfEmpty && (v == Null || v == Text("") || v == Flag(false) || v == Number(0.0) || v == Items([]))
        ==> v == Default(f))
  }

  lemma RereadExact(lib: Library, f: Field, v: Value)
    requires Faithful(lib) && FitsKind(f, v) && RuleOf(f) != LeftOut
    ensures Reread(lib, f, v) == v <==> Canonical(f, v)
  {
    WrittenReadsBack(lib, f, v);
  }

  lemma BuiltAsReread(lib: Library, r: Record, values: Record, f: Field)
    requires Complete(r) && Complete(values) && LinkSettled(lib, r) && RuleOf(f) != LeftOut
    requires values[f] == Reread(lib, f, r[f])
    ensures Complete(Built(lib, values)) && (Built(lib, values)[f] == r[f] <==> Reread(lib, f, r[f]) == r[f])
  {
    BuiltKeeps(lib, values, f);
  }

  lemma BackExact(lib: Library, r: Record, values: Record)
    requires Faithful(lib) && Complete(r) && DatedRight(r) && LinkSettled(lib, r) && Complete(values)
    requires forall f: Field :: f in r ==> values[f] == Reread(lib, f, r[f])
    ensures Built(lib, values) == r
            <==> FlagsDerived(lib, r) && forall f: Field :: f in r && RuleOf(f) != LeftOut ==> Canonical(f, r[f])
  {
    BuiltKeeps(lib, values, SourceCode);
    var q := Built(lib, values);
    forall f: Field | f in r && RuleOf(f) != LeftOut ensures q[f] == r[f] <==> Canonical(f, r[f]) {
      BuiltAsReread(lib, r, values, f);
      RereadExact(lib, f, r[f]);
    }
    FlagsBack(lib, r, values);
    SameRecord(q, r);
  }

  lemma CodesReadBack(lib: Library, v: Value)
    requires Faithful(lib)
    ensures ToJson(lib, Reread(lib, CpvCodes, v)) == ToJson(lib, v)
  {
    RereadIsWrittenTheSame(lib, CpvCodes, v);
  }

  lemma FlagsBack(lib: Library, r: Record, values: Record)
    requires Faithful(lib) && Complete(r) && DatedRight(r) && Complete(values)
    requires forall f: Field :: f in r ==> values[f] == Reread(lib, f, r[f])
    ensures var q := Built(lib, values);
            Complete(q) && (FlagsDerived(lib, r)
                            <==> q[SigCpvMilitary] == r[SigCpvMilitary] && q[SigCpvAdjacent] == r[SigCpvAdjacent])
  {
    assert CpvCodes in r && SigCpvMilitary in r && SigCpvAdjacent in r;
    FlagsNotRead(lib, SigCpvMilitary, r[SigCpvMilitary]);
    FlagsNotRead(lib, SigCpvAdjacent, r[SigCpvAdjacent]);
    CodesReadBack(lib, r[CpvCodes]);
    FlagsRead(lib, r, values);
  }

  /** The record itself comes back exactly when it is in the form reading gives. */
  lemma ComesBackExact(lib: Library, r: Record)
    requires Faithful(lib) && Complete(r) && DatedRight(r) && LinkSettled(lib, r)
    ensures Load(lib, Print(lib, r)) == Loaded(r)
            <==> FlagsDerived(lib, r) && forall f: Field :: f in r && RuleOf(f) != LeftOut ==> Canonical(f, r[f])
  {
    PrintedIsLegible(lib, r);
    BackExact(lib, r, Values(lib, Print(lib, r)));
  }

  lemma SameRecord(q: Record, r: Record)
    requires Complete(q) && Complete(r)
    ensures q == r <==> q[SigCpvMilitary] == r[SigCpvMilitary] && q[SigCpvAdjacent] == r[SigCpvAdjacent]
                        && forall f: Field :: f in r && RuleOf(f) != LeftOut ==> q[f] == r[f]
  {
  }

  function DerivedFlags(lib: Library, codes: Json): (bool, bool) {
    if Falsy(codes) then (false, false) else lib.military(codes)
  }

  lemma FlagsRead(lib: Library, r: Record, values: Record)
    requires Complete(r) && Complete(values)
    requires values[SigCpvMilitary] == Flag(false) && values[SigCpvAdjacent] == Flag(false)
    requires ToJson(lib, values[CpvCodes]) == ToJson(lib, r[CpvCodes])
    ensures var q := Built(lib, values);
            Complete(q) && (FlagsDerived(lib, r)
                            <==> q[SigCpvMilitary] == r[SigCpvMilitary] && q[SigCpvAdjacent] == r[SigCpvAdjacent])
  {
  }

  lemma FlagsNotRead(lib: Library, f: Field, v: Value)
    requires f == SigCpvMilitary || f == SigCpvAdjacent
    ensures Reread(lib, f, v) == Flag(false)
  {
  }

  // ------------------------------------------------------------------ payloads of any age

  lemma LinkStaysAsItIs(lib: Library, v: Value)
    ensures HttpUrl(lib, HttpUrl(lib, v)) == HttpUrl(lib, v)
  {
  }

  lemma ReadFits(lib: Library, f: Field, j: Json)
    ensures FromJson(lib, f, j).Some? ==> FitsKind(f, FromJson(lib, f, j).value)
    ensures FitsKind(f, Default(f))
  {
  }

  lemma LoadedIsSettled(lib: Library, p: PayloadMap)
    requires Load(lib, p).Loaded?
    ensures var r := Load(lib, p).record;
            Complete(r) && DatedRight(r) && LinkSettled(lib, r)
  {
    var values := Values(lib, p);
    forall f: Field ensures f in Built(lib, values) && FitsKind(f, Built(lib, values)[f]) {
      BuiltKeeps(lib, values, f);
      ReadFits(lib, f, if Known(f) in p then p[Known(f)] else JNull);
    }
    BuiltKeeps(lib, values, SourceUrl);
    LinkStaysAsItIs(lib, values[SourceUrl]);
  }

  /** Whatever payload was read, of any age: from its first writing on, the payload no longer moves. */
  lemma OnceReadItIsStable(lib: Library, p: PayloadMap)
    requires Faithful(lib) && Load(lib, p).Loaded?
    ensures var r := Load(lib, p).record;
            var again := Load(lib, Print(lib, r));
            again.Loaded? && Print(lib, again.record) == Print(lib, r)
  {
    LoadedIsSettled(lib, p);
    WrittenAgainIsTheSame(lib, Load(lib, p).record);
  }

  /** A payload from before a field existed reads as if it stated the field's default, and a field that is no
      longer known changes nothing. */
  lemma OldPayloadsRead(lib: Library, p: PayloadMap, f: Field, name: string, j: Json)
    requires Known(f) !in p && !Required(f)
    ensures Load(lib, p[Known(f) := ToJson(lib, Default(f))]) == Load(lib, p)
    ensures Load(lib, p[Unknown(name) := j]) == Load(lib, p)
  {
    var stated, odd := p[Known(f) := ToJson(lib, Default(f))], p[Unknown(name) := j];
    assert FromJson(lib, f, ToJson(lib, Default(f))) == Some(Default(f));
    SameReading(lib, p, stated);
    SameReading(lib, p, odd);
  }

  /** Two payloads whose fields read alike, stated or not, load alike. */
  lemma SameReading(lib: Library, p: PayloadMap, q: PayloadMap)
    requires forall f: Field :: Reading(lib, p, f) == Reading(lib, q, f)
    requires forall f: Field :: Required(f) ==> (Known(f) in p <==> Known(f) in q)
    ensures Load(lib, p) == Load(lib, q)
  {
    assert Absent(p) == Absent(q);
    forall f: Field
      ensures Known(f) in p && FromJson(lib, f, p[Known(f)]).None? <==> Known(f) in q && FromJson(lib, f, q[Known(f)]).None?
    {
      assert Reading(lib, p, f) == Reading(lib, q, f);
    }
    assert Illegible(lib, p) == Illegible(lib, q);
    if !Illegible(lib, p) {
      forall f: Field ensures Values(lib, p)[f] == Values(lib, q)[f] {
        assert Reading(lib, p, f) == Reading(lib, q, f);
      }
      assert Values(lib, p) == Values(lib, q);
    }
  }

  function Reading(lib: Library, p: PayloadMap, f: Field): Option<Value> {
    if Known(f) in p then FromJson(lib, f, p[Known(f)]) else Some(Default(f))
  }

  /** A moment where a day is meant is written in full and comes back as a day, if at all: the payload moves. */
  lemma MomentForADayMoves(lib: Library, r: Record, t: nat)
    requires Faithful(lib) && Complete(r) && r[PublishedAt] == Moment(t) && |lib.printMoment(t)| > 10
    ensures var again := Load(lib, Print(lib, r));
            again.Loaded? ==> Print(lib, again.record) != Print(lib, r)
  {
    var p := Print(lib, r);
    if Load(lib, p).Loaded? {
      MomentWritten(lib, r, t);
      DayWritten(lib, Values(lib, p));
    }
  }

  lemma MomentWritten(lib: Library, r: Record, t: nat)
    requires Complete(r) && r[PublishedAt] == Moment(t)
    ensures var p := Print(lib, r); Known(PublishedAt) in p && p[Known(PublishedAt)] == JText(lib.printMoment(t))
  {
  }

  lemma DayWritten(lib: Library, values: Record)
    requires Faithful(lib) && Complete(values) && values[PublishedAt].Day?
    ensures var q := Built(lib, values);
            Complete(q) && Known(PublishedAt) in Print(lib, q) && Print(lib, q)[Known(PublishedAt)].JText?
            && |Print(lib, q)[Known(PublishedAt)].text| == 10
  {
  }
}
