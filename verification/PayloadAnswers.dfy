/**
  What a payload holds of a record and a record of a payload, field by field (backend/dgate/db.py, `opportunity_payload`,
  `opportunity_from_payload`; backend/dgate/normalise.py, `Opportunity.__post_init__`, `http_url`).
 */
module PayloadAnswers {
  import opened Wrappers
  import opened Payload

  // ------------------------------------------------------------------ writing

  /** The form a value is written in. */
  predicate IsWritten(lib: Library, v: Value, j: Json) {
    match v
    case Null => j.JNull?
    case Text(text) => j.JText? && j.text == text
    case Flag(flag) => j.JFlag? && j.flag == flag
    case Number(number) => j.JNumber? && j.number == number
    case Decimal(number) => j.JNumber? && j.number == number
    case Day(day) => j.JText? && j.text == lib.printDay(day)
    case Moment(moment) => j.JText? && j.text == lib.printMoment(moment)
    case Items(items) => j.JItems? && j.items == items
    case Tuple(items) => j.JItems? && j.items == items
  }

  /** The value states something: it is not none, no, nought or empty. */
  predicate States(lib: Library, v: Value) {
    match v
    case Null => false
    case Text(text) => |text| > 0
    case Flag(flag) => flag
    case Number(number) => number != 0.0
    case Decimal(number) => number != 0.0
    case Day(day) => |lib.printDay(day)| > 0
    case Moment(moment) => |lib.printMoment(moment)| > 0
    case Items(items) => |items| > 0
    case Tuple(items) => |items| > 0
  }

  /** Which fields a payload states, and how. */
  lemma PrintExact(lib: Library, r: Record, f: Field)
    ensures Known(f) in Print(lib, r)
            <==> f in r
                 && (match f
                     case SigCpvMilitary | SigCpvAdjacent => false
                     case SigLinkedDefence | DualUse | BuyerClass | OtherBuyers => States(lib, r[f])
                     case TedRef | RelatedNativeId | SourceUpdatedAt | BuyerIdentifier | NoticeSubtype | ProcedureIdentifier
                        | LotCount | ValueKind | NoticeDate | NoticeKind | DocumentsUrl | ContractStart | ContractEnd
                        | ContractDuration | ContractDurationUnit | ContractRenewal | ContractRenewalsMax => r[f] != Null
                     case _ => true)
    ensures Known(f) in Print(lib, r) ==> IsWritten(lib, r[f], Print(lib, r)[Known(f)])
    ensures forall name :: Unknown(name) !in Print(lib, r)
  {
  }

  // ------------------------------------------------------------------ reading

  /** Text in the four fields of a day is read as its first ten characters; in the two of a moment, with Z as an offset. */
  predicate IsRead(lib: Library, f: Field, j: Json, v: Value) {
    match j
    case JNull => v.Null?
    case JFlag(flag) => v.Flag? && v.flag == flag
    case JNumber(number) => v.Number? && v.number == number
    case JItems(items) => v.Items? && v.items == items
    case JText(text) =>
      match f
      case PublishedAt | NoticeDate | ContractStart | ContractEnd =>
        v.Day? && lib.readDay(if |text| > 10 then text[..10] else text) == Some(v.day)
      case DeadlineAt | SourceUpdatedAt => v.Moment? && lib.readMoment(ZuluSpelt(text)) == Some(v.moment)
      case _ => v.Text? && v.text == text
  }

  lemma FromJsonExact(lib: Library, f: Field, j: Json)
    ensures forall v :: FromJson(lib, f, j) == Some(v) <==> IsRead(lib, f, j, v)
  {
    if j.JText? && |j.text| == 10 {
      assert j.text[..10] == j.text;
    }
    assert FromJson(lib, f, j).Some? ==> IsRead(lib, f, j, FromJson(lib, f, j).value);
  }

  lemma {:induction false} ZuluExact(a: string, b: string)
    ensures ZuluSpelt(a + b) == ZuluSpelt(a) + ZuluSpelt(b)
    ensures ZuluSpelt("Z") == "+00:00" && ('Z' !in a ==> ZuluSpelt(a) == a)
  {
    assert "Z"[1..] == "";
    if a == "" {
      assert a + b == b;
    } else {
      assert (a + b)[1..] == a[1..] + b;
      ZuluExact(a[1..], b);
    }
    if 'Z' !in a {
      NoZulu(a);
    }
  }

  /** What a field holds that the payload does not state. */
  predicate IsDefault(f: Field, v: Value) {
    match f
    case CpvCodes => v == Items([])
    case Status => v == Text("unknown")
    case IsDefence | SigLegalBasis | SigCpv | SigBuyer | SigClearance | SigCpvMilitary | SigCpvAdjacent | SigLinkedDefence
       | DualUse | SecurityClearanceRequired | NdaRequired | SubcontractingSignal => v == Flag(false)
    case _ => v == Null
  }

  /** What is read of a field, before the record is built. */
  predicate IsHeld(lib: Library, p: PayloadMap, f: Field, v: Value) {
    if Known(f) in p then IsRead(lib, f, p[Known(f)], v) else IsDefault(f, v)
  }

  /** A date field that holds text that is no date makes the payload unreadable; otherwise a missing field of the four that
      are required is told. */
  lemma LoadingExact(lib: Library, p: PayloadMap)
    ensures Load(lib, p).Unreadable? <==> exists f: Field :: Known(f) in p && forall v :: !IsRead(lib, f, p[Known(f)], v)
    ensures Load(lib, p).Missing? ==>
              Load(lib, p).fields == set f | f in {SourceCode, NativeId, BuyerNameRaw, TitleOriginal} && Known(f) !in p
    ensures Load(lib, p).Loaded? <==>
              (forall f: Field :: Known(f) in p ==> exists v :: IsRead(lib, f, p[Known(f)], v))
              && Known(SourceCode) in p && Known(NativeId) in p && Known(BuyerNameRaw) in p && Known(TitleOriginal) in p
  {
    forall f: Field ensures Known(f) in p ==> (FromJson(lib, f, p[Known(f)]).Some? <==> exists v :: IsRead(lib, f, p[Known(f)], v)) {
      if Known(f) in p {
        FromJsonExact(lib, f, p[Known(f)]);
      }
    }
    assert Absent(p) == set f | f in {SourceCode, NativeId, BuyerNameRaw, TitleOriginal} && Known(f) !in p;
    if Absent(p) == {} {
      assert forall f :: f in {SourceCode, NativeId, BuyerNameRaw, TitleOriginal} && Known(f) !in p ==> f in Absent(p);
    }
  }

  // ------------------------------------------------------------------ building

  /** Blank before `i` and from `j` on, and at neither end in between. */
  predicate Between(lib: Library, s: string, i: nat, j: nat) {
    && i < j <= |s|
    && (forall k :: 0 <= k < i ==> lib.blank(s[k])) && (forall k :: j <= k < |s| ==> lib.blank(s[k]))
    && !lib.blank(s[i]) && !lib.blank(s[j - 1])
  }

  lemma {:induction false} LeftStripped(lib: Library, s: string, i: nat)
    requires i <= |s| && (forall k :: 0 <= k < i ==> lib.blank(s[k])) && (i < |s| ==> !lib.blank(s[i]))
    ensures StripLeft(lib, s) == s[i..]
  {
    if i > 0 {
      LeftStripped(lib, s[1..], i - 1);
    }
  }

  lemma {:induction false} RightStripped(lib: Library, s: string, j: nat)
    requires j <= |s| && (forall k :: j <= k < |s| ==> lib.blank(s[k])) && (j > 0 ==> !lib.blank(s[j - 1]))
    ensures StripRight(lib, s) == s[..j]
    decreases |s|
  {
    if j < |s| {
      RightStripped(lib, s[..|s| - 1], j);
      assert s[..|s| - 1][..j] == s[..j];
    } else {
      assert s[..j] == s;
    }
  }

  /** A link is let through without the blanks around it, where it is one and holds no blank and no control character;
      nothing else is. */
  lemma LinkExact(lib: Library, s: string, i: nat, j: nat)
    requires Between(lib, s, i, j)
    ensures var text := s[i..j];
            HttpUrl(lib, Text(s))
            == if lib.link(text) && (forall k :: 0 <= k < |text| ==> ' ' <= text[k] && !lib.blank(text[k])) then Text(text) else Null
  {
    var text := s[i..j];
    LeftStripped(lib, s, i);
    RightStripped(lib, s[i..], j - i);
    assert s[i..][..j - i] == text;
    assert forall k :: 0 <= k < |text| ==> text[k] in text;
  }

  lemma NoLink(lib: Library, v: Value)
    requires v.Text? ==> forall k :: 0 <= k < |v.text| ==> lib.blank(v.text[k])
    ensures HttpUrl(lib, v) == Null
  {
    if v.Text? {
      LeftStripped(lib, v.text, |v.text|);
    }
  }

  /** The record built of what was read: the link is let through or dropped, the two flags of the codes are told by the
      codes where none of them is stated, and every other field is as it was read. */
  lemma BuiltExact(lib: Library, p: PayloadMap, f: Field)
    requires Load(lib, p).Loaded?
    ensures var r, codes := Load(lib, p).record, Values(lib, p)[CpvCodes];
            var told := States(lib, codes) && !States(lib, Values(lib, p)[SigCpvMilitary]) && !States(lib, Values(lib, p)[SigCpvAdjacent]);
            && IsHeld(lib, p, f, Values(lib, p)[f])
            && f in r
            && r[f] == if f == SourceUrl then HttpUrl(lib, Values(lib, p)[SourceUrl])
                       else if told && f == SigCpvMilitary then Flag(lib.military(ToJson(lib, codes)).0)
                       else if told && f == SigCpvAdjacent then Flag(lib.military(ToJson(lib, codes)).1)
                       else Values(lib, p)[f]
  {
    HeldExact(lib, p, f);
    BuiltOf(lib, Values(lib, p), f);
  }

  lemma HeldExact(lib: Library, p: PayloadMap, f: Field)
    requires !Illegible(lib, p)
    ensures IsHeld(lib, p, f, Values(lib, p)[f])
  {
    if Known(f) in p {
      FromJsonExact(lib, f, p[Known(f)]);
      assert FromJson(lib, f, p[Known(f)]).Some?;
    }
  }

  lemma BuiltOf(lib: Library, values: Record, f: Field)
    requires Complete(values)
    ensures var codes := values[CpvCodes];
            var told := States(lib, codes) && !States(lib, values[SigCpvMilitary]) && !States(lib, values[SigCpvAdjacent]);
            && f in Built(lib, values)
            && Built(lib, values)[f] == if f == SourceUrl then HttpUrl(lib, values[SourceUrl])
                                        else if told && f == SigCpvMilitary then Flag(lib.military(ToJson(lib, codes)).0)
                                        else if told && f == SigCpvAdjacent then Flag(lib.military(ToJson(lib, codes)).1)
                                        else values[f]
  {
    StatesExact(lib, values[CpvCodes]);
    StatesExact(lib, values[SigCpvMilitary]);
    StatesExact(lib, values[SigCpvAdjacent]);
    BuiltWhere(lib, values, f);
  }

  lemma BuiltWhere(lib: Library, values: Record, f: Field)
    requires Complete(values)
    ensures var told := Truthy(lib, values[CpvCodes]) && !Truthy(lib, values[SigCpvMilitary]) && !Truthy(lib, values[SigCpvAdjacent]);
            var flags := lib.military(ToJson(lib, values[CpvCodes]));
            f in Built(lib, values)
            && Built(lib, values)[f] == if f == SourceUrl then HttpUrl(lib, values[SourceUrl])
                                        else if told && f == SigCpvMilitary then Flag(flags.0)
                                        else if told && f == SigCpvAdjacent then Flag(flags.1)
                                        else values[f]
  {
  }

  lemma StatesExact(lib: Library, v: Value)
    ensures States(lib, v) <==> !Falsy(ToJson(lib, v))
  {
  }
}
