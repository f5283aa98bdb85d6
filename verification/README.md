# DefenceGate: a verified model of the backend's state machines

DefenceGate collects public procurement notices, keeps every version of them, and sells access to what it finds. This
project models the parts of its backend whose guarantees cover whole runs, in Dafny, and proves them.

| file | models |
|---|---|
| `Archive.dfy`, `ArchiveRuns.dfy`, `ArchiveAnswers.dfy` | the versioned archive: a feed that arrives late, twice and out of order becomes a chain of versions and a serving row |
| `Payload.dfy`, `PayloadAnswers.dfy` | a record written as a payload and read back |
| `Organisations.dfy`, `OrganisationRuns.dfy`, `OrganisationAnswers.dfy` | buyer organisations, their aliases, their merges and the resolution of a name and a number |
| `OrganisationUndo.dfy` | the undoing of a batch of merges |
| `Billing.dfy`, `BillingRuns.dfy`, `BillingSoldOut.dfy`, `BillingAnswers.dfy` | the payment provider's events and the twenty founding places |
| `SingleFlight.dfy`, `SingleFlightRuns.dfy`, `SingleFlightAnswers.dfy` | the cache shared by request threads, one computation of a key at a time |
| `Throttle.dfy`, `ThrottleRuns.dfy`, `ThrottleAnswers.dfy` | limits on account mails and on failed sign-ins |
| `Changes.dfy` | the change feed: a day's amendments folded into a net change, and the index of candidates |
| `EditDistance.dfy` | the edit distance of registration numbers, and when two of them conflict |
| `Competition.dfy` | who a company competes with, and its share |
| `Quotes.dfy` | whether a quote is a document's text |
| `Awards.dfy` | the winners of result notices and the award rows their reads leave |
| `Eligibility.dfy`, `EligibilityAnswers.dfy` | facts of a call that cannot all be true |
| `AwardValue.dfy`, `AwardValueAnswers.dfy` | figures typed in the wrong unit |
| `Months.dfy` | windows of whole months |

Where the code updates tables or fields, a class holds them and its methods update them in the code's order; each method
is tied to a function of the old state, and what is promised is proved of that function over every run. Where the code
overwrites an array or fills a dictionary in a loop, so does the model. The files that end in `Answers` say what each
operation answers and writes in the data alone, apart from the functions that compute it. `dafny verify dfyconfig.toml` checks everything.

## Where the code and what it promises differ

The model follows the code. Each of these is a lemma below.

- Archive: the outcome depends on the order of arrival exactly when the source left its final content and later came
  back to it, because a newer record that changes nothing leaves the stored stamp where it was
  (`OrderIndependenceExact`; a notice and an order are given in `ReopenedEndsClosed`).
- Organisations: a merge uncounts an award won twice only for awards on the absorbed row itself, not on rows merged into
  it before (`MergeCountsOnceExact`, `RepeatIsReached`). Asking for a name without a word of four letters can split off
  a second row and then never find it by its number (`AskingTwiceExact`, `AskedTwiceAnsweredTwice`).
- Undoing merges: a batch is reversed except for what it absorbed in a chain. A row absorbed first, and then the one that
  kept it, gives its aliases, its merged rows and its notices to the second one (`AliasBackExact`, `PointerBackExact`,
  `ArchivedBuyerBackExact`, `ChainKeepsAliases`).
- Billing: the twenty founding places can be passed when all are held: by a founding checkout paid, or its subscription
  started, after its hold ran out; by a subscription changed to the founding plan or revived under it; and by a dispute of
  a founding subscription that had ended, because a disputed row counts as live (`LateExact`, `EventKeepsCapExact`; runs
  from empty tables are `LateConversionPassesCap`, `LateStartPassesCap`, `RevivalPassesCap` and `DisputePassesCap`).
- Billing: the order of delivery is meant not to matter, and a refund or dispute makes it matter: one newer than the newest
  subscription event, and delivered before it, makes that event count as older (`EndsWithNewestExact`, `RefundFirst`).
- Sign-in: the comment speaks of twelve failures in an hour; the waits before them leave room for eleven
  (`SignInLimit`, `ElevenFit`).
- Registration numbers: a leading zero is meant not to matter, but the distance and the letters are taken of the numbers
  as written (`DigitConflictExact`, `EqualPaddingExact`, `UnequalPaddingExact`; pairs are given in
  `LeadingZeroMakesConflict`, `ZerosHideLetters` and `ZeroMakesLetteredConflict`).
- Quotes: parts that are there, in order, are found only if each is the longest in its gap, at its first place there
  (`InOrderExact`, `SplitCanBeRefused`).

## Model

| member | source | states |
|---|---|---|
| `Archive.SaysTheSameIsEquivalence` | backend/dgate/db.py:118-148 | "Says the same thing" (nothing stated in any spelling, lists as sets, a deadline as an instant) is reflexive, symmetric and transitive, so a chain of comparisons cannot drift. |
| `Archive.NothingChanged` | backend/dgate/db.py:151-153 | The list of changed fields is empty exactly when every versioned field of the two payloads says the same. |
| `Archive.SameContentIsEquivalence` | backend/dgate/db.py:129-153 | Having the same content is an equivalence of payloads. |
| `Archive.Store.AppendVersion` | backend/dgate/db.py:1066-1118 | Closes what is open, appends the next version and moves the serving row; every other notice is untouched. |
| `Archive.Store.Upsert` | backend/dgate/db.py:1210-1393 | The table updates, branch by branch, leave exactly what `Upserted` says, return its action, file the record under its key, and keep the archive sound. |
| `Archive.ExtendedKeeps` | backend/dgate/db.py:1066-1118 | Appending keeps versions numbered 1..n, only the last open, each closed at the next one's opening, hashes distinct and changed fields exact, and rewrites no earlier payload. |
| `Archive.ServedKeeps` | backend/dgate/db.py:992-1118 | A new version's versioned fields are what is served, and no held link is erased. |
| `Archive.AnnotatedKeeps` | backend/dgate/db.py:1345-1363 | A record that changed nothing versioned leaves every versioned field served as it was, replaces no link held first, and erases none. |
| `Archive.StepKeeps` | backend/dgate/db.py:1267-1393 | One record keeps a notice's chain of versions and continues its history. |
| `Archive.UpsertKeeps` | backend/dgate/db.py:1210-1393 | The whole archive invariant (chain, distinct hashes, exact changed fields, serving row equals last payload) is kept by every record, and every notice held before is continued. |
| `ArchiveRuns.RunContinues` | backend/dgate/db.py:1-12 | Over every run of arrivals the archive stays sound, no version is rewritten, no notice dropped, no held link erased. |
| `ArchiveRuns.StampNeverGoesBack` | backend/dgate/db.py:1196-1207 | Where every record carries an instant, over every run the stamp of the current version never goes back. |
| `ArchiveRuns.DayNeverGoesBack` | backend/dgate/db.py:1196-1207 | The same by publication day for a source that states days and no instant. |
| `ArchiveRuns.ActionSaysWhatHappened` | backend/dgate/db.py:1210-1393 | "new" is answered exactly when a notice was added, "changed" exactly when one version was, "stale" leaves everything as it was, and no other notice moves. |
| `ArchiveRuns.BuyerNeverChanges` | backend/dgate/db.py:96-115 | Where the number is the buyer's own, over every run no notice ever changes hands between buyers. |
| `ArchiveRuns.OrderIndependenceExact` | backend/dgate/db.py:1210-1393 | For every set of readings of one notice from one buyer with distinct instants and hashes, no publication date in the future, and a publication date in each where numbers are the buyer's own: every order of arrival (with repeats) ends with the content of the latest reading if and only if no reading later than one with that content has another content. |
| `ArchiveRuns.LatestReadingWins` | backend/dgate/db.py:1210-1393 | When every two readings differ in a versioned field, every order of arrival ends with the latest reading itself as current version, with its hash and its fields served. |
| `ArchiveRuns.SomeOrderEndsElsewhere` | backend/dgate/db.py:1341-1363 | Otherwise an order that ends elsewhere is constructed: an unchanged newer record does not move the stored stamp. |
| `ArchiveRuns.ReopenedEndsClosed` | backend/dgate/db.py:1341-1363 | For example: a notice that is open, closed and open again has an order of arrival after which the archive holds it closed. |
| `ArchiveRuns.OthersDoNotMatter` | backend/dgate/db.py:96-115 | What becomes of a notice is decided by the arrivals under its number alone, whatever else the archive holds and whatever arrives between them. |
| `ArchiveRuns.EndsAsAlone` | backend/dgate/db.py:1210-1393 | So the order-independence results hold in a filled archive and amid other notices: an order of arrival ends there as it does alone. |
| `ArchiveRuns.RunSettles` | backend/dgate/db.py:1267-1393 | The run of the real tables comes down to which reading is held after each arrival. |
| `ArchiveRuns.AnswerExact` | backend/dgate/db.py:1267-1393 | Of a document not seen before "stale" is answered if and only if both the record and the version held state an instant and the record's is smaller, or not both do, both have a day (of the stamp, else of publication) and the record's is smaller; "changed" if and only if it is not and a versioned field says something else, and then the record's own payload is the current version. |
| `ArchiveRuns.LastOfNewestDayWins` | backend/dgate/db.py:1303-1335 | Over every run of records that state days alone, amid any other notices, the last arrival of the newest day is what the archive holds. |
| `ArchiveAnswers.SameValueExact` | backend/dgate/db.py:129-148 | Two values of a field say the same exactly when what they say is the same: nothing, a set of items, an instant of the deadline, or the value itself. |
| `ArchiveAnswers.PayloadExact` | backend/dgate/db.py:195-214 | Which fields a payload holds, field by field: all but links, attributes, notice date, kind and stamp that state nothing. |
| `ArchiveAnswers.ServedExact` | backend/dgate/db.py:1052-1117 | After a new version every field is served as stated, but a link or an attribute that is not stated as before, and the stamp not at all. |
| `ArchiveAnswers.TextBeforeExact` | backend/dgate/db.py:1339-1340 | Stamps are ordered by their first difference. |
| `ArchiveAnswers.AnnotatedExact` | backend/dgate/db.py:1339-1363 | What a record that changes nothing versioned writes, field by field: the attributes it states, links that were not held, and notice date and kind where it is not read from an earlier stamp. |
| `ArchiveAnswers.KeyExact` | backend/dgate/db.py:1234-1246 | A record is filed under its plain number unless the source's numbers are the buyer's own and another buyer holds it. |
| `ArchiveAnswers.TakenExact` | backend/dgate/db.py:1219-1263 | The publication day a record is taken with: its own unless it is later than tomorrow, else the held one where it may be carried over; nothing else of it is touched. |
| `ArchiveAnswers.FirstExact` | backend/dgate/db.py:1267-1283 | What a new notice holds and serves. |
| `ArchiveAnswers.ExtendedExact` | backend/dgate/db.py:1066-1118 | The version held is closed now and the appended one opens at the same moment; earlier ones are left. |
| `ArchiveAnswers.StepExact` | backend/dgate/db.py:1285-1393 | A document read before changes nothing; a stale one nothing; an unchanged one the serving row alone; a changed one closes the version held and appends its own. |
| `Payload.WritePayload` | backend/dgate/db.py:187-214 | Writes every attribute in its JSON form except those the rules leave out. |
| `Payload.ReadPayload` | backend/dgate/db.py:224-251 | Reads a payload, failing on an unreadable date first and on a missing required field second, ignoring unknown keys. |
| `Payload.WrittenReadsBack` | backend/dgate/db.py:156-168 | A written value always reads back to one that is written the same, and to itself exactly when it is no decimal, no tuple and no date in a plain field. |
| `Payload.WrittenAgainIsTheSame` | backend/dgate/db.py:195-251 | Writing, reading and writing again gives the same payload, so a content hash stands. |
| `Payload.ComesBackExact` | backend/dgate/db.py:195-251 | The record itself comes back if and only if it is in the form reading gives: no decimals, tuples or misplaced dates, left-out fields at their default, and the two CPV flags those of its codes. |
| `Payload.OnceReadItIsStable` | backend/dgate/db.py:224-251 | Whatever payload was read, of any age, its re-written form never moves again. |
| `Payload.OldPayloadsRead` | backend/dgate/db.py:224-251 | A payload without an optional field reads as if it stated the default, and an unknown key changes nothing. |
| `Payload.LinkStaysAsItIs` | backend/dgate/normalise.py:198-216 | A link that was let through is let through unchanged. |
| `Payload.MomentForADayMoves` | backend/dgate/db.py:217-220 | A moment where a day is meant makes the payload move on re-reading: the hypothesis on dates is needed. |
| `Payload.SomeLibraryIsFaithful` | backend/dgate/db.py:156-159 | What the round trip asks of the ISO spellings can be met: a library that meets it is given. |
| `PayloadAnswers.PrintExact` | backend/dgate/db.py:195-214 | Which fields a payload states and in which form, field by field. |
| `PayloadAnswers.FromJsonExact` | backend/dgate/db.py:224-243 | What each field's payload value is read as: text as a day in four fields, as a moment in two, everything else as it is. |
| `PayloadAnswers.ZuluExact` | backend/dgate/db.py:240 | Z is read as the offset of nought hours, wherever it stands. |
| `PayloadAnswers.LoadingExact` | backend/dgate/db.py:224-251 | A payload is unreadable exactly when a date field holds text that is no date; otherwise exactly the missing ones of the four required fields are told. |
| `PayloadAnswers.LinkExact` | backend/dgate/normalise.py:198-216 | A link is let through without the blanks around it exactly when it is one and holds no blank and no control character. |
| `PayloadAnswers.NoLink` | backend/dgate/normalise.py:198-216 | What is no text, or blank, is no link. |
| `PayloadAnswers.BuiltExact` | backend/dgate/normalise.py:155-170 | The record built of what was read, field by field: the link, the two flags told by the codes where none is stated, and the rest as read or at its default. |
| `Organisations.NamesCompatibleMeans` | backend/dgate/db.py:532-561 | Names are compatible exactly when their long words are the same, or two or more words of one are all within the other; order does not matter. |
| `Organisations.FollowIsHead` | backend/dgate/db.py:521-529 | In a flat table following the pointers up to eight times is one step to the head. |
| `Organisations.BestAlias` | backend/dgate/db.py:692-784 | The alias used names the buyer and has the highest confidence; none only if none names it. |
| `Organisations.HolderFrom` | backend/dgate/db.py:692-784 | Finds a holder of the number in that country, and none only if there is none. |
| `Organisations.NamedFrom` | backend/dgate/db.py:692-784 | Finds a live organisation of exactly that name in that country, and none only if there is none. |
| `Organisations.Registry.Live` | backend/dgate/db.py:521-529 | The loop over `merged_into` answers the row the pointers lead to. |
| `Organisations.Registry.CarryToHead` | backend/dgate/db.py:917-957 | The PIC and (within a country) the VAT number move to the head when it has none, awards won twice are uncounted, nothing else moves. |
| `Organisations.Registry.RepointMerged` | backend/dgate/db.py:960-968 | Afterwards nothing is merged into the old head, what was stands for the new one, every other row stands for what it stood for, and no other column moved. |
| `Organisations.Registry.Merge` | backend/dgate/db.py:828-914 | Refuses in the code's order of checks, changing nothing, or leaves exactly the merged tables. |
| `Organisations.Registry.RecordAlias` | backend/dgate/db.py:602-616 | Afterwards the name, country and source have an alias, the one held before if there was one, and never a second; earlier aliases stay in place. |
| `Organisations.Registry.AttachIdentifier` | backend/dgate/db.py:799-825 | Attaches a number, finds it attached, splits off a namesake, or refuses a number that is taken. |
| `Organisations.Registry.ResolveOrganisation` | backend/dgate/db.py:692-784 | The cascade of number, alias, exact name and new row leaves what `Resolve` says, and the tables as they were when the number is taken. |
| `OrganisationRuns.HeadsAfterMerge` | backend/dgate/db.py:828-968 | A merge keeps every row one step from its head and sends exactly the absorbed class to the kept head. |
| `OrganisationRuns.AliasesFollowMerge` | backend/dgate/db.py:828-914 | Every alias follows its organisation to the live row and keeps the first organisation it was filed under. |
| `OrganisationRuns.PicsFollowMerge` | backend/dgate/db.py:917-945 | A head holds a PIC whenever a row of its class does, and no PIC value is lost. |
| `OrganisationRuns.NumberStillReaches` | backend/dgate/db.py:828-914 | Whoever held a registration number, the number still leads to the same organisation after a merge. |
| `OrganisationRuns.NumbersStayUnique` | backend/dgate/db.py:828-914 | A merge leaves no country with two holders of one number. |
| `OrganisationRuns.MergeKeeps` | backend/dgate/db.py:828-968 | A merge keeps the invariant of all the tables and loses no alias. |
| `OrganisationRuns.ResolveKeeps` | backend/dgate/db.py:692-825 | A resolution keeps the invariant, merges nothing and answers with a live organisation. |
| `OrganisationRuns.RunKeeps` | backend/dgate/db.py:692-968 | Over every run of resolutions and merges: rows stay one step from their head, aliases and buyers point at live rows, one alias a key, a PIC at the head, numbers unique; and no row or alias is lost. |
| `OrganisationRuns.OneOrganisationIffConnected` | backend/dgate/db.py:521-529 | Over every run two rows have the same live row if and only if the accepted merges connect them: a union-find kept flat. |
| `OrganisationRuns.MergeCountsOnceExact` | backend/dgate/db.py:942-957 | After a merge each notice counts one award per organisation if and only if no row merged earlier into the absorbed one holds an award on a notice the kept class won. |
| `OrganisationRuns.RepeatIsReached` | backend/dgate/db.py:942-957 | A run from empty tables reaches such a repeat: two merges in a row, the first and the last company having won one notice. |
| `OrganisationRuns.AskingTwiceExact` | backend/dgate/db.py:692-825 | Asking the same question twice gives the same organisation, except exactly when the first answer split off a namesake whose name has no word of four letters. |
| `OrganisationRuns.AskedTwiceAnsweredTwice` | backend/dgate/db.py:692-825 | A run from empty tables reaches the exception: a short name asked for with two numbers is answered differently the second time. |
| `OrganisationRuns.SomeNamesHaveNoWords` | backend/dgate/db.py:532-535 | Such names exist: "SAS" has no word of four letters. |
| `OrganisationRuns.CheckExact` | backend/dgate/db.py:851-869 | Two rows are merged if and only if they are two, known, live, of one country or allowed to differ, and without two different numbers or allowed the conflict; and which refusal each first failing condition has. |
| `OrganisationRuns.OneCountryAlways` | backend/dgate/db.py:864-866 | Over every run that allows no other country, the rows that stand for one organisation are of one country. |
| `OrganisationRuns.OneNumberAlways` | backend/dgate/db.py:867-869 | Over every run that allows no conflict of numbers either, only live rows hold a number, so the rows of one organisation state one number at most. |
| `OrganisationAnswers.WordsExact` | backend/dgate/db.py:532-533 | A name's words are its stretches of four letters or more between spaces, hyphens and its ends. |
| `OrganisationAnswers.MergedRowsExact` | backend/dgate/db.py:880-900 | What each of the two rows states after a merge, column by column, and that every other row is left but for where it points. |
| `OrganisationAnswers.CountedExact` | backend/dgate/db.py:942-957 | An award stops counting if and only if it is the absorbed row's own and a row of the kept organisation has a counted award on the notice. |
| `OrganisationAnswers.FollowersExact` | backend/dgate/db.py:871-879 | Aliases and notices of the absorbed row go to the kept one, an alias remembering its first organisation, and no others move. |
| `OrganisationAnswers.NamelessExact` | backend/dgate/db.py:713-718 | Without a name or a country there is no buyer, and then, as where a number is taken, nothing is written. |
| `OrganisationAnswers.TrustedNumberExact` | backend/dgate/db.py:723-747 | A number whose holder's name is compatible decides: the answer is who the holder stands for. |
| `OrganisationAnswers.StagesExact` | backend/dgate/db.py:748-757 | Otherwise the name decides, without the number where another body holds it. |
| `OrganisationAnswers.FiledNameExact` | backend/dgate/db.py:758-766 | A name that is filed leads to the organisation of its surest alias. |
| `OrganisationAnswers.NamesakeExact` | backend/dgate/db.py:768-784 | One that is not leads to its first live namesake, and is filed. |
| `OrganisationAnswers.NewNameExact` | backend/dgate/db.py:774-796 | One that nothing is known by makes a new live row, and is filed. |
| `OrganisationAnswers.AttachedExact` | backend/dgate/db.py:799-825 | What becomes of the number where the name leads: nothing, given to the row, refused because it is taken, or a row of its own. |
| `OrganisationAnswers.AnswerIsNoted` | backend/dgate/db.py:692-784 | A notice's buyer is who it was resolved to, and a winner's award counts for who that was. |
| `OrganisationUndo.Tables.Undo` | backend/dgate/ops/undo_merges.py:284-294 | Refused exactly when a head of the batch was merged since, changing nothing; otherwise members point nowhere, rows repointed from a member point at it again, and every alias and buyer goes back where the plan says. |
| `OrganisationUndo.AllTraced` | backend/dgate/ops/undo_merges.py:109-124 | What a batch of merges leaves of every row: untouched, merged at the top and never moved, or moved on last from the member it stood under, to where that member points. |
| `OrganisationUndo.LiveIs` | backend/dgate/ops/undo_merges.py:126-131 | Following what stays after the undo leads from every row to the member it stood under, or to its organisation of before. |
| `OrganisationUndo.BackToIs` | backend/dgate/ops/undo_merges.py:133-138 | The member that a row goes back to: the one it stood under, exactly when the head stated is the row's. |
| `OrganisationUndo.SettledExact` | backend/dgate/ops/undo_merges.py:115-124 | An organisation stands under none or itself exactly when the batch does not absorb it and later the row that kept it. |
| `OrganisationUndo.LastFromExact` | backend/dgate/ops/undo_merges.py:115-124 | A row goes back to the member that its newest line fits: one that moved it from a member to where it still points. |
| `OrganisationUndo.PointerBackExact` | backend/dgate/ops/undo_merges.py:284-288 | A row points where it did before the batch if and only if it was live or its organisation is in no such chain. |
| `OrganisationUndo.AliasBackExact` | backend/dgate/ops/undo_merges.py:147-155 | An alias is as it was if and only if its organisation was not absorbed, or is in no chain and was not noted as the alias's own first. |
| `OrganisationUndo.BuyerBackExact` | backend/dgate/ops/undo_merges.py:157-169 | A notice has its buyer again if and only if an absorbed buyer is the one the archived row last stood under, or a buyer not absorbed did not absorb the archived row. |
| `OrganisationUndo.ArchivedBuyerBackExact` | backend/dgate/ops/undo_merges.py:157-169 | With the buyer archived as it stood, the notice has it again if and only if it is in no chain. |
| `OrganisationUndo.UnchainedComesBack` | backend/dgate/ops/undo_merges.py:1-34 | Merging a batch in which no row kept is absorbed later, and undoing it, gives back every pointer, every alias and every buyer archived as it stood. |
| `OrganisationUndo.ChainKeepsAliases` | backend/dgate/ops/undo_merges.py:147-155 | Any three live organisations can be merged in a chain; undone together, the first one's aliases do not come back. |
| `Billing.PlanInForce` | backend/dgate/billing.py:183-200 | The plan of a subscription that is paid for, the association's or the one lent to the workspace: the one that no other of them is above, the subscription's own on a tie. |
| `Billing.OverIsFinal` | backend/dgate/billing.py:123-128 | A subscription that is over stays over as time passes and by itself grants only the free plan. |
| `Billing.Ledger.WriteRow` | backend/dgate/billing.py:395-417 | Inserts or updates the account's row, keeping held values where none are stated, or is refused by the unique subscription id. |
| `Billing.Ledger.CompleteCheckout` | backend/dgate/billing.py:431-455 | A completed checkout leaves what the specification of one event says. |
| `Billing.Ledger.ChangeSubscription` | backend/dgate/billing.py:465-494 | A subscription event leaves what the specification of one event says. |
| `Billing.Ledger.RefundOrDispute` | backend/dgate/billing.py:497-513 | A refund or dispute leaves what the specification of one event says. |
| `Billing.Ledger.ApplyEvent` | backend/dgate/billing.py:516-535 | An event already seen changes nothing; otherwise id and effect are written together, or rolled back together. |
| `Billing.Ledger.Webhook` | backend/dgate/billing.py:370-391 | An event too old or too far ahead is refused; an accepted one is applied and ids older than thirty days are dropped. |
| `Billing.Ledger.CreateCheckout` | backend/dgate/billing.py:573-607 | The refusals in order, the hold, and the roll-back when the provider fails. |
| `BillingRuns.StepKeeps` | backend/dgate/billing.py:395-535 | Every step keeps the invariant of the tables, and replaces a held subscription id only when the held subscription is over. |
| `BillingRuns.RunKeeps` | backend/dgate/billing.py:420-494 | Over every run no row is lost, every row belongs to an account that opened a checkout here, and no two accounts share a subscription. |
| `BillingRuns.IdReplacedOnlyWhenOver` | backend/dgate/billing.py:465-494 | Over every run an account whose subscription id changed held, at some step, that same id while it was over. |
| `BillingRuns.TakenUpOnce` | backend/dgate/billing.py:516-545 | An event id is taken up at most once in any run, although ids are pruned after thirty days. |
| `BillingRuns.EndsFolded` | backend/dgate/billing.py:465-513 | For an established subscription any delivery order, with repeats and other traffic in between, leaves what its events, refunds and disputes say one after another, each unless it is older than the one taken before it. |
| `BillingRuns.EndsWithNewest` | backend/dgate/billing.py:465-494 | Where nothing is refunded or disputed, any such order ends with the newest of what was said. |
| `BillingRuns.NewestMeans` | backend/dgate/billing.py:465-494 | The newest is one of the things said and nothing said is newer. |
| `BillingRuns.DeliveryOrderIsIrrelevant` | backend/dgate/billing.py:465-494 | Where nothing is refunded or disputed, two runs that let in the same events leave plan, period, status and period end the same. |
| `BillingRuns.NewestStandsExact` | backend/dgate/billing.py:465-513 | What is said one after another ends with the terms of the newest subscription event if and only if no newer refund or dispute was let in before it. |
| `BillingRuns.EndsWithNewestExact` | backend/dgate/billing.py:465-513 | So does the row: plan, period and period end always, and the status too where the reversals are plain refunds, are those of the newest subscription event, where it says something new, if and only if no refund or dispute newer than it was let in before it. |
| `BillingRuns.RefundFirst` | backend/dgate/billing.py:497-513 | For example: an active subscription is ended and a payment refunded later; told in that order it ends, with the refund first it stays active. |
| `BillingRuns.OpeningKeepsCap` | backend/dgate/billing.py:283-291 | Opening a checkout keeps the founding places of all accounts within twenty, although the caller's own hold was left out of the count. |
| `BillingRuns.LateExact` | backend/dgate/billing.py:431-513 | An event makes a founding row live for an account without a place in exactly four cases of the event and the tables: a founding checkout paid or started after its hold ran out, a subscription turned or revived to founding, a dispute of an ended founding subscription; each with the guards of its branch. |
| `BillingRuns.HoldersAfterEvent` | backend/dgate/billing.py:431-513 | An event never adds an account to those holding a place, except where a late row is written, which adds exactly its own. |
| `BillingRuns.EventKeepsCapExact` | backend/dgate/billing.py:431-513 | An event breaks the cap if and only if it is one of those four cases while all twenty places are held. |
| `BillingRuns.FoundingCapHolds` | backend/dgate/billing.py:283-291 | Over every interleaving without such a conversion, at every later moment at most twenty accounts hold a founding place. |
| `BillingRuns.FoundingCapExact` | backend/dgate/billing.py:283-291 | A run keeps the cap after every step if and only if no event of it is such a case while all twenty places are held. |
| `BillingSoldOut.LateConversionPassesCap` | backend/dgate/billing.py:431-455 | A run from empty tables, in order of time, passes the cap at its last step: all twenty places are sold while a hold has run out, then its checkout is paid. |
| `BillingSoldOut.LateStartPassesCap` | backend/dgate/billing.py:465-494 | So does a run in which that checkout's subscription is said to be active. |
| `BillingSoldOut.DisputePassesCap` | backend/dgate/billing.py:497-513 | And one in which one of twenty subscriptions ends, its place is taken, then a payment of the ended one is disputed. |
| `BillingSoldOut.RevivalPassesCap` | backend/dgate/billing.py:465-494 | And one in which the ended one is said to be active again. |
| `Billing.OwnPlanExact` | backend/dgate/billing.py:123-128 | A subscription grants its plan in exactly three statuses, and until the period ends in the canceled one; and it is over exactly in the two ended ones and in the canceled one once the period has ended. |
| `Billing.LargestExact` | backend/dgate/billing.py:190-200 | The plan in force is the one of the three that no other is above, in the stated order, the subscription's own on a tie, then the association's. |
| `BillingAnswers.CheckoutAnswerExact` | backend/dgate/billing.py:574-607 | Which answer a checkout gets, said of the price list, the account's plan, the checkouts of the hour and the places taken; an account with a plan in force is told so and opens nothing. |
| `BillingAnswers.OpenedIsAsked` | backend/dgate/billing.py:593-607 | An opened checkout is the one asked for, now, under a product of that plan; nothing else moves, and a refusal moves nothing. |
| `BillingAnswers.HeardExact` | backend/dgate/billing.py:370-391 | An event is refused exactly outside its 25 hours and five minutes, and a duplicate exactly where its id is held. |
| `BillingAnswers.UnmatchedCompletion` | backend/dgate/billing.py:431-438 | A completed checkout is unmatched exactly when it names none opened here with its account, product and provider's id. |
| `BillingAnswers.CompletionAnswerExact` | backend/dgate/billing.py:443-455 | When a completed checkout is a second subscription, older, a clash or applied. |
| `BillingAnswers.CompletionLeavesExact` | backend/dgate/billing.py:446-455 | And what it leaves: the checkout marked once, its plan and period, the status stated or an active one, and what is not stated as held. |
| `BillingAnswers.SubscriptionExact` | backend/dgate/billing.py:486-494 | When an event of a known subscription is a mismatch, older or applied, and what it leaves: the plan of a listed product, the status stated, and otherwise what was held. |
| `BillingAnswers.StartExact` | backend/dgate/billing.py:471-485 | When an event of an unknown subscription starts the one of a checkout opened here, and what it leaves. |
| `BillingAnswers.ReversalExact` | backend/dgate/billing.py:497-513 | When a refund or dispute is older or applied, and what it leaves. |
| `BillingAnswers.OthersChangeNothing` | backend/dgate/billing.py:516-535 | Every other event changes no row, and is ignored or unmatched. |
| `BillingAnswers.NotedExact` | backend/dgate/billing.py:538-545 | The ids noted after a delivery: those received in the last thirty days, and this one. |
| `BillingAnswers.PlanAfterRun` | backend/dgate/billing.py:183-200 | Whatever the order of delivery, the plan in force in the end is the newest one said, as long as what was said grants it. |
| `BillingAnswers.ActiveEventGrants` | backend/dgate/billing.py:465-494 | After any run, an applied event that says the subscription to a listed product is active puts that product's plan in force, and the account opens no second checkout. |
| `SingleFlight.Cache.Enter` | backend/dgate/accounts.py:1471-1481 | First critical section: a fresh hit moves to the end, else the key's flight is joined, else created. |
| `SingleFlight.Cache.Publish` | backend/dgate/accounts.py:1494-1499 | Stores the value as most recently used, drops the oldest beyond 200 and takes the mark down. |
| `SingleFlight.Cache.Clear` | backend/dgate/accounts.py:1489-1493 | Takes the mark down and stores nothing. |
| `SingleFlight.StepsAreTheCaches` | backend/dgate/accounts.py:1468-1502 | The interleaved protocol touches the two tables as the cache's three critical sections promise, and in no other step. |
| `SingleFlightRuns.StoredByUse` | backend/dgate/accounts.py:1494-1498 | After a publication the entries are still in order of last use and at most 200. |
| `SingleFlightRuns.EvictsLeastRecentlyUsed` | backend/dgate/accounts.py:1496-1498 | Whatever is dropped was used before everything kept, and the new entry stays. |
| `SingleFlightRuns.StepKeeps` | backend/dgate/accounts.py:1468-1502 | Every atomic step of any thread keeps the protocol's invariant. |
| `SingleFlightRuns.LeaderIsUnique` | backend/dgate/accounts.py:1476-1481 | At most one thread leads a key at any time. |
| `SingleFlightRuns.EveryRunIsSound` | backend/dgate/accounts.py:1459-1502 | From an empty cache, in every interleaving: one leader a key, at most 200 entries, and every answer for a key is a value some computation of that key returned. |
| `SingleFlightRuns.ResolvedByItsLeader` | backend/dgate/accounts.py:1488-1502 | A flight is resolved by its leader's step and no other, and a resolved flight never changes. |
| `SingleFlightRuns.ResolvedOnce` | backend/dgate/accounts.py:1488-1502 | Over every run a resolved flight keeps its outcome. |
| `SingleFlightRuns.LeaderCanResolve` | backend/dgate/accounts.py:1486-1502 | An unresolved flight is never abandoned: from any reachable state its leader alone can bring it to an outcome. |
| `SingleFlightRuns.FailureLeavesNothing` | backend/dgate/accounts.py:1488-1493 | A failed computation leaves the cache as it was and takes its mark down. |
| `SingleFlightRuns.HitIsFresh` | backend/dgate/accounts.py:1471-1475 | An answer from the cache is younger than the caller's ttl and was computed for that key. |
| `SingleFlightRuns.AskersWait` | backend/dgate/accounts.py:1476-1487 | While a key is computed, every other caller is answered from the cache or waits for that flight. |
| `SingleFlightAnswers.AskExact` | backend/dgate/accounts.py:1468-1471 | A thread without a call asks at the present time; one with a call goes on with that. |
| `SingleFlightAnswers.LeaderReturns` | backend/dgate/accounts.py:1486-1502 | A leader whose computation returns answers its call and its flight with the value, stores it as the newest entry and leaves the key free. |
| `SingleFlightAnswers.LeaderRaises` | backend/dgate/accounts.py:1488-1493 | One whose computation raises raises in its call and its flight, and stores nothing. |
| `SingleFlightAnswers.FollowerReceives` | backend/dgate/accounts.py:1481-1483 | A follower receives its flight's outcome, and nothing before there is one. |
| `SingleFlightAnswers.FollowerGoesAlone` | backend/dgate/accounts.py:1484-1485 | One that waited too long is answered with what it computes itself; the cache and the flights are left alone. |
| `SingleFlightAnswers.TimePasses` | backend/dgate/accounts.py:1468-1471 | Time passes for all threads alike. |
| `SingleFlightAnswers.NobodyIsStuck` | backend/dgate/accounts.py:1468-1502 | From every state a caller's own steps bring it an answer, or past the cache where it has only asked. |
| `Throttle.LoginWait` | backend/dgate/accounts.py:646-653 | No wait exactly below the free failures or once the full wait has passed, and never more than the cap. |
| `Throttle.Throttle.ThrottleMail` | backend/dgate/accounts.py:608-643 | Refused by the first limit that is reached, writing nothing, or counted under all four counters. |
| `Throttle.Throttle.LoginGate` | backend/dgate/accounts.py:656-681 | Open exactly when every gate's wait is over; otherwise one gate's wait. |
| `Throttle.Throttle.LoginFailed` | backend/dgate/accounts.py:684-689 | Counts the failure under the pair, the address, the client and, for a code, the code counter. |
| `Throttle.Throttle.LoginSucceeded` | backend/dgate/accounts.py:692-698 | Afterwards the address's counters and this client's pair read as if nothing had been counted, at any time, and every other counter reads as before. |
| `ThrottleRuns.SpacedMeans` | backend/dgate/accounts.py:575-606 | Spacing of the accepted times bounds every hour, wherever it starts, not only hours ending at a check. |
| `ThrottleRuns.MailLimits` | backend/dgate/accounts.py:608-643 | Over every run and in every hour: at most 5 mails an address, 3 an address and client, 20 a client, 120 in all. |
| `ThrottleRuns.WaitedMeansSpaced` | backend/dgate/accounts.py:646-653 | Waits that double up to an hour keep seven failures more than are free from falling within an hour. |
| `ThrottleRuns.MinutesMeanSpaced` | backend/dgate/accounts.py:646-653 | Waits of a minute at most leave room for sixty failures more than are free. |
| `ThrottleRuns.FailureLimits` | backend/dgate/accounts.py:646-689 | Over every run and in every hour, of the failures not cleared by a sign-in: at most 11 of an address and client, 11 wrong codes of an address over all clients, 80 of an address and 36 of a client, the last three where no signed-in session counts past their gate. |
| `ThrottleRuns.SignInLimit` | backend/dgate/accounts.py:646-689 | Over every run and in every hour at most 11 failures of one address and client since their last sign-in. |
| `ThrottleRuns.WholeHourNeverAsked` | backend/dgate/accounts.py:646-653 | At no moment of any run does a pair reach the twelve failures that would lock for an hour. |
| `ThrottleRuns.WaitedIsARun` | backend/dgate/accounts.py:646-689 | Any sorted times that have waited are the failures of a run whose every attempt the gates let through. |
| `ThrottleRuns.ElevenFit` | backend/dgate/accounts.py:646-689 | So the bound of 11 is reached: a run of eleven attempts with eleven failures counted in one hour. |
| `ThrottleAnswers.RecentExact` | backend/dgate/accounts.py:575-581 | What is counted is the counter's rows less than an hour old. |
| `ThrottleAnswers.MailAnswerExact` | backend/dgate/accounts.py:626-643 | A mail is let through if and only if the hour holds fewer than 3 of its pair, 5 of its address, and of its client 20 while there are fewer than 60 in all and 3 from then on, and fewer than 80 in all, or 120 and none of this client; and which limit refuses the others. |
| `ThrottleAnswers.MailsOverRuns` | backend/dgate/accounts.py:608-643 | So over every run, of the mails sent in the hour before, pruned or not. |
| `ThrottleAnswers.CrowdedClientsStop` | backend/dgate/accounts.py:629-635 | Over every run a client that has sent three in the hour sends no more once sixty are gone. |
| `ThrottleAnswers.LimitsAreReached` | backend/dgate/accounts.py:626-643 | A run of twenty mails of one client is let through, and one of 120 mails of as many clients; the next mail is refused. |
| `ThrottleAnswers.AttemptExact` | backend/dgate/accounts.py:656-681 | An attempt is let through if and only if each gate it meets holds few enough failures of the hour, or the last of them was long enough ago: 5 of the pair, 5 codes and 20 failures of the address, 30 of the client, a session meeting the first alone. |
| `ThrottleAnswers.WaitsExact` | backend/dgate/accounts.py:646-653 | The waits in seconds: 30, 60, 120 and so on to an hour, or 30 and then a minute. |
| `ThrottleAnswers.FailureIsCounted` | backend/dgate/accounts.py:684-689 | A failure counts once for its pair, its address and its client, and for the address's codes where it was one. |
| `ThrottleAnswers.SignInClears` | backend/dgate/accounts.py:692-698 | A sign-in clears the address's failures and codes and those of its pair, and nobody else's. |
| `ThrottleAnswers.PrunedExact` | backend/dgate/accounts.py:528-532 | Pruning removes exactly the rows more than a day old. |
| `Changes.FoldAll` | backend/dgate/changes.py:277-318 | One slot per notice and day, each the fold of that day's amendments in order. |
| `Changes.Merge` | backend/dgate/changes.py:304-318 | Merging one more amendment: last after wins, fields back where they began are dropped, an empty entry goes. |
| `Changes.FoldIsNetChange` | backend/dgate/changes.py:297-318 | When lines chain, the folded entry is the net change of the day per field: its first before, its last after, nothing that did not move, however often a field or the entry cancels. |
| `Changes.EntryIffSomethingMoved` | backend/dgate/changes.py:297-318 | The day has an entry if and only if some field ends it elsewhere than it began. |
| `Changes.BuildEvents` | backend/dgate/changes.py:345-360 | One event per notice and day; a first sighting wins over the day's amendments. |
| `Changes.EntryTimeExact` | backend/dgate/changes.py:304-318 | An entry's time is the latest of the amendments since it began. |
| `Changes.InScan` | backend/dgate/changes.py:216-238 | Where notes follow their versions, the scan holds a notice if and only if some version of it was observed since then, is not the first, moved a listed field and has no note at all; with the newest such observation. |
| `Changes.CountsExact` | backend/dgate/changes.py:223-231 | So reading only the notes made since then is exact. |
| `Changes.CandidatesExact` | backend/dgate/changes.py:247-274 | The candidates are exactly the notices amended since then, and from the index also those whose amendment has got its note since it was made. |
| `Changes.IndexMissesNothing` | backend/dgate/changes.py:247-274 | The stored index joined with the overlapping rescan finds everything the full scan finds, even when notes were added since. |
| `Changes.IndexIsScan` | backend/dgate/changes.py:247-274 | With no note added since, it is exactly the full scan. |
| `EditDistance.ComputeDistance` | backend/dgate/awards.py:614-620 | The row overwritten in place computes the recursive edit distance of any two strings. |
| `EditDistance.OverwriteRow` | backend/dgate/awards.py:616-619 | The inner loop turns the row of i - 1 letters into the row of i. |
| `EditDistance.NoScriptIsCheaper` | backend/dgate/awards.py:614-620 | No edit script that turns one string into the other costs less than the distance. |
| `EditDistance.CheapestScript` | backend/dgate/awards.py:614-620 | Some script costs exactly the distance. |
| `EditDistance.Symmetric` | backend/dgate/awards.py:614-620 | The distance is symmetric. |
| `EditDistance.ZeroMeansEqual` | backend/dgate/awards.py:614-620 | It is zero exactly for equal strings. |
| `EditDistance.Triangle` | backend/dgate/awards.py:614-620 | It satisfies the triangle inequality. |
| `EditDistance.CommonBeginning` | backend/dgate/awards.py:614-620 | A common beginning does not count. |
| `EditDistance.ConflictIsSymmetric` | backend/dgate/awards.py:623-633 | Conflict is symmetric, never of a number with itself, and never when one stripped number begins the other. |
| `EditDistance.DigitConflictExact` | backend/dgate/awards.py:605-633 | Two different all-digit numbers of equally many significant digits conflict if and only if their lengths differ or their significant digits are two edits apart. |
| `EditDistance.ConflictExact` | backend/dgate/awards.py:605-633 | Two numbers conflict if and only if neither begins the other without its leading zeros, they are two edits apart, and both are numerals of as many significant digits or neither is one and both have the same letters in front. |
| `EditDistance.LettersExact` | backend/dgate/awards.py:609-610 | The letters of a number are those in front of its first other character. |
| `EditDistance.LeadingZeroMakesConflict` | backend/dgate/awards.py:623-633 | So a leading zero can make a conflict of numbers one slip apart, against the comment. |
| `EditDistance.EqualPaddingExact` | backend/dgate/awards.py:605-633 | Numbers with letters and as many leading zeros on both: written they conflict differently from stripped if and only if there are zeros, the letters behind them differ, and they are two edits apart. |
| `EditDistance.ZerosHideLetters` | backend/dgate/awards.py:605-633 | Two such pairs for every two letters and digits: "0A1" and "0B2" conflict, "A1" and "B2" do not. |
| `EditDistance.UnequalPaddingExact` | backend/dgate/awards.py:605-633 | With more zeros on one: they conflict if and only if the other begins with no letter and is not the padded one with its first letter replaced or one put in front. |
| `EditDistance.ZeroMakesLetteredConflict` | backend/dgate/awards.py:605-633 | Such a pair for every digit and letter: "01A" and "10A" conflict, "1A" and "10A" do not. |
| `Competition.ClassesExact` | backend/dgate/competition.py:58-60 | A class is four digits that some code begins with. |
| `Competition.KeysExact` | backend/dgate/competition.py:78-83 | The slices of a row are its classes and, where one is stated, its country. |
| `Competition.RowMarketsExact` | backend/dgate/competition.py:74-77 | A row is in the market of its buyer and each of its classes. |
| `Competition.RankingExact` | backend/dgate/competition.py:118-126 | The ranking is a strict order: larger overlap, then more markets, then the lower number. |
| `Competition.CommonestExact` | backend/dgate/competition.py:137-145 | The currency of a slice is stated by the most contracts, and is the first in the alphabet of those. |
| `Competition.BeforeExact` | backend/dgate/competition.py:137-145 | Texts are ordered by their first difference. |
| `Competition.PositionsAre` | backend/dgate/competition.py:74-77 | The listed positions are exactly the matching rows, in rising order. |
| `Competition.Index.constructor` | backend/dgate/competition.py:66-83 | Filling the dictionaries row by row leaves the index of the rows. |
| `Competition.WinnerListed` | backend/dgate/competition.py:74-75 | Under each winner exactly that winner's rows are listed. |
| `Competition.BuyerListed` | backend/dgate/competition.py:76-77 | Under each buyer exactly that buyer's rows are listed. |
| `Competition.SliceListed` | backend/dgate/competition.py:78-83 | Under each class and country the index holds the slice's set of contracts and, per currency, its sum and count. |
| `Competition.Index.FindRivals` | backend/dgate/competition.py:106-117 | The rivals read from the buyers' lists are those of the plain scan, each with its contracts in shared markets and exactly the intersection of the two companies' markets. |
| `Competition.BuyersSuffice` | backend/dgate/competition.py:107-117 | Reading only the lists of the company's buyers misses no row in one of its markets. |
| `Competition.Index.Analyse` | backend/dgate/competition.py:100-126 | None exactly without a row; otherwise the counts by the plain scan and the first twenty rivals of the ranking: in strict order, nobody left out ahead of one listed. |
| `Competition.OursIsTheirOverlap` | backend/dgate/competition.py:106-126 | "Ours" of A against B is the overlap of A in B's answer, and the shared markets are the same. |
| `Competition.RivalsAreMutual` | backend/dgate/competition.py:106-126 | Being a rival is mutual, and both have contracts in some shared market. |
| `Competition.Index.ShareOf` | backend/dgate/competition.py:137-145 | A slice's share by the plain scan: own contracts, all contracts, and both sums in the currency most contracts state, the first in the alphabet of those. |
| `Competition.ShareIsAPart` | backend/dgate/competition.py:137-145 | With one row per contract and winner the company's count is at most the slice's; with no negative amount so is its value. |
| `Competition.RowsAndContracts` | backend/dgate/competition.py:78-80 | Rows number at least their contracts, and as many exactly when no contract is repeated. |
| `Competition.SharesAddUp` | backend/dgate/competition.py:78-83 | The values of all the winners of a slice add up to the slice's value. |
| `Quotes.FindInOrder` | backend/dgate/eligibility.py:383-407 | The search over starts accepts exactly when the words are accepted at some place of their opening. |
| `Quotes.Rest` | backend/dgate/eligibility.py:386-397 | The recursion with its loop over ever shorter pieces decides what `Accepts` says, and ends. |
| `Quotes.QuoteFound` | backend/dgate/eligibility.py:410-414 | Found exactly when non-empty and the whole, its first hundred characters (of a hundred or more), or its parts in order occur. |
| `Quotes.LongestMeans` | backend/dgate/eligibility.py:391-396 | The piece taken is the longest long enough that occurs in the gap, at its first place there. |
| `Quotes.AcceptedIsTheText` | backend/dgate/eligibility.py:377-407 | Whatever is accepted splits into at most three consecutive pieces of 20 characters or more that occur in order, each at most 160 characters after the end of the one before. |
| `Quotes.OpeningExact` | backend/dgate/eligibility.py:398-402 | The opening is the shortest beginning of twenty characters, or all the words when none has so many. |
| `Quotes.InOrderExact` | backend/dgate/eligibility.py:383-407 | A quote is found in order if and only if, from a place of its opening on, its words split into at most three such pieces each of which is the longest in its gap, at its first place there. |
| `Quotes.ContiguousExact` | backend/dgate/eligibility.py:383-407 | A quote that occurs as it stands is found in order if and only if it has 20 characters. |
| `Quotes.SplitCanBeRefused` | backend/dgate/eligibility.py:377-397 | A quote whose parts are all there, in order and close enough, but not so, is refused. |
| `Awards.ReadWinners` | backend/dgate/awards.py:477-533 | Every winning pair of name and country is seen once, at its first tenderer, who is kept exactly when nothing speaks against it; the counts of persons, problems and missing countries are those of the first tenderers with that reason first. |
| `Awards.AwardTable.StoreWinners` | backend/dgate/awards.py:711-753 | The loop over the winners leaves the rows, the organisations named and the counts the specification says. |
| `Awards.AwardTable.StoreNotice` | backend/dgate/awards.py:698-780 | Leaves the rows of one read; its counters account for every winner, every new row and every live row, and the counters of all reads keep balancing the table. |
| `Awards.KeptExact` | backend/dgate/awards.py:745-753 | As many winners are kept as organisations named exactly when no two winners came to one organisation. |
| `Awards.StoredRows` | backend/dgate/awards.py:725-760 | One read makes its winners live, a hashed one supersedes the notice's other winners, no row goes, what a row stated first stays, no other notice moves. |
| `Awards.LiveExact` | backend/dgate/awards.py:698-760 | Over every run of reads an award is live if and only if some read named it and every later hashed read of the notice still did. |
| `Awards.RowsStay` | backend/dgate/awards.py:698-760 | No run deletes a row or changes what it stated first. |
| `Awards.DecidedOrHeld` | backend/dgate/awards.py:735-747 | A read decides what a row is worth whatever was held, or leaves whatever was held. |
| `Awards.ReadingTwice` | backend/dgate/awards.py:701 | Storing a read a second time changes no row. |
| `Awards.VerdictExact` | backend/dgate/awards.py:495-525 | A person is counted as one whatever else is said, a problem of the name before a missing country. |
| `Awards.FirstReadStands` | backend/dgate/awards.py:725-753 | A new row states the name of the first winner that came to its organisation and how many winners its first read saw, and over every run that stays. |
| `Eligibility.RaiseToFloor` | backend/dgate/eligibility.py:354-374 | Copies the facts and sets the three of the general rule where they do not stand. |
| `Eligibility.Reconcile` | backend/dgate/eligibility.py:785-821 | The facts it returns agree, only the two may have moved, and facts that agree already are returned as they are. |
| `Eligibility.ReconciledAgrees` | backend/dgate/eligibility.py:785-821 | Whatever is served, the result does not contradict itself in any of the stated ways, and no other fact moves. |
| `Eligibility.ReconciledTwice` | backend/dgate/eligibility.py:785-821 | Settling settled facts changes nothing. |
| `Eligibility.FloorHolds` | backend/dgate/eligibility.py:354-374 | Where the general rule applies, what is served in the end requires a consortium of at least three entities from at least three countries, a larger stated number standing: reconciling never undoes the floor. |
| `EligibilityAnswers.FloorExact` | backend/dgate/eligibility.py:354-374 | Where the floor applies, each of its three facts is the general rule's unless it stands, with its note, quote, confidence and scope; every other fact is served as it was. |
| `EligibilityAnswers.TrimmedExact` | backend/dgate/eligibility.py:785-821 | A condition is stated without the full stops and spaces at its end. |
| `EligibilityAnswers.LesserExact` | backend/dgate/eligibility.py:785-821 | A fact drawn from two is no surer than either. |
| `EligibilityAnswers.OnlySingleExact` | backend/dgate/eligibility.py:785-821 | Where a sentence allows single applicants only, no consortium is required, on that sentence and with what note, scope and confidence. |
| `EligibilityAnswers.BothStatedExact` | backend/dgate/eligibility.py:785-821 | Where both are stated, the single applicant goes and the consortium's note says so. |
| `EligibilityAnswers.ConditionalExact` | backend/dgate/eligibility.py:785-821 | Where a single applicant is allowed under a condition and two entities are the minimum, a consortium is required of all others. |
| `EligibilityAnswers.DeniedExact` | backend/dgate/eligibility.py:785-821 | A denied consortium beside a minimum of two, with nobody allowed alone, is dropped. |
| `EligibilityAnswers.UntouchedExact` | backend/dgate/eligibility.py:785-821 | In every other case nothing is touched. |
| `AwardValue.SetAsideIsFarBeyond` | backend/dgate/award_value.py:254-313 | Of every record: a reason is given exactly when a figure is set aside, and beside one that stands it is more than 99 times as large, after rounding. |
| `AwardValue.HundredfoldRounded` | backend/dgate/award_value.py:207-217 | Rounding a hundredfold gap to cents costs at most one of the hundred. |
| `AwardValue.UnitErrorRounded` | backend/dgate/award_value.py:195-204 | Either clean unit error is as far. |
| `AwardValue.NotAlwaysAHundred` | backend/dgate/award_value.py:195-204 | The bound cannot be raised to a hundred: a clean unit error set aside at less. |
| `AwardValue.UncontradictedStands` | backend/dgate/award_value.py:254-266 | A figure stands, to the cent, if and only if no rule contradicts it. |
| `AwardValueAnswers.RoundExact` | backend/dgate/award_value.py:269-280 | Rounding gives whole cents, the nearest ones, the even ones of two as near. |
| `AwardValueAnswers.UsableExact` | backend/dgate/award_value.py:283-285 | An amount counts when it is more than one and less than 9,999,999,999. |
| `AwardValueAnswers.SumExact` | backend/dgate/award_value.py:286-290 | Sums are of all that is listed, and there is none of an empty list. |
| `AwardValueAnswers.UsableOfExact` | backend/dgate/award_value.py:283-313 | The credible amounts of a list are kept as they stand. |
| `AwardValueAnswers.SlippedExact` | backend/dgate/award_value.py:195-204 | A figure is another one in the wrong unit if and only if it is at least a million and a thousand times it, or not in whole hundreds and a hundred times it. |
| `AwardValueAnswers.CheckedExact` | backend/dgate/award_value.py:254-266 | What becomes of a figure: the first of the estimate, its parts and the procedure that speaks against it sets it aside, each with its own numbers. |
| `AwardValueAnswers.ReadExact` | backend/dgate/award_value.py:283-296 | The figure read is the first credible one of framework maximum or lots, notice value, and tenders. |
| `AwardValueAnswers.OldRecordExact` | backend/dgate/award_value.py:300-313 | What an older record gives. |
| `AwardValueAnswers.NoFigureExact` | backend/dgate/award_value.py:297-300 | What a record with no credible figure gives. |
| `AwardValueAnswers.FigureExact` | backend/dgate/award_value.py:285-296 | When the row's total is set aside for the figure read from its parts, and when it is taken in its place. |
| `Months.AddMonths` | backend/dgate/expiring.py:121-124 | Moves the month index by n and gives a valid date, or none exactly when the year leaves the calendar. |
| `Months.AddMonthsDay` | backend/dgate/expiring.py:121-124 | The day is kept where the month has it, and is the month's last where it does not. |
| `Months.AddMonthsMonotone` | backend/dgate/expiring.py:121-124 | It keeps the order of dates. |
| `Months.ThereAndBack` | backend/dgate/expiring.py:121-124 | Forward and back never lands later, and on the day itself exactly when the month between has it. |
| `Months.MonthLengthExact` | backend/dgate/expiring.py:121-124 | The calendar that `monthrange` keeps. |
| `Months.ValidExact` | backend/dgate/expiring.py:121-124 | The dates of the years 1 to 9999. |
| `Months.NotAfterExact` | backend/dgate/expiring.py:150-176 | Dates are in order as their numbers are. |
| `Months.ListedExact` | backend/dgate/expiring.py:150-176 | A contract is listed if and only if it ends from today to the limit. |
| `Months.ListedHasCrossed` | backend/dgate/expiring.py:150-176 | Every listed contract crossed into the window by today. |
| `Months.CrossedButNotListedExact` | backend/dgate/expiring.py:150-176 | A contract that crossed and has not ended is missing from the list if and only if it ends in the limit's month, after today's day of the month, and today is the last day of its month. |
| `Months.CrossedEndsAtMostThreeDaysLate` | backend/dgate/expiring.py:150-176 | Such a contract ends at most three days past the limit. |
| `Months.ThreeDaysLate` | backend/dgate/expiring.py:150-176 | The three days are reached. |
| `Months.EnteredByNow` | backend/dgate/expiring.py:225-229 | No listed contract is said to have entered in the future or before it was first seen. |
| `Months.WiderWindowEntersEarlier` | backend/dgate/expiring.py:225-229 | With a wider window a contract entered no later, whenever its notice was first seen. |
| `Months.NoLaterExact` | backend/dgate/expiring.py:225-229 | Instants are in order of day and second. |
| `Months.EnteredExact` | backend/dgate/expiring.py:225-229 | A contract enters at the start of the day it came that close or when its notice was first seen, whichever is later. |

## Left out

- The web routes, mails, the payment provider's calls, storage, scheduling and the web site: input and output only.
- Statements of the database are modelled by their effect on the rows, with the branches of ON CONFLICT, COALESCE and
  CASE; each request or event is one atomic step, as its transaction and locks make it. Failures other than those the
  code names are not modelled.
- Hashes and keyed digests are values that differ when what they stand for differs; the eight characters that make a
  buyer's own number unique are taken as never colliding.
- Clocks and dates of the run are parameters; instants are numbers, and amounts are exact instead of floating point.
- Scrubbing of personal data, language, classification and the parsing of a source's document: their result is given.
- Archive: the notes on versions, raw storage keys, run counters and the re-mapping commands; a re-mapped version is an
  ordinary version here.
- Archive: two records of one notice are taken one after the other, as the row lock makes them.
- Organisations: candidates for a merge, the defence flag a namesake inherits, the repair log but for the repointing of
  merged rows, and the spelling of a raw name; names are already in their normal form.
- OrganisationRuns: a winner's award is counted when its name is resolved; which reads supersede it is the business of
  `Awards`.
- Organisations.BestAlias: of several aliases with the same confidence the oldest is taken, where the database may answer
  with any.
- OrganisationUndo: the registration numbers, PICs, VAT numbers, defence flags, uncounted awards and candidates that an undo
  puts back, and the choice of a batch by its window; a batch is undone whole, and no row was moved on from one of its
  members before it.
- BillingRuns.DeliveryOrderIsIrrelevant: refunds and disputes of the subscription are excluded, because with them it is
  false; `EndsWithNewestExact` says when it holds with them. A completed checkout of the same subscription would say its
  checkout's plan, whatever the price list says now, and is not delivered in either.
- BillingRuns.EndsWithNewestExact: the newest event says other terms than the row and every other event; where two say the
  same, either may have left them.
- Billing: signatures, the portal, the addresses of the provider, limits and features derived from a plan, and the copy of
  the plan on the account row.
- SingleFlight: how long a computation takes and whether threads are scheduled; a follower's time-out is a step it may
  take at any moment.
- Throttle: the text of an answer and its retry time for mails; the session cap and the recovery codes.
- Changes: the grouping of similar titles, the filters of the page and the limit on candidates, which is taken as not
  reached; the lines of an amendment are given.
- Competition: digits other than 0 to 9 in a code, the tables by country and class, the median of the contract values, rounding, names and groups of
  companies, and the quota of reports.
- Quotes: the normalisation before matching, which is taken to leave no empty word and one space between two, and
  the rules that combine the facts of several documents.
- Payload: the ISO spellings are the library's, with the facts that a printed date of the years 1 to 9999 has ten
  characters, a printed moment no Z, and both read back; `classify` is a function of the codes; a decimal becomes the same number.
- Awards: the checks of names, numbers and countries, the removal of personal data, what a name resolves to, and the
  value columns of the notice's own row.
- Eligibility: the fetching and reading of documents, which sentences are served, and the wording of the notes.
- AwardValue: the older record formats of the other sources and the rules on titles.
- Scope groups, confidence, countries, labels and the cascade of documents: finite case analysis or vocabulary, with no
  property over a run.
