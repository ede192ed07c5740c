# The garage pass: a verified model

A garage sells passes. A pass names its garages and its terms; a car is registered on it by
its plate, for a half-open range of local days, one row at every garage of the pass; a QR
stands for one car's stay on it; a lane asks whether a movement is covered. This project
models that module in Dafny and proves what its design rests on.

| file | what it models |
|---|---|
| `Register`, `RegisterProofs` | the register of stays as a class whose methods write rows, one operation at a time, with no database constraint assumed |
| `Stay`, `HoldStay`, `Runs` | which days are held, holding a new QR's whole stay, and every run of the register |
| `Protocol`, `ProtocolInv`, `ProtocolProofs`, `ProtocolRuns` | transactions at READ COMMITTED, interleaved: locks, claims, guarded writes, a revocation's statements, commit and abort |
| `ProtocolTurnovers`, `ProtocolDays`, `TakenBack` | writes as read carried to their commit, which commits take a day from a row, and a refusal as the savepoints leave it |
| `OneBind` | many lanes at one credential, with the lock and the spend's predicate each removable |
| `Savepoints` | named savepoints as the database keeps them, and the store's nested writes over them |
| `RegisterByDays`, `IssueByDays`, `ShownByRead`, `Admission`, `WhatIsSaid`, `FromTheStore`, `RunningOn`, `ProtocolByDays`, `BoundByRule`, `LettersByRule`, `Loading` | what each operation does told once more from the data alone, in days, minutes, fields and counts, with none of the functions it is computed by but a plate's normal form, which `LettersByRule` tells |
| `Codes`, `Replacing`, `Redemption`, `RedemptionProofs`, `Bind` | the QRs and their replacement, a QR bound or shown again at a lane, and what is read from the register for the answer |
| `GivenUp`, `TwoPasses`, `LastDay` | which operations take a day from a pass, when two passes' QRs open on one day, and a replaced car on the day its stay ended |
| `Access`, `AccessProofs`, `AccessOrder` | the access answer, what it means, and that the order of its inputs does not show |
| `Visits`, `Allowance` | the recorded visits, and the allowance over whole runs |
| `Terms`, `NeverVacuous` | the validator of terms, and that accepted terms admit someone |
| `Plates` | normal forms, look-alikes and the one-difference walk against edit distance |
| `Documents` | the typed loader over a recursive universe of types and JSON |
| `Basics`, `Text`, `States`, `Sets`, `Lists` | what the rest shares |

Days and instants are unbounded integers, ids are integers (their order is the text order the
module sorts by), and the time-zone database is a function from a zone and an instant to a day
and a minute. `dafny verify dfyconfig.toml` checks everything.

## Where the code and its documentation differ

The code is modelled as it is; each difference is a theorem.

- `_copy_order` says that the answer at an exit does not depend on the order the copies of a
  pass arrived in. The outcome and its meaning do not. The reason can: the key holds the terms'
  one-line description, which joins lane names with commas, so two copies with different lanes
  can tie and fail different checks. `AccessOrder.OrderKeepsTheReasonIff` gives the exact condition and
  `AccessOrder.CommaInALaneNameShowsTheOrder` an input.
- A redemption's refusal is said to be carried in its answer always. After the recognised branch
  has released its savepoint, a pass that must be kept meets a blank lane name and then a
  savepoint that no longer exists: `Savepoints.BlankLaneBreaksIff` is the exact condition,
  `Savepoints.ADashAtABlankLaneBreaks` an input, and `Savepoints.RecognisedIs` says what happens when the transaction holds an earlier redemption.
- An exit of a replaced car with no stated entry is said to be covered only with that named.
  The answer on a stay's last day builds its registration without the replacement:
  `LastDay.ReplacedExitSaysSoIff` is the exact condition, `LastDay.LetOutWithNothingSaid` an input.
- Two passes' QRs for one plate can both open at one garage on one local day, when the first
  pass gives the day up in between: by an end, a checkout or a revocation, or with nobody ending
  anything, when the next stay's own registration turns the first over on its last day.
  `TwoPasses.TwoPassesOneDayIff` is the exact condition over a run, with `GivenUp.ADayIsLostIff`
  for the steps; `TwoPasses.BothOpenAroundACheckout` and `TwoPasses.BothOpenAroundATurnover` are runs.
- Lane names with white space at an edge pass the validator and can never be matched:
  `NeverVacuous.AcceptedTermsAdmitSomeone` counts them out, exactly, and
  `NeverVacuous.ALaneNobodyCanName` is one.

## Model

| member | source | states |
|---|---|---|
| `Register.OverlapsIffADayIsShared` | src/garage_pass/store/records.py:724-724 | the database's range overlap is exactly "some day is in both", an empty range overlapping nothing |
| `Register.Store.Holders` | src/garage_pass/store/records.py:711-729 | the rows of the plate, at each garage of the pass, that share a day with the range: those and no others |
| `Register.Store.RegisterVehicle` | src/garage_pass/store/records.py:745-955 | refused with nothing changed exactly on the ordered refusals; otherwise the table is the settled one: turned-over and released rows shortened, one row a garage added; `RegisterByDays.RefusedByDays` and `WrittenByDays` say both in days and row fields |
| `Register.Store.JudgeHolders` | src/garage_pass/store/records.py:842-869 | refuses exactly when some row in the way blocks; the turnover list is exactly the stays on their last day |
| `Register.Store.TurnOverRows` | src/garage_pass/store/records.py:878-902 | every row of the turnover ends on the new stay's first day, and no other row moves |
| `Register.Store.ReleaseRows` | src/garage_pass/store/records.py:904-914 | every open row of a pass that had run out ends the day after its last day, and no other row moves |
| `Register.Store.Insert` | src/garage_pass/store/records.py:921-931 | one row for each garage of the pass, in the order of the garages, after the rows there were |
| `Register.Store.EndRegistration` | src/garage_pass/store/records.py:963-1037 | ends the latest registration of the plate on the pass, at every garage it still runs at, or refuses with nothing written |
| `Register.Store.FirstOf` | src/garage_pass/store/records.py:981-996 | the row an end is judged on: the latest effective day, the first garage |
| `Register.Store.EndStay` | src/garage_pass/store/records.py:1040-1083 | every row of the pass in force on the day or later ends on it, and no other; refused when there is none |
| `Register.Store.ChangeState` | src/garage_pass/store/records.py:612-703 | the transition as allowed, and on a revocation every row of the pass ends on its own garage's day; all or nothing, an unreadable garage refusing first |
| `Register.Store.DaysOfGarages` | src/garage_pass/store/records.py:642-647 | each garage's own day of the revocation, derived before any row moves, or the refusal |
| `Register.Store.EndAtEveryGarage` | src/garage_pass/store/records.py:686-696 | one garage after another, the rows at each end on its own day |
| `Register.RevokedOneGarage` | src/garage_pass/store/records.py:686-696 | ending the rows a garage at a time comes to ending them all by each one's garage |
| `RegisterProofs.ShorteningKeepsGood` | src/garage_pass/store/records.py:884-914 | whichever rows are shortened and however far, no two rows of one plate at one garage ever meet |
| `RegisterProofs.SettledMakesRoom` | src/garage_pass/store/records.py:852-865 | what a registration turns over or releases ends before the new stay begins |
| `RegisterProofs.RegisteringKeepsGood` | src/garage_pass/store/records.py:745-955 | a registration keeps the register: rows of one plate at one garage disjoint, each ending no earlier than it starts, with no database constraint assumed |
| `RegisterProofs.OneHolderADay` | src/garage_pass/store/records.py:104-104 | one car, one pass: on any day at most one row holds a plate at a garage |
| `RegisterProofs.OnePassADay` | src/garage_pass/store/records.py:104-104 | and so at most one pass does |
| `RegisterProofs.RegisteringHolds` | src/garage_pass/store/records.py:921-955 | after a registration every day of the range is held at every garage of the pass by exactly one row: the one written there |
| `RegisterProofs.RegisteringTouchesOnly` | src/garage_pass/store/records.py:871-914 | other plates, other garages and the pass's own rows stand; another pass loses only days from the new stay's first, or past its own last day |
| `RegisterProofs.BlockedMeansHeld` | src/garage_pass/store/records.py:852-869 | a registration is refused for another hold exactly when some day of it is held by a row that is not settled; which rows are is `RegisterByDays.JudgedByDays` |
| `RegisterByDays.JudgedByDays` | src/garage_pass/store/records.py:842-869 | in days and row fields: of the rows of the plate at a garage of the pass that share a day with the range, another pass's, begun, that ends the day after the first day as a stay's plan, or is open to its pass's own last day, is turned over; one open on a pass that ran out before is released; any other blocks, exactly |
| `RegisterByDays.RefusedByDays` | src/garage_pass/store/records.py:745-869 | what refuses a registration, in order: last a row in the way that is neither on its stay's last day nor left open on a pass that has run out |
| `RegisterByDays.WrittenByDays` | src/garage_pass/store/records.py:871-955 | what it writes, row by row: what is turned over ends on the first day as the next stay's doing, what had run out the day after its pass's last, every other stands, one row a garage comes after |
| `RegisterByDays.EndedByDays` | src/garage_pass/store/records.py:992-1021 | after an end, every row of the plate on the pass with the latest row's first day and end, at whichever garage, ends on the day, ended by the owner; no other row moves |
| `RegisterByDays.EndRefusedByDays` | src/garage_pass/store/records.py:974-1011 | made exactly when there is a registration, and the latest is open, or planned to end later, and began before the day |
| `RegisterByDays.StayEndedByDays` | src/garage_pass/store/records.py:1040-1083 | a checkout: no row of the pass holds the day or a later one, every earlier day stands, no other pass's row moves |
| `RegisterByDays.RevokedByDays` | src/garage_pass/store/records.py:686-703 | a revocation: no row of the pass holds its own garage's day or a later one, every earlier day stands, no other pass's row moves |
| `RegisterByDays.ChangedByRule` | src/garage_pass/states.py:69-104 | which changes of state are made, state by state: never from revoked, never to draft, awaiting only from draft, suspended only from active, and a revocation with every garage's clock |
| `Stay.DaysHeld` | src/garage_pass/store/enrolments.py:486-504 | the spans partition the days exactly, adjacent ones alternate, and each tells the truth about every one of its days |
| `Stay.SameBetweenCuts` | src/garage_pass/store/enrolments.py:493-499 | which garages cover a day is the same on every day between two neighbouring cuts, so the sampled first day speaks for all |
| `Stay.PartitionIsUnique` | src/garage_pass/store/enrolments.py:486-504 | only one list of spans partitions the days, alternates and is true of every day |
| `HoldStay.ReadHeld` | src/garage_pass/store/enrolments.py:457-483 | the pass's own rows of the plate over the stay, and the number of its garages |
| `HoldStay.HoldTheWholeStay` | src/garage_pass/store/enrolments.py:507-534 | when not refused, the pass holds the plate at every garage on every day of the stay and the register is kept |
| `HoldStay.OnePerGarage` | src/garage_pass/store/enrolments.py:527-531 | as many rows ending that day as garages, no garage twice: one at every garage of the pass |
| `HoldStay.RunOnKeepsGood` | src/garage_pass/store/enrolments.py:537-585 | running the stay's rows on to a later end, where nothing stands in the days, lets no two rows meet |
| `HoldStay.RunOnHolds` | src/garage_pass/store/enrolments.py:537-585 | after it every garage holds the plate on every day run on to, and no other pass gains |
| `HoldStay.FillHolds` | src/garage_pass/store/enrolments.py:524-534 | one gap filled, by registering or by running on: it is held throughout, and nothing held before is lost |
| `HoldStay.FillAllHolds` | src/garage_pass/store/enrolments.py:507-534 | whatever mix of reused, registered and run-on rows: every garage, every day of the stay |
| `Runs.IssueStay` | src/garage_pass/store/enrolments.py:588-625 | a QR issued leaves its plate held through the whole stay; one refused leaves the rows as they were; which days those are, and that it adds no other, is `IssueByDays.IssuedByDays` |
| `Runs.StayIsNotEmpty` | src/garage_pass/store/enrolments.py:383-396 | the stay that is issued has at least one day, and never runs past the pass's own last day |
| `Runs.LiveIffHeld` | src/garage_pass/store/enrolments.py:405-429 | a QR's stay reads live on a day exactly when its pass holds its plate at that garage that day |
| `Runs.IssuedStayIsLive` | src/garage_pass/store/enrolments.py:588-625 | an issued QR reads live on every day to its own last day or the pass's, at every garage, on exactly one row, and no other pass holds the plate |
| `IssueByDays.IssuedByDays` | src/garage_pass/store/enrolments.py:383-396 | on every day and at each garage of the pass, after an issue the pass holds the plate exactly if it did before or the day is the QR's: from its first, as many as stated, none past the pass's last; the end told is the day after the last of them; one not made changes nothing |
| `IssueByDays.LiveOnItsOwnDays` | src/garage_pass/store/enrolments.py:405-429 | so on a plate its pass did not hold, the QR reads live on its own days and on no other |
| `IssueByDays.OthersByDays` | src/garage_pass/store/enrolments.py:507-534 | another pass's row is left alone unless it is of the plate, at a garage of the pass, and shares a day with the QR's; then it had come to its last day, or its pass had run out, by a day of the QR, and ends there |
| `IssueByDays.OwnByDays` | src/garage_pass/store/enrolments.py:537-585 | the pass's own rows stand or run on to the QR's end from inside its days, and every new row lies inside them |
| `IssueByDays.RefusedBeforeByDays` | src/garage_pass/store/enrolments.py:588-614 | what refuses an issue before its days are looked at, in order |
| `IssueByDays.MadeIffFree` | src/garage_pass/store/enrolments.py:507-534 | past those an issue is made exactly when, on each stretch of its days that its pass does not hold at every garage, no row stands in the way but on its last day or left open on a pass that has run out |
| `RunningOn.PlannedRunsOn` | src/garage_pass/store/enrolments.py:517-534 | where a row at every garage ends by its plan on a day inside the QR's and nothing of the plate stands from then to its end, each of those rows runs on to it |
| `RunningOn.OnlyPlannedRunsOn` | src/garage_pass/store/enrolments.py:517-534 | and a row of the pass that an issue moves is one of those, with nothing standing after it but what was left open on passes that had run out |
| `Runs.EveryRunKeepsTheRegister` | src/garage_pass/store/records.py:745-1083 | in every run of creating, registering, issuing, ending, ending stays and revoking, rows of one plate at one garage stay disjoint |
| `Runs.RevokingRevokes` | src/garage_pass/store/records.py:612-703 | the step that revokes leaves no row of the pass covering its garage's day of it or later |
| `Runs.RevokedForEver` | src/garage_pass/store/records.py:612-703 | and in every later state of the run that is still so |
| `Runs.OnlyARunOnLengthens` | src/garage_pass/store/enrolments.py:537-585 | every other operation leaves each row as it was or shorter; an issue lengthens rows of its own pass only |
| `Register.EndedByCoversNothing` | src/garage_pass/store/records.py:688-696 | a row covers no day from a day on exactly when it ends by then, or is empty |
| `ProtocolInv.RegistrableIsNotRevoked` | src/garage_pass/store/records.py:774-789 | a pass that takes a registration, re-read under its lock, is not revoked, committed or pending |
| `ProtocolInv.TurnOverKeeps` | src/garage_pass/store/records.py:842-889 | a checkout-day turnover, made without the other passes' locks, claims every row read on a stay's last day, and none of the writes to come can lengthen one |
| `ProtocolInv.ReleaseKeeps` | src/garage_pass/store/records.py:904-914 | an expiry release ends only a row that is still open when it is reached |
| `ProtocolInv.RunOnKeeps` | src/garage_pass/store/enrolments.py:527-571 | a run-on claims the stay's rows, one at every garage of the pass, as they were read to end |
| `ProtocolInv.EndKeeps` | src/garage_pass/store/records.py:992-1021 | an end claims every row of the latest registration, judged by its first |
| `ProtocolInv.WriteNextKeeps` | src/garage_pass/store/records.py:878-900 | a claimed row is written from exactly the end it was read with; one found moved takes back all the operation wrote |
| `ProtocolInv.FinishWriteKeeps` | src/garage_pass/store/records.py:600-609 | and with the last of them written the write is whole |
| `ProtocolInv.EndStayKeeps` | src/garage_pass/store/records.py:1040-1083 | the one unguarded write never lets a revoked pass cover more |
| `ProtocolInv.CredentialsKeep` | src/garage_pass/store/enrolments.py:716-752 | minting, spending and cancelling touch only credentials of the pass that is locked, and none of a revoked pass comes alive |
| `ProtocolInv.CancelAllKeeps` | src/garage_pass/store/records.py:674-685 | a revocation leaves no outstanding credential of the pass behind it |
| `ProtocolInv.EndRowKeeps` | src/garage_pass/store/records.py:688-696 | each row its statement reaches is re-judged as it stands, and ended on its garage's day |
| `ProtocolInv.ActKeeps` | src/garage_pass/store/records.py:556-703 | every act of a transaction keeps what holds of it: locks in order, rows shortened or its own, moves linked, statements complete |
| `ProtocolProofs.CommitKeepsCommitted` | src/garage_pass/store/records.py:556-566 | a commit keeps the committed tables: histories, dead credentials, ended rows, the linked log |
| `ProtocolProofs.CommitKeepsOthers` | src/garage_pass/store/records.py:556-566 | and what every other transaction has read, locked or written |
| `ProtocolProofs.StepKeeps` | src/garage_pass/store/records.py:543-703 | every step of every interleaving keeps the protocol's invariant |
| `ProtocolProofs.RevokedIsSafe` | src/garage_pass/store/records.py:612-703 | in every interleaving: a revoked pass has no enrolment issued or redeemed, no link issued, and no row covering its garage's day of the revocation or later |
| `ProtocolProofs.RevokedForEver` | src/garage_pass/states.py:29-35 | and it stays revoked, on the same days, for ever |
| `ProtocolProofs.NoUpdateIsLost` | src/garage_pass/store/records.py:871-914 | a committed turnover, run-on or end moved every row it claimed, each from the end it was read with, and no such move was made outside one; the moves of every row lead, each from the end the one before left, to the end it has; none but a run-on lengthens, save a stay's end on a row moved meanwhile |
| `ProtocolProofs.AClaimMovesOrRefuses` | src/garage_pass/store/records.py:1015-1035 | in every reachable state the next claimed row is moved from the end it was read with, or the operation is refused |
| `ProtocolTurnovers.AWriteAsReadCommits` | src/garage_pass/store/records.py:597-609 | a turnover, a run-on or an end whose rows still end as they were read, nobody else having written, is carried to its commit: recorded whole, every row of it written and no other |
| `ProtocolTurnovers.ATurnoverBeforeARunOn` | src/garage_pass/store/records.py:871-902 | a run from a new register: a stay's last day is turned over and committed after its own pass has read it to run it on, and the run-on is refused |
| `ProtocolProofs.RefusedLeavesNothing` | src/garage_pass/store/records.py:600-609 | in every reachable state an operation refused, which is back where it began, goes no further, and committed or not the tables are as they were |
| `TakenBack.RefusingIsRollingBack` | src/garage_pass/store/enrolments.py:1200-1209 | that going back is what the savepoints do: whatever a transaction does in any run, its acts run under the store's named savepoints are refused exactly when the protocol refuses it and leave exactly what it began with, and otherwise leave what it says |
| `TakenBack.OnItsOwn` | src/garage_pass/store/records.py:600-609 | an end, or a registration from the desk, under the one savepoint of its write: refused, it leaves what was there when the write began |
| `ProtocolProofs.HistoryIsAPath` | src/garage_pass/states.py:83-104 | every stored history is a path of allowed transitions ending at the stored state, with nothing after revoked |
| `ProtocolByDays.HistoryByRule` | src/garage_pass/states.py:22-36 | state by state: nothing follows revoked, nothing becomes a draft, awaiting follows a draft only, suspended active only |
| `ProtocolByDays.WriteNextByDays` | src/garage_pass/store/records.py:871-902 | a claimed row that still ends as read loses the days from the turnover's or the end's, or gains those to the run-on's end; one that does not takes all of it back |
| `ProtocolByDays.TurnOverByDays` | src/garage_pass/store/records.py:852-869 | of the rows it read a turnover claims those of the plate, at a garage of the pass, that share a day with the range, are another pass's and on their stay's last day, each with the end it was read with |
| `ProtocolByDays.EndByDays` | src/garage_pass/store/records.py:992-1021 | an end claims, of the rows it read, those that begin and end as the latest does, which can end that day |
| `ProtocolByDays.EndRowByDays` | src/garage_pass/store/records.py:688-696 | a revocation ends each row it reaches that still holds its garage's day or a later one, on that day, and no other |
| `ProtocolProofs.WhoWaitsHoldsNothing` | src/garage_pass/store/enrolments.py:716-730 | a transaction that waits for a lock of a pass holds nothing, and nobody waits for a credential another has |
| `ProtocolProofs.NoWaitCycle` | src/garage_pass/store/records.py:536-566 | no chain of waits for pass and credential locks is longer than one wait |
| `ProtocolDays.ADayIsTakenIff` | src/garage_pass/store/records.py:745-1083 | in every interleaving: a row that covered a day no longer does exactly when a commit in between cut it off by that day for good, a turnover taking only a stay's last day, a release only an open row, and no registration or run-on any |
| `ProtocolDays.TwoHoldersOneDay` | src/garage_pass/store/records.py:104-104 | so where the database's constraint let it commit, two rows cover one day of a plate at a garage at two moments only around such a commit of the first |
| `ProtocolRuns.ARevocationCommits` | src/garage_pass/store/records.py:612-703 | a revocation nobody is in the way of can always be carried through its statements to its commit |
| `OneBind.KeptInEveryRun` | src/garage_pass/store/enrolments.py:938-958 | with either guard, any number of lanes and cancellations: a bound identity never changes and no second bind commits |
| `OneBind.BothLanesBind` | src/garage_pass/store/enrolments.py:733-752 | with neither guard two lanes that judged the row while it was issued both bind it |
| `OneBind.OneBindIff` | src/garage_pass/store/enrolments.py:716-752 | at most one bind ever commits and the identity stands, exactly when the row is locked and re-read or the spend says "still issued" |
| `Savepoints.NestedApartIsAtomic` | src/garage_pass/store/enrolments.py:1154-1161 | when no write is under a savepoint inside another of its own name, running with named savepoints is exactly running with true nesting, and no savepoint is ever missed |
| `Savepoints.IssueIsAtomic` | src/garage_pass/store/enrolments.py:588-625 | issuing, with a turnover inside any of its registrations: a refusal at any depth restores the store |
| `Savepoints.ReplaceIsAtomic` | src/garage_pass/store/enrolments.py:1212-1274 | replacing a car: a refusal at any depth, the issue and its registrations included, restores the store |
| `Savepoints.RedemptionIsAtomic` | src/garage_pass/store/enrolments.py:919-1072 | a redemption that binds writes all of it or nothing, and its refusal is an answer |
| `Savepoints.OneNameLeavesTheOuterWrite` | src/garage_pass/store/enrolments.py:1154-1161 | with one shared name the outer write survives its own refusal; nothing is left exactly when the names differ or the outer wrote no change |
| `Savepoints.RecognisedIs` | src/garage_pass/store/enrolments.py:958-1018 | what a recognised use comes to, after its early release: done, refused with nothing written, or refused with no savepoint of its own to return to |
| `Savepoints.BlankLaneBreaksIff` | src/garage_pass/store/enrolments.py:990-1004 | with no earlier redemption in the transaction it breaks exactly when the judging passed and the first use is refused, or the read differs from the plate by one or was nothing usable and the lane's name is blank |
| `Savepoints.ADashAtABlankLaneBreaks` | src/garage_pass/store/enrolments.py:999-1004 | an input: a dash read for plate X at a lane named by a blank |
| `Codes.CodeBook.Mint` | src/garage_pass/store/enrolments.py:371-380 | a QR is made for a plate in its normal form; one blank in that form mints nothing |
| `Codes.CodeBook.Spend` | src/garage_pass/store/enrolments.py:733-752 | only an issued, unbound QR is bound, once, to the identity given |
| `Codes.CodeBook.ReplaceCar` | src/garage_pass/store/enrolments.py:1230-1274 | the QRs of a replacement: a bound one is marked exit only, an unbound one cancelled, the new one minted; or nothing |
| `Replacing.ReplaceCar` | src/garage_pass/store/enrolments.py:1164-1274 | replacing a car: the refusals of the plate, the garage, the old QR, its pass at that garage and its state, in that order; then the old QR marked and the new car's whole stay held, or neither |
| `Codes.CodeBook.CancelCode` | src/garage_pass/store/enrolments.py:1277-1312 | one QR is cancelled, its bind kept, and no other is touched |
| `Codes.CodeBook.CancelAll` | src/garage_pass/store/records.py:674-685 | a revocation cancels every QR of the pass and no other |
| `Codes.LatestReplacement` | src/garage_pass/store/records.py:1116-1143 | the latest instant the car was replaced on the pass, if it was |
| `Codes.ReplacedStaysReplaced` | src/garage_pass/store/enrolments.py:1247-1257 | from a replacement on, in every run, the car stays replaced, never from an earlier instant |
| `Codes.GoneUntilAnotherQr` | src/garage_pass/store/records.py:1120-1147 | it enters again exactly when another QR of it on the pass is live that day and not replaced |
| `Redemption.RegistrationsOf` | src/garage_pass/store/records.py:1086-1154 | one registration for each row of the plate at the garage, exit only where the car was replaced and no other QR of it is live |
| `Redemption.ReadReplacements` | src/garage_pass/store/records.py:1116-1143 | the loop over the QRs finds exactly the replaced cars no other QR lets in, and the latest instant of each |
| `Redemption.ReadRegistrations` | src/garage_pass/store/records.py:1086-1154 | the loop over the rows builds exactly those registrations |
| `Redemption.EachPassOnce` | src/garage_pass/store/access.py:104-124 | each selected pass is handed in once, however many registrations name it |
| `Redemption.HandedKnown` | src/garage_pass/store/access.py:41-73 | what is handed in are the plate's rows, only a stay checked out today, at an exit, a day longer |
| `FromTheStore.VisitsHandedIn` | src/garage_pass/store/access.py:104-124 | of each selected pass every recorded visit is handed in, in order and no more often, and no visit of another |
| `FromTheStore.GaragesHandedIn` | src/garage_pass/store/access.py:104-124 | every other garage a selected pass names and the store knows is handed in, exactly once, and no other |
| `FromTheStore.TheStoreIsHonest` | src/garage_pass/store/access.py:104-136 | so what the store hands in is what is recorded: the records the allowance's runs are proved for |
| `FromTheStore.EntryFromTheStore` | src/garage_pass/store/access.py:41-73 | an entry answered from the store is covered exactly when it can be read, some pass holds the car there today and admits the movement, it was not replaced with no other QR standing, and fewer entries are recorded on the pass than it allows: from the rows, the QRs, the passes, the garages and the visits |
| `FromTheStore.ExitFromTheStore` | src/garage_pass/store/access.py:41-73 | and an exit exactly when a pass that holds the car today, or where none does one it was checked out of today, admits the movement, the stated entry before the replacement, the recorded one no longer ago than the longest stay |
| `FromTheStore.LifeAllowanceFromTheStore` | src/garage_pass/store/access.py:41-73 | with a life allowance of N, a covered entry finds fewer than N visits of the pass in the store |
| `FromTheStore.EntersWhileItLives` | src/garage_pass/store/enrolments.py:1005-1018 | while its stay lives a recognised QR's car enters exactly when its own pass admits the movement, it was not replaced with no other QR standing, and an entry of the allowance is left |
| `FromTheStore.LeavesWhileItLives` | src/garage_pass/store/enrolments.py:1005-1018 | and leaves exactly when its own pass admits the movement and its longest stay is not over |
| `FromTheStore.LeavesOnItsLastDay` | src/garage_pass/store/access.py:85-101 | on the day its stay ended early a bound QR's car leaves covered exactly when the QR's own pass names the garage and admits it, and the recorded entry is no longer ago than the longest stay |
| `RedemptionProofs.HandedIsConsistent` | src/garage_pass/store/access.py:104-136 | the store never hands in a dangling registration or a pass twice, and what is in force is what covers today; that the visits and garages handed in are those recorded is `FromTheStore.TheStoreIsHonest` |
| `RedemptionProofs.LiveStayAnswers` | src/garage_pass/store/enrolments.py:1005-1013 | on a live stay the answer is about the QR's own pass, or names none |
| `RedemptionProofs.LastDayAnswers` | src/garage_pass/store/access.py:85-101 | on the day the stay ended early too |
| `RedemptionProofs.LastDayFromIsEarlier` | src/garage_pass/store/enrolments.py:413-426 | that stay began on the earliest of the rows ended early today, which is no later than today |
| `RedemptionProofs.RecognisedNamesItsOwnPass` | src/garage_pass/store/enrolments.py:958-1018 | every recognised answer, by the read or by a picture match, at an entry or an exit, is about the QR's own pass or names none |
| `RedemptionProofs.NeverTwoPasses` | src/garage_pass/store/enrolments.py:405-454 | two QRs of different passes for one plate are never both recognised at an entry at one garage on one local day by one state of the register |
| `RedemptionProofs.RecognisedIff` | src/garage_pass/store/enrolments.py:816-861 | a QR is recognised at an entry, by some read or match, exactly when it is bound, not cancelled, not replaced, and its pass holds its plate there that day; read by read it is `ShownByRead.UsedByRead` |
| `ShownByRead.StayByDays` | src/garage_pass/store/enrolments.py:405-429 | a stay is live exactly when its pass holds the car there that day; else ended today when a row of it was turned over or checked out that day; else to come, or over |
| `ShownByRead.UsedByRead` | src/garage_pass/store/enrolments.py:816-861 | for every read: recognised exactly when the QR is not cancelled, not a replaced car's at an entry, its stay live (or ended today, at an exit), and the read passes: for a plate, nothing usable, look-alike distance nought, or one against five letters or more; without one, the identity it was bound to; a picture decides exactly when all but the read holds; another identity is another car |
| `ShownByRead.RefusedByStay` | src/garage_pass/store/enrolments.py:432-454 | which refusal the stay gives, from the rows |
| `ShownByRead.RecognisedSays` | src/garage_pass/store/enrolments.py:816-861 | what a recognised use says of the stay and of the read |
| `ShownByRead.MatchedByPicture` | src/garage_pass/store/enrolments.py:1330-1400 | after a picture: never recognised without a match; with one exactly when the QR is usable, the stay admits and no other identity was read |
| `GivenUp.IssuingMoves` | src/garage_pass/store/enrolments.py:524-534 | an issue moves another pass's row only by a turnover or an expiry release |
| `GivenUp.IssueSettles` | src/garage_pass/store/enrolments.py:507-534 | an issue takes a day of another pass's row exactly when it is made and some day it did not hold starts a gap that turns the row over, or releases it, by that day |
| `GivenUp.ADayIsLostIff` | src/garage_pass/store/records.py:745-1083 | a pass loses a day it holds in one step exactly when the step is an end of that registration, a stay's end or a revocation by that day, or another pass's registration or issue whose turnover or release, at a gap of its stay, ends the row by that day |
| `GivenUp.LostInARunIff` | src/garage_pass/store/records.py:745-1083 | and over a run exactly when some step of it is one of those |
| `TwoPasses.TwoPassesOneDayIff` | src/garage_pass/store/enrolments.py:405-454 | once one pass's QR opened at an entry that day, another's for the plate opens later in a run exactly when such a step lies between, its pass holds the day, and it is usable |
| `TwoPasses.OneDayOnePassUnlessGivenUp` | src/garage_pass/store/enrolments.py:405-454 | without such a step the day stays one pass's |
| `TwoPasses.BothOpenAroundACheckout` | src/garage_pass/store/records.py:1040-1083 | a run in which both QRs are recognised on one day, around a checkout |
| `TwoPasses.BothOpenAroundATurnover` | src/garage_pass/store/records.py:871-902 | and one in which nobody ends anything: the next stay's registration turns the first over on its last day |
| `RedemptionProofs.CoveredByIdentity` | src/garage_pass/store/records.py:1116-1154 | a car replaced and not let in by another QR is covered on the pass only at an exit, from a stay before the replacement or one named unmeasured |
| `RedemptionProofs.ReplacedCarDoesNotEnter` | src/garage_pass/store/enrolments.py:1247-1257 | so it is from the replacement on, in every run of the QRs |
| `RedemptionProofs.LastDayAsksNothingOfReplacement` | src/garage_pass/store/access.py:85-101 | a stay's last-day answer is the same whatever the QRs say of replacements |
| `LastDay.ReplacedExitSaysSoIff` | src/garage_pass/store/access.py:85-101 | a recognised exit of a replaced car, covered with no stated entry, says it could not be measured exactly when its stay did not end that very day |
| `LastDay.LetOutWithNothingSaid` | src/garage_pass/store/access.py:85-101 | an input: a replaced car let out on the day its stay was checked out or turned over, with nothing said |
| `Bind.Redeem` | src/garage_pass/store/enrolments.py:919-1072 | the binding redemption: the refusals in their order, with nothing changed; else registered at every garage, the pass active, the QR spent |
| `BoundByRule.BindsIff` | src/garage_pass/store/enrolments.py:919-1025 | nothing refuses a bind exactly when the garage has a clock and enrols at this end, is the pass's, the QR is issued and on one of its own days, the pass takes registrations today, the lane and the direction are the pass's and a plate was read |
| `BoundByRule.RefusedByRule` | src/garage_pass/store/enrolments.py:919-1025 | else it is refused for the first of these, in order |
| `Bind.HeldAnswer` | src/garage_pass/store/access.py:41-73 | a car one pass holds today, not replaced on it, is answered by evaluating that pass, its one registration in force |
| `Bind.ABindIsNeverWasted` | src/garage_pass/store/enrolments.py:1025-1046 | when nothing refused the bind, the answer for the same movement is on the QR's pass, covered but for the times its terms state or a clock not held |
| `Access.CountVisits` | src/garage_pass/access.py:817-861 | the recorded entries on the pass that count, or the first whose garage's clock is not held |
| `Access.GroupById` | src/garage_pass/access.py:351-353 | every pass handed in, under its id, in the order it came |
| `Access.SortOut` | src/garage_pass/access.py:369-382 | the registrations of the plate that are here, and those in force naming a pass not handed in |
| `Access.HereIff` | src/garage_pass/access.py:354-382 | a registration is here exactly when some copy of its pass names the garage |
| `Access.ListCandidates` | src/garage_pass/access.py:658-661 | the candidates pass by pass in id order, the copies of an id in copy order |
| `Access.AnswerLane` | src/garage_pass/access.py:213-690 | the loops and early returns compute the answer; what it is, from the data alone, is `Admission.EntryIsCovered` and `ExitIsCovered` |
| `Access.InOrderAreCopies` | src/garage_pass/access.py:658-661 | the candidates are exactly the copies of the passes the car is registered on |
| `AccessProofs.EvaluateCovers` | src/garage_pass/access.py:485-639 | one pass is covered exactly when it is readable, active and in its days and every term holds, stated without order |
| `AccessProofs.EntryCoveredIff` | src/garage_pass/access.py:309-642 | an entry is covered exactly when everything needed can be read, the records agree and the one pass satisfies every term; each term in days and minutes is `Admission.EntryIsCovered` |
| `AccessProofs.ExitCoveredIff` | src/garage_pass/access.py:309-690 | an exit is covered exactly when the garage, the plate and the lane can be read and some copy of some pass the car is registered on satisfies every term |
| `AccessProofs.EveryExitIsAnswered` | src/garage_pass/access.py:245-300 | an exit is never refused and always noted; each answer has one of three shapes and what it means for the lane |
| `AccessProofs.FirstFailureIsTheReason` | src/garage_pass/access.py:485-639 | of thirteen checks in order the first that fails is what is reported |
| `AccessProofs.StayNowIffAllowed` | src/garage_pass/access.py:597-626 | over the maximum stay exactly when an entry is open here and all open ones are older than it |
| `AccessProofs.WindowNowIsFirstOpen` | src/garage_pass/access.py:570-579 | the window an entry is counted in is the first open one, and there is none exactly when none is open |
| `AccessProofs.CoveredIsEvaluated` | src/garage_pass/access.py:641-690 | a covered answer is what evaluating some pass the car is registered on said |
| `AccessProofs.OnePassAnswer` | src/garage_pass/access.py:641-690 | with one pass in force the answer names it or none |
| `Admission.EntryIsCovered` | src/garage_pass/access.py:309-642 | an entry is covered exactly when, in days, minutes, rows and counts: all is readable, one registration of the plate is in force, none names a missing pass, its pass came once, is active, on its days, in a window from its first minute to the one before its end, on its lanes, not replaced, and with an entry of its allowance left, each read on its own garage's clock |
| `Admission.ExitIsCovered` | src/garage_pass/access.py:309-690 | an exit exactly when some pass the plate is registered on lets it out, its longest stay and its replacement in instants |
| `Admission.WindowsThatMeet` | src/garage_pass/terms.py:69-80 | two windows that meet are never open at one instant, and one is not open at its end |
| `Admission.NobodyAtTheEnd` | src/garage_pass/access.py:570-579 | with every other term met, nobody is covered on a pass none of whose windows has begun and not ended |
| `WhatIsSaid.ToldBefore` | src/garage_pass/access.py:309-442 | what is told when nothing can be evaluated, in order, from the data |
| `WhatIsSaid.ToldOfNone` | src/garage_pass/access.py:441-473 | with nothing in force, revoked exactly when the plate is registered on a revoked pass handed in once, the latest such; else no pass |
| `WhatIsSaid.ToldOfOneOrMore` | src/garage_pass/access.py:641-690 | one pass in force is answered for itself; at an entry several are not answered |
| `WhatIsSaid.StayNotMeasured` | src/garage_pass/access.py:597-626 | a covered exit says so exactly when there is a longest stay and no entry is recorded, or one later than now |
| `WhatIsSaid.ReplacementNotMeasured` | src/garage_pass/access.py:479-515 | and of a replacement exactly when there was one, and no entry is stated or no instant known |
| `AccessOrder.EvaluateSame` | src/garage_pass/access.py:485-639 | one pass answers alike whatever the order of everything handed in |
| `AccessOrder.ReplacedAtIsLatest` | src/garage_pass/access.py:479-483 | the replacement an exit is judged by is the latest of those in force |
| `AccessOrder.OrderNeverChangesTheOutcome` | src/garage_pass/access.py:326-690 | permuting passes, registrations, visits and garages changes neither the outcome nor what it means |
| `AccessOrder.OrderKeepsTheReasonIff` | src/garage_pass/access.py:641-702 | nor the reason, exactly when no two tied copies of the pass reported first fail different checks first |
| `AccessOrder.DistinguishedCopiesNeverDiffer` | src/garage_pass/access.py:693-702 | which cannot be when copies with one sort key have one set of terms |
| `AccessOrder.CommaInALaneNameShowsTheOrder` | src/garage_pass/terms.py:106-107 | and is when a lane's name holds a comma: lanes "A,B" and lanes "A" and "B" are described alike |
| `Visits.Ledger.RecordEntry` | src/garage_pass/store/records.py:1418-1448 | an entry is recorded exactly when nothing refuses it and the car has none open there on the pass |
| `Visits.Ledger.RecordExit` | src/garage_pass/store/records.py:1451-1477 | an exit closes the one open entry at the garage the car leaves, and no other row |
| `Visits.Ledger.OpenVisit` | src/garage_pass/store/records.py:1400-1415 | the open entry of the car on the pass at the garage, if there is one |
| `Visits.OneOpenEntry` | src/garage_pass/access.py:864-878 | so the latest open entry a stay is measured from is the only one |
| `Allowance.CoveredWasUnder` | src/garage_pass/access.py:817-861 | a covered entry found fewer recorded than allowed, each on its own garage's clock |
| `Allowance.StepKeepsTheLimit` | src/garage_pass/access.py:583-594 | every recorded, covered, noted or closed entry keeps the covered ones within the allowance |
| `Allowance.AllowanceIsNeverExceeded` | src/garage_pass/access.py:583-594 | in every run a life allowance admits at most N covered entries over all garages; a window allowance at most N under one first-open window on one local day, in whatever zones |
| `Terms.DaysThatOccur` | src/garage_pass/terms.py:167-177 | exactly the weekdays of the range, although a week or more is not walked |
| `Terms.WeekdaysFollow` | src/garage_pass/terms.py:167-177 | the weekdays follow each other, Sunday by Monday, from a Monday |
| `Terms.CheckWindow` | src/garage_pass/terms.py:191-224 | a window is refused exactly when it is empty, out of range or never occurs, and for the first of what is wrong with it |
| `Terms.CheckLanes` | src/garage_pass/terms.py:257-288 | lanes are refused exactly when empty, repeated or blank, for one that is |
| `Terms.CheckTerms` | src/garage_pass/terms.py:180-288 | terms are accepted exactly when they do not contradict themselves, and refused for the first way they do |
| `NeverVacuous.WindowAcceptedIffItOpens` | src/garage_pass/terms.py:191-224 | a window in range is accepted exactly when some minute of some day of the validity is inside it |
| `NeverVacuous.AcceptedTermsAdmitSomeone` | src/garage_pass/terms.py:180-288 | accepted terms on an active pass admit someone at each garage it names, exactly when a stated lane there has a name that can be matched and the garage's clock ever reads a minute of the range and the windows |
| `NeverVacuous.AcceptedTermsHaveAMoment` | src/garage_pass/terms.py:191-224 | which a clock that skips no minute does |
| `NeverVacuous.ALaneNobodyCanName` | src/garage_pass/terms.py:279-288 | an input: the lane " A" is accepted, and no movement can name it |
| `NeverVacuous.StatedLanesAreUsable` | src/garage_pass/passes.py:96-117 | which every stated lane without edge white space is, the pass stating lanes at each of its garages |
| `Plates.PlateKeyIsIdempotent` | src/garage_pass/enrolment.py:144-153 | a plate's normal form is its own, and has its look-alike form |
| `Plates.StripKeepsKey` | src/garage_pass/enrolment.py:134-153 | white space around a plate is not part of it |
| `LettersByRule.OnePlateIff` | src/garage_pass/enrolment.py:134-153 | two texts are one plate exactly when, separators aside, they are letter for letter the same, in either case, O and nought one letter and I and one one |
| `LettersByRule.LookAlikeIff` | src/garage_pass/enrolment.py:166-183 | and look alike exactly when letter for letter the same or of one of the six groups |
| `LettersByRule.AsciiSeparatorsAre` | src/garage_pass/enrolment.py:123-135 | the ASCII characters that are white space, and those that are no part of a plate |
| `Plates.WithinOneIffDistance` | src/garage_pass/enrolment.py:186-199 | the one-pass walk decides exactly an edit distance of at most one |
| `Plates.SimilarEnoughByDistance` | src/garage_pass/enrolment.py:211-237 | a read is clearly different exactly when something usable was read and the look-alike distance is two or more, or one against a short plate; equal normal forms are the same plate |
| `Documents.LoadedIsDeep` | src/garage_pass/documents.py:196-235 | whatever the loader returns conforms to its declared type, and so does everything inside it |
| `Documents.WrittenLoads` | src/garage_pass/documents.py:196-268 | every value of a declared type, by the first alternative of each, is exactly what some document loads as |
| `Documents.TextIsNeverACollection` | src/garage_pass/documents.py:204-210 | text, and anything but a list, at a collection is refused naming the place; a tuple or a list is loaded item for item, a set as the values of its items, each once |
| `Documents.TextAtAFieldRefusesTheRecord` | src/garage_pass/documents.py:255-268 | and text at one collection of a record refuses the whole of it |
| `Documents.TextAtAnItemRefusesTheList` | src/garage_pass/documents.py:204-210 | and text at one item of a list of collections refuses the whole list |
| `Documents.ConstructionIsTyped` | src/garage_pass/typed.py:126-139 | every field a record is built with, given or default, has its declared type, so the check of its own fields finds nothing to raise |
| `Documents.RefusalIsInside` | src/garage_pass/documents.py:138-252 | a refusal of the loader's own names a place at or inside the one it was asked about |
| `Documents.FieldIsDeep` | src/garage_pass/documents.py:241-252 | a field given has its type, and takes its default exactly when it has one and is absent, or null where its type admits that |
| `Loading.LoadsWhatItSays` | src/garage_pass/documents.py:196-268 | a value is loaded exactly when the document says it: a relation between JSON and values with no order and no reader's steps |
| `Loading.RefusedInOrder` | src/garage_pass/documents.py:255-268 | a record refused names an unknown field first, then the first field in order that refuses |
| `Loading.DegradesTo` | src/garage_pass/documents.py:277-315 | an exit's document becomes its value where it loads, the carrier exactly where it does not and the carrier's fields read, and the bare refusal otherwise |
| `Documents.Load` | src/garage_pass/documents.py:255-268 | the loop over the fields loads the record, and what it loads conforms all the way down |
| `Documents.DegradeAtAnExit` | src/garage_pass/documents.py:277-315 | at an exit a document is loaded, or the load's own refusal is carried, on the record or bare: never raised |
| `Documents.CarrierIsReadable` | src/garage_pass/documents.py:271-315 | the carrier's own fields were read and have their types, every other required field is None |

## Left out

- The database itself: row-level security, grants, migrations, and the one-pass-per-garage
  constraint, which only ever aborts; `ProtocolDays.TwoHoldersOneDay` assumes it of one state, and
  no other theorem uses it.
- The command line, file reading and JSON text: a document is a JSON value.
- The time-zone database: a function. A day that daylight saving takes a minute from is a clock
  that never reads it.
- Tokens and their digests: a credential is found by its id.
- Wording: details, descriptions and the sentences of the registries. Where several rows refuse a
  registration, which of them the refusal names is not modelled.
- Upper case beyond the ASCII letters, and control characters inside a text.
- Repairing a garage's zone: in `Allowance` the zone a garage is handed in with is the registered
  one, and does not change within a run.
- `show_pass`, `show_garage_register` and the holder's contact fields: reads and single-row writes.
- The picture matches kept on a QR's row: written, never read by a decision.
- Bind.Redeem: one operation at a time; two lanes at once are in `OneBind` and `Protocol`.
- Terms.CheckTerms: values are typed, so its refusals of a value of a wrong type, and of a blank
  garage id, have no counterpart.
- Codes.CodeBook.ReplaceCar: the QRs alone, whether the new one's stay can be held a flag;
  `Replacing.ReplaceCar` holds it.
- Documents.WrittenLoads: records that differ only in a default stated or left are two items of a
  set, where the source finds them equal; no set of records is declared today.
- Own validators of the documents' dataclasses, other than the terms': a parameter that accepts or
  refuses; the white space they strip is not modelled, nor is the order in which unknown fields
  are named.
- ProtocolProofs.NoUpdateIsLost: `end_stay` writes without checking what it read, so for it the
  theorem says only that it lengthens no row that still ends as it was read.
- AccessOrder.OrderNeverChangesTheOutcome: which of several revoked passes, and which of several
  unknown clocks, an answer names may depend on the order.
- Allowance.AllowanceIsNeverExceeded: each covered entry is recorded before the next is asked about.
- RegisterProofs.BlockedMeansHeld: in the register's own terms; in days and row fields it is
  `RegisterByDays.JudgedByDays`.
- RedemptionProofs.RecognisedIff: for some read; for each read it is `ShownByRead.UsedByRead`.
- AccessProofs.EntryCoveredIff: in the access call's own terms; from the data alone it is
  `Admission.EntryIsCovered`.
- RedemptionProofs.NeverTwoPasses: one state of the register; over a run, where it is not so, see
  `TwoPasses.TwoPassesOneDayIff`.
- ProtocolProofs.RefusedLeavesNothing: the protocol sends a refused operation back to where it
  began; `TakenBack.RefusingIsRollingBack` proves that this is what the savepoints leave. It keeps
  no lock; that the locks taken before its savepoint are in fact held until it ends only delays
  the others.
- Savepoints.RecognisedIs: the reads and single statements of the two parts have no savepoints of
  their own, as in the source.
- ProtocolProofs.NoWaitCycle: pass and credential locks; writers of registration rows can still wait
  for each other, and the database then aborts one.
- OneBind.OneBindIff: one credential that no plate was stated for; its pass and rows are in `Protocol`.
- `exit_on_unreadable_records`: answers an exit on records whose content cannot be read; a short
  list of constants.
