# Rental rules of the homelandweb platform, in Dafny

homelandweb is a room-rental platform. Landlords list buildings ("motel
rooms" in the code), floors and rooms. Tenants deposit on and rent rooms, and
an administrator can deposit or rent a room on a tenant's behalf, one room at
a time or in bulk from a spreadsheet. This project models the pure rules that
sit inside the room controller and a few admin-screen helpers. Each rule is
written as a function over immutable records, and lemmas state what the rule
promises.

- **Contract pricing** (`Pricing`): the bail, deposit, after-check-in cost
  and total of a contract.
- **Occupancy counters** (`Occupancy`): the available, deposited, rented and
  soon-expiring counters of floors and buildings. Covers how room creation,
  deletion, editing, status changes and the post-rental recount update them,
  and how each update relates to the rooms the counters count.
- **Check-in windows** (`CheckInWindows`, over the date model `Calendar`):
  the dates the quick-deposit and quick-rent endpoints accept.
- **Back-filled bills** (`BillingHistory`): the billing periods of a
  back-dated rental, the branch that decides between creating them and
  scheduling a job, and the prorated monthly order for each period.
- **Spreadsheet import** (`SheetText`, `Patterns`, `ImportValidation`,
  `ImportSheet`, `ErrorReport`). Covers:
  - cell cleaning and `parseInt`/unary `+` on cells;
  - the phone and e-mail patterns;
  - the per-row checks of both bulk validators;
  - the error report, with its row numbering;
  - the `"key: message; …"` lines of the error sheet, and reading them back.
- **Translation tables** (`Translations`): `formatTranslationMessages` with
  its fallback to the English table.
- **Two Redux stores** (`ProcessWithdrawAdmin`, `ManagerEnergyHostAdmin`,
  over the JavaScript value model `Json`).
- **The monthly-payment approval screen** (`ManagerAcceptMonthlyHost`):
  status labels, row numbering, button gating and role-based column
  filtering.

Dates are a month index (`year * 12 + month`) and a day of the month.
`DaysInMonth` is the Gregorian calendar. Money is `real`. Database reads
become inputs: the room a row names, whether a floor lists it, the kWh the
energy controller reports, and so on. So does the current date.

Several behaviours are modelled as the code has them, not as its messages
suggest:
- The deposit window accepts only today, and any check-in the forgiving
  parse could not read.
- Both windows accept an invalid moment, since every comparison with it is
  false.
- `editRoomById` keeps only the second of its two `$inc` assignments.
- `updateInforMotel` sums the floor records it was handed, which were read
  before the floor was recounted.
- The bulk validators stop at the first row whose checks throw, including
  a row whose `roomId` is not an object id.

## Model

| member | source | states |
|---|---|---|
| Pricing.PriceContract | backend/src/controllers/homeKey/room.ts:1288-1293 | bail is the price when the deposit price is 0 and the deposit price otherwise; deposit + after-check-in cost == total == price + bail; the deposit is half the price |
| CheckInWindows.DepositWindowAcceptsOnlyToday | backend/src/controllers/homeKey/room.ts:1126-1155 | the two quick-deposit checks together accept a check-in exactly when it is today or a date the forgiving parse could not read (an invalid moment, which fails every comparison); every later date fails the second check with the "more than five days" message |
| CheckInWindows.DepositWindowRefusesTomorrow | backend/src/controllers/homeKey/room.ts:1126-1155 | the written window refuses tomorrow with the "more than five days" message, while the corrected window accepts it |
| CheckInWindows.CorrectedDepositWindowAcceptsFiveDays | backend/src/controllers/homeKey/room.ts:1141-1155 | the corrected window accepts a check-in exactly when it is today or one of the four following days |
| CheckInWindows.ContractEnd | backend/src/controllers/homeKey/room.ts:3196-3200 | the contract's last day (check-in plus the period in months, minus one day) is a valid date |
| CheckInWindows.ContractEndMonth | backend/src/controllers/homeKey/room.ts:3196-3200 | the last day falls in the check-in month plus the period, one month earlier when the contract starts on the first |
| CheckInWindows.RentWindowSpec | backend/src/controllers/homeKey/room.ts:3194-3221 | the quick-rent window refuses a valid check-in on or after today with its own message; otherwise it accepts exactly when the contract ends after the current month; an invalid moment passes |
| CheckInWindows.OneMonthRentNeedsLateStart | backend/src/controllers/homeKey/room.ts:3194-3221 | a one-month rental passes only when it started earlier in the current month, not on the first |
| Calendar.AddMonths | backend/src/controllers/homeKey/room.ts:3575-3596 | adding months moves the month index by exactly that many and keeps the day, clamped to the last day of the target month |
| Calendar.AddDaysPreservesOrder | backend/src/controllers/homeKey/room.ts:1127-1151 | shifting two dates by the same number of days keeps their order, in both directions |
| Calendar.YearMonthOrder | backend/src/controllers/homeKey/room.ts:3574-3630 | comparing years, then months within the year, agrees with comparing month indices |
| BillingHistory.BackfillPeriods | backend/src/controllers/homeKey/room.ts:3575-3617 | the loop terminates and emits one period per month from the check-in month up to but excluding the current month; the first starts on the check-in day, later ones on the first, each ends on its month's last day |
| BillingHistory.HistoryIsContiguous | backend/src/controllers/homeKey/room.ts:3575-3617 | each emitted period starts on the day after the previous one ends, and no period ends before it starts |
| BillingHistory.MonthsElapsedCountsWholeMonths | backend/src/controllers/homeKey/room.ts:3573 | the elapsed months of moment's `diff` are the largest count of months that, added to the check-in with moment's end-of-month clamp, do not pass today |
| BillingHistory.MonthsElapsedAtShortMonthEnd | backend/src/controllers/homeKey/room.ts:3573 | from 31 December, 28 February is two whole months later and 27 February one |
| BillingHistory.PlanHistory | backend/src/controllers/homeKey/room.ts:3572-3708 | under two elapsed months (moment's whole months, where a check-in late in a month counts as reached on the last day of a shorter month), back-dated bills are created when the check-in month is before the current month, and the first-month job is scheduled otherwise; from two months on, and for a check-in moment that could not be read, the all-orders job is scheduled; created bills cover one or two months |
| BillingHistory.NumberDayStay | backend/src/controllers/homeKey/room.ts:5293-5304 | the billed days are the whole month, except in the check-in month, where they are last day − check-in day + 1; always between 1 and the month's length |
| BillingHistory.Prorate | backend/src/controllers/homeKey/room.ts:5310 | a non-negative price prorated to part of a month is between 0 and the price, and equal to it for a full month |
| BillingHistory.OrderHistory | backend/src/controllers/homeKey/room.ts:5246-5318 | a back-filled order's room price is at most the monthly price, the full price outside the check-in month; the amount is the sum of the six charges; no kWh report means no electricity charge |
| BillingHistory.HistoryOrdersBillTheirPeriods | backend/src/controllers/homeKey/room.ts:5293-5304 | the order created for each emitted period bills exactly the days of that period |
| Occupancy.FieldOf | backend/src/controllers/homeKey/room.ts:4150-4155 | the counter named `${status}Room` counts that status, and only the four named statuses have one |
| Occupancy.ParseStatus | backend/src/controllers/homeKey/room.ts:426-821 | the status read from a request body always names back the text it came from, and only the four named statuses get their own constructor |
| Occupancy.ParseStatusName | backend/src/controllers/homeKey/room.ts:426-821 | reading a status's name gives the status back exactly when it is in canonical form |
| Occupancy.ParseRequest | backend/src/controllers/homeKey/room.ts:426-821 | `monthlyPayment` and `roomedPayment` select their own branches and nothing else does; any other text is a status change to the status of that name |
| Occupancy.StatusAfterEditMatchesFloor | backend/src/controllers/homeKey/room.ts:442-864 | with the edited room stored under its new status (the requested one, rented for both payment markers), a consistent floor stays consistent exactly for a plain status change, for the monthly-payment marker on a room outside the three tracked counts, and for the roomed-payment marker on a room that was already rented |
| Occupancy.StatusChangeMovesOneRoom | backend/src/controllers/homeKey/room.ts:442-680 | between available, deposited and rented, an unchanged status leaves the floor alone; otherwise the old counter loses one and the new one gains one, so their sum is kept |
| Occupancy.StatusChangeDelta | backend/src/controllers/homeKey/room.ts:442-850 | for any requested status, each tracked floor counter loses one if it counted the room before and gains one if it counts it after; the total and the soon-expiring counter are untouched |
| Occupancy.StatusChangeKeepsFloorConsistent | backend/src/controllers/homeKey/room.ts:442-850 | floor counters that agree with the floor's rooms still agree after one room changes status |
| Occupancy.MonthlyPaymentAddsRentedRoom | backend/src/controllers/homeKey/room.ts:681-690 | the monthly-payment marker adds one rented room whatever the room's status was |
| Occupancy.BuildingMovesOnlyFromAvailable | backend/src/controllers/homeKey/room.ts:442-680 | the building's counters move only for a room that was available, and never change their sum |
| Occupancy.BuildingDriftsOnRentedToAvailable | backend/src/controllers/homeKey/room.ts:659-670 | a rented room made available moves on the floor but not on the building, so a consistent building stops matching its floors |
| Occupancy.CorrectedBuildingStaysConsistent | backend/src/controllers/homeKey/room.ts:442-850 | moving the building's counters exactly as the floor's keeps a consistent building consistent under every status change |
| Occupancy.CreateRoomKeepsFloorConsistent | backend/src/controllers/homeKey/room.ts:185-232 | after a room is created the floor total is the number of listed rooms and each tracked counter counts the rooms with its status |
| Occupancy.CreateRoomAddsOneToBuilding | backend/src/controllers/homeKey/room.ts:185-232 | adding a room to one floor adds exactly one to the building's total over its floors |
| Occupancy.DeleteRoomKeepsFloorConsistent | backend/src/controllers/homeKey/room.ts:4142-4163 | deleting a room without contracts from a consistent floor leaves counters that agree with the remaining rooms |
| Occupancy.DeleteRoomErrors | backend/src/controllers/homeKey/room.ts:4123-4158 | deletion fails exactly for an unknown room ("room.not.exist") or a room some contract refers to ("room.is.rented"); a negative counter on the floor resets the room's counter to zero |
| Occupancy.EditRoomIncOnlyDecrements | backend/src/controllers/homeKey/room.ts:3938-3957 | the edit's `$inc` only takes one from the old status's counter when the status changes, and does nothing when it stays |
| Occupancy.EditRoomRecountsWithoutClamp | backend/src/controllers/homeKey/room.ts:3958-4036 | when no counter exceeds the total after the `$inc`, the floor ends equal to the recount of its rooms |
| Occupancy.EditRoomClampedFillsOneCounter | backend/src/controllers/homeKey/room.ts:3999-4036 | when a counter exceeds the total, the floor ends with the total in one counter and zero in the other two |
| Occupancy.EditRoomKeepsFloorConsistent | backend/src/controllers/homeKey/room.ts:3938-4036 | on a floor consistent with its rooms, an edit never reaches the clamp and leaves the floor consistent |
| Occupancy.EditRoomBuilding | backend/src/controllers/homeKey/room.ts:4038-4066 | a building whose floors are all completed takes the sums of its floors' counters; otherwise it is left alone |
| Occupancy.UpdateInforMotelCounts | backend/src/controllers/homeKey/room.ts:5486-5516 | each floor counter becomes the number of the floor's rooms with that status, and each building counter the sum over the floors handed in |
| Occupancy.UpdateInforMotelUsesStaleFloor | backend/src/controllers/homeKey/room.ts:5508-5516 | the building sums miss exactly the recounted floor's change, because the floors handed in predate the recount |
| SheetText.Trim | backend/src/controllers/homeKey/room.ts:1654 | the trimmed text is no longer than the input and has no white space at either end |
| SheetText.TrimIsTrimOf | backend/src/controllers/homeKey/room.ts:1654 | the trim removes exactly leading and trailing white space and keeps what lies between |
| SheetText.TrimOfIsUnique | backend/src/controllers/homeKey/room.ts:1654 | a text has one trim only |
| SheetText.TrimIsIdempotent | backend/src/controllers/homeKey/room.ts:1654 | trimming twice is trimming once |
| SheetText.TrimIsEmptyIffBlank | backend/src/controllers/homeKey/room.ts:1660-1662 | a trim is empty exactly when the text is all white space |
| SheetText.CleanRow | backend/src/controllers/homeKey/room.ts:1652-1662 | every kept text is non-empty and trimmed, and there are no more texts than cells |
| SheetText.CleanRowKeepsNonBlankCell | backend/src/controllers/homeKey/room.ts:1652-1662 | every present cell whose trimmed text is not blank is kept |
| SheetText.CleanRowKeepsOnlyCells | backend/src/controllers/homeKey/room.ts:1611-1662 | every kept text is the trimmed text of some present cell of the row; an empty cell, which `sheet_to_json` without a default value leaves out of the row object, contributes nothing |
| SheetText.CleanRowKeepsOrder | backend/src/controllers/homeKey/room.ts:1652-1662 | cleaning a row is cleaning its parts and concatenating, so the cells keep their order |
| SheetText.CleanRowSkipsEmptyCells | backend/src/controllers/homeKey/room.ts:1611-1662 | an empty cell leaves no trace in the cleaned row: the row cleans as if the cell were not there |
| SheetText.CleanRowIsIdempotent | backend/src/controllers/homeKey/room.ts:1652-1662 | cleaning an already cleaned row changes nothing |
| SheetText.CleanRows | backend/src/controllers/homeKey/room.ts:1652-1662 | the sheet is cleaned row by row, one output row per input row |
| SheetText.ParseIntDecimalText | backend/src/controllers/homeKey/room.ts:4823-4826 | `parseInt` reads back the text of any whole number |
| SheetText.ToNumberDecimalText | backend/src/controllers/homeKey/room.ts:5218-5222 | unary `+` reads back the text of any whole number, which moment adds as months |
| Patterns.NumericPhoneCell | backend/src/controllers/homeKey/room.ts:4752-4758 | a phone number stored as a number passes the phone pattern exactly when it has nine or ten digits |
| Patterns.AtIndex | backend/src/controllers/homeKey/room.ts:4721 | the scan finds the first `@`, or the end when there is none |
| Patterns.IsEmailMatchesPattern | backend/src/controllers/homeKey/room.ts:4721 | the e-mail scan accepts exactly the texts the pattern `^[^\s@]+@[^\s@]+\.[^\s@]+$` matches |
| ImportValidation.SetError | backend/src/controllers/homeKey/room.ts:4728-4932 | writing `rowErrors[key]` makes the key present with that message and changes no other key; a new key goes last, an existing one keeps its place, and keys stay distinct |
| ImportValidation.SetIf | backend/src/controllers/homeKey/room.ts:4728-4932 | a guarded write leaves an empty record empty exactly when the check passes |
| ImportValidation.RequiredCells | backend/src/controllers/homeKey/room.ts:4728-4751 | the record of the required cells is empty exactly when order, room name, room id, full name, last name and first name are all filled |
| ImportValidation.PhoneStage | backend/src/controllers/homeKey/room.ts:4752-4816 | the phone checks add nothing exactly when the phone is filled and matches the pattern, and a new account has a password, valid sign-up data and an unused e-mail, or an existing account is not locked |
| ImportValidation.RentalStage | backend/src/controllers/homeKey/room.ts:4818-4832 | the period checks add nothing exactly when the period is filled and, for a found room, not below its minimum as `parseInt` reads it |
| ImportValidation.NameAndStatus | backend/src/controllers/homeKey/room.ts:4838-4846 | a found room passes when its trimmed name equals the row's and its status is available |
| ImportValidation.Placement | backend/src/controllers/homeKey/room.ts:4858-4881 | a listed room passes when a building holds its floor and no waiting deposit exists |
| ImportValidation.RoomStage | backend/src/controllers/homeKey/room.ts:4834-4882 | the room checks throw exactly when a found room has a non-text name cell or no floor; otherwise they add nothing exactly when the room exists, matches and is free and placed |
| ImportValidation.RoomStageCorrected | backend/src/controllers/homeKey/room.ts:4834-4882 | the room checks without throws report a missing room (also for an id that cannot be cast) and a missing floor, agree with the written checks whenever those do not throw, and pass on the same rooms |
| ImportValidation.EmailStage | backend/src/controllers/homeKey/room.ts:4885-4889 | the e-mail checks add nothing exactly when the e-mail is filled and matches the pattern |
| ImportValidation.DepositCheckIn | backend/src/controllers/homeKey/room.ts:4892-4932 | the deposit sheet's date checks add nothing exactly when the date is filled, parses strictly and, with a period, passes both window checks |
| ImportValidation.RentCheckIn | backend/src/controllers/homeKey/room.ts:5190-5232 | the rent sheet's date checks add nothing exactly when the date is filled, parses strictly, lies before today and, with a period, the contract outlasts the current month |
| ImportValidation.CheckInStage | backend/src/controllers/homeKey/room.ts:4892-4932 | each sheet's date checks add nothing exactly when its date conditions hold |
| ImportValidation.CheckRow | backend/src/controllers/homeKey/room.ts:4724-4937 | one row's checks throw exactly when the `roomId` cell cannot be cast to an object id, or when a found room has a name cell that is not text or lies on no floor; otherwise its record is empty exactly when the row is acceptable, with no key twice and no floor key |
| ImportValidation.CheckRowCorrected | backend/src/controllers/homeKey/room.ts:4724-4937 | without throws a row's record is empty exactly when the row is acceptable, and equals the written record whenever that one does not throw |
| ImportValidation.AcceptedDepositStartsToday | backend/src/controllers/homeKey/room.ts:4905-4932 | an acceptable deposit row has today as its strictly parsed check-in date |
| ImportValidation.AcceptedRentInWindow | backend/src/controllers/homeKey/room.ts:5190-5232 | an acceptable rent row's check-in date passes the quick-rent window |
| ImportSheet.ReportWellFormed | backend/src/controllers/homeKey/room.ts:4935-4937 | report entries name rows after the start in strictly increasing order, each with at least one message |
| ImportSheet.ReportNamesRowsBeforeFirstThrow | backend/src/controllers/homeKey/room.ts:4724-5004 | row i + 1 is reported exactly when no row up to i throws and row i has messages |
| ImportSheet.ReportAllNamesRowsWithMessages | backend/src/controllers/homeKey/room.ts:4935-4937 | without throws, row i + 1 is reported exactly when row i has messages, and only rows of the sheet are named |
| ImportSheet.ReportWithoutThrows | backend/src/controllers/homeKey/room.ts:4724-5004 | when no row throws, the loop's result is the result over all rows |
| ImportSheet.RowOutcomes | backend/src/controllers/homeKey/room.ts:4724-4937 | each row's outcome is a throw exactly when that row crashes, and otherwise an empty record exactly when the row is acceptable |
| ImportSheet.CorrectedRecords | backend/src/controllers/homeKey/room.ts:4724-4937 | each corrected record is empty exactly when its row is acceptable, and equals the written outcome for rows that do not crash |
| ImportSheet.ValidateSheet | backend/src/controllers/homeKey/room.ts:4710-5005 | the validator's result numbers rows from one in increasing order, only rows with messages, with each key once and stops at the first throwing row |
| ImportSheet.CollectUntilThrow | backend/src/controllers/homeKey/room.ts:4724-5004 | the loop with its catch returns the entries of rows with messages up to the first throw |
| ImportSheet.ReportsUntilFirstCrash | backend/src/controllers/homeKey/room.ts:4724-5004 | as written, row i + 1 is reported exactly when no row up to i crashes and row i is not acceptable |
| ImportSheet.CorrectedReport | backend/src/controllers/homeKey/room.ts:4935-4937 | with the corrected checks, row i + 1 is reported exactly when row i is not acceptable |
| ImportSheet.CorrectionKeepsSheetsWithoutCrash | backend/src/controllers/homeKey/room.ts:4724-5004 | on a sheet in which no row crashes, the corrected report equals the written one |
| ImportSheet.MalformedIdFirstRowPasses | backend/src/controllers/homeKey/room.ts:4736-4740 | a sheet whose first row holds a `roomId` that is not an object id gets an empty report, so the import goes ahead, although that row is not acceptable and the corrected report names it |
| ImportSheet.FloorlessFirstRowPasses | backend/src/controllers/homeKey/room.ts:4848-4860 | a sheet whose first row names a room no floor lists gets an empty report, so the import goes ahead, although that row is not acceptable and the corrected report names it |
| ErrorReport.EntryTexts | backend/src/controllers/homeKey/room.ts:5606-5609 | each entry of an error object, in key order, cuts back at its first `": "` into its key and message, and holds a semicolon only if its message does |
| ErrorReport.ConvertErrors | backend/src/controllers/homeKey/room.ts:5604-5611 | one output line per entry, in order, with the same row number |
| ErrorReport.Split | backend/src/controllers/homeKey/room.ts:5609 | splitting at `"; "` gives at least one part |
| ErrorReport.SplitJoin | backend/src/controllers/homeKey/room.ts:5609 | splitting at `"; "` undoes joining parts free of semicolons |
| ErrorReport.SplitEntryText | backend/src/controllers/homeKey/room.ts:5608 | cutting `key: message` at its first `": "` recovers key and message when the key has no colon |
| ErrorReport.FieldKeyIsPlain | backend/src/controllers/homeKey/room.ts:4728-4932 | no error key contains a colon or a semicolon |
| ErrorReport.ReportRoundTrip | backend/src/controllers/homeKey/room.ts:5604-5611 | every line of the error sheet reads back as its row's key and message pairs |
| Translations.FormatTranslationMessages | ui/app/i18n.js:27-42 | the result has exactly the input's keys; for the default locale `vi` it is the input; otherwise a truthy message stays and a falsy one takes the English table's value |
| Translations.FormatIsIdempotent | ui/app/i18n.js:27-42 | formatting twice for the same locale is formatting once |
| ProcessWithdrawAdmin.Reduce | ui/app/containers/ProcessWithdrawAdmin/reducer.js:15-49 | each action writes only its own keys: the list, the error, the toggled `action` flag and the pop-up flags, or the named key; every other key, and the whole state for other actions, is unchanged |
| ProcessWithdrawAdmin.TwoApprovalsRestoreAction | ui/app/containers/ProcessWithdrawAdmin/reducer.js:35-44 | two approval answers in a row, success or failure, restore a boolean `action` flag |
| ProcessWithdrawAdmin.ActionFlagCountsApprovals | ui/app/containers/ProcessWithdrawAdmin/reducer.js:35-44 | over any run of actions that never sets it directly, the `action` flag flips once per approval answer |
| ProcessWithdrawAdmin.SuccessFlagSticks | ui/app/containers/ProcessWithdrawAdmin/reducer.js:35-39 | once an approval succeeds, the success pop-up flag stays set unless an action writes it directly |
| ManagerEnergyHostAdmin.Reduce | ui/app/containers/ManagerEnergyHostAdmin/reducer.js:13-33 | a list success sets `hosts` to `response.data` and throws without a response; a failure stores the error and opens the pop-up; a direct write sets exactly its key; nothing else changes |
| ManagerEnergyHostAdmin.LatestListWins | ui/app/containers/ManagerEnergyHostAdmin/reducer.js:22-24 | after two list successes the state is what the second alone gives |
| ManagerEnergyHostAdmin.PopupSurvivesLaterSuccess | ui/app/containers/ManagerEnergyHostAdmin/reducer.js:22-28 | a later list success does not close the error pop-up |
| Json.Not | ui/app/containers/ProcessWithdrawAdmin/reducer.js:37 | `!v` is a boolean that is truthy exactly when `v` is falsy |
| Json.Property | ui/app/containers/ManagerEnergyHostAdmin/reducer.js:23 | reading a property throws exactly on `undefined` and `null`, and reads an object's field |
| ManagerAcceptMonthlyHost.GetStatus | ui/app/containers/ManagerAcceptMonthlyHost/index.js:61-67 | the label is `N/A` exactly for a code other than waiting, faild, success and cancel |
| ManagerAcceptMonthlyHost.StatusLabelRoundTrip | ui/app/containers/ManagerAcceptMonthlyHost/index.js:61-67 | each known code is recovered from its label, so the four labels differ; an unknown code's label stands for no code |
| ManagerAcceptMonthlyHost.OrEmpty | ui/app/containers/ManagerAcceptMonthlyHost/index.js:91-98 | a missing profile field shows as the empty text and a present one as itself |
| ManagerAcceptMonthlyHost.TransformRows | ui/app/containers/ManagerAcceptMonthlyHost/index.js:73-102 | one row per request, in order, keyed from one, with the request's id, a label standing for the request's status, and the cash label exactly for cash payments |
| ManagerAcceptMonthlyHost.RowKeysAreDistinct | ui/app/containers/ManagerAcceptMonthlyHost/index.js:73-102 | the keys the grid identifies rows by lie in 1..n and increase, so no two rows share one |
| ManagerAcceptMonthlyHost.ButtonsOnlyForWaiting | ui/app/containers/ManagerAcceptMonthlyHost/index.js:236-290 | a row shows the accept and cancel buttons exactly when its request is stored as waiting |
| ManagerAcceptMonthlyHost.Decide | ui/app/containers/ManagerAcceptMonthlyHost/index.js:236-290 | a button records a decision only on a row that shows the buttons, with the row's id and a final status |
| ManagerAcceptMonthlyHost.DecisionClosesButtons | ui/app/containers/ManagerAcceptMonthlyHost/index.js:236-290 | once a decision is stored, the request's row no longer shows the buttons |
| ManagerAcceptMonthlyHost.FilteredColumns | ui/app/containers/ManagerAcceptMonthlyHost/index.js:312-320 | a user with other than one role sees every column; no column is added |
| ManagerAcceptMonthlyHost.SingleRoleFilterSpec | ui/app/containers/ManagerAcceptMonthlyHost/index.js:312-320 | for a single-role user the filter keeps, in order, exactly the columns that are not decision columns |
| ManagerAcceptMonthlyHost.SingleRoleColumns | ui/app/containers/ManagerAcceptMonthlyHost/index.js:152-320 | a single-role user sees every column of the screen but the accept and cancel columns |

## Left out

- Database reads and writes, their ordering and their lack of transactions. Every read is an input (`Lookups`, the floor and building records, contract counts).
- Job scheduling, notifications, HTTP responses, image upload and the spreadsheet reader and writer. The reader is replaced by the `Cell` datatype: absent, text or whole number.
- The current time. It is the `today` parameter, at day granularity; time of day is not modelled.
- The strict and forgiving `DD/MM/YYYY` parses. Their results are the input `CheckInParse`.
- Sign-up validation, the phone-number normalisation and the energy controller. Their source is not shown, so their answers are inputs (`signUpValid`, the phone cell, `kWh`).
- Floating point and the `toFixed(2)` formatting of money. Money is `real`.
- Fractional numbers in spreadsheet cells. A numeric cell holds a whole number.
- `parseInt` and unary `+` on forms other than whole decimal numbers (fractions, exponents, `Infinity`). Only the whole-number forms and hexadecimal prefixes are modelled.
- BillingHistory.PlanHistory: does not model a check-in after today, which the quick-rent window refuses before the plan is reached.
- The random hex and string helpers, the key string and image handling of `createRoom`, and the `isCompleted` flags the counter updates also write.
- The unused helper `validateData` at the end of the room controller.
- The rows after a throwing row. Their lookups are inputs, but the written validator never reads them.
- A room record without a name, and a room whose `minimumMonths` is missing. Every found room has a name and a whole-number minimum.
- ErrorReport.ReportRoundTrip: carries the premise that no message text contains a semicolon. The stored messages have none, but the premise is not discharged by proof.
- Occupancy.EditRoomClampedFillsOneCounter: states the shape of the clamped counters, not which of the three checks wins.
- The React rendering of the approval screen: money formatting, dates, modals and the profile pop-up.
- The static message tables and constant files.

## Findings

| source | as written | input that shows it | evidently intended | confidence | as-written member | corrected member |
|---|---|---|---|---|---|---|
| backend/src/controllers/homeKey/room.ts:4834-4882 | the room checks read `floorData._id` without checking it, and call `.trim()` on a room-name cell that may be a number; the catch then returns only the errors of earlier rows, so a sheet whose first row names a room that no floor lists gets an empty report and the import goes ahead | a one-row deposit sheet whose `roomId` names an existing room that no floor lists | the row is reported with the "invalid floor" message and the import is refused | not executed | ImportSheet.FloorlessFirstRowPasses | ImportSheet.CorrectedReport |
| backend/src/controllers/homeKey/room.ts:4736-4740 | the room is looked up with the raw `roomId` cell as `_id`; a text that is not an object id makes the lookup reject, and the catch returns only the errors of earlier rows | a one-row deposit sheet whose `roomId` is `abc` | the row is reported with the "room does not exist" message and the import is refused | not executed | ImportSheet.MalformedIdFirstRowPasses | ImportSheet.CorrectedReport |
| backend/src/controllers/homeKey/room.ts:637-680 | a status change moves the building's counters only when the room was available, while the floor's counters move for every change | a building with one floor and one rented room, changed to available: the floor counts it available, the building still counts it rented | the building moves exactly as the floor does | not executed | Occupancy.BuildingDriftsOnRentedToAvailable | Occupancy.CorrectedBuildingStaysConsistent |
| backend/src/controllers/homeKey/room.ts:1141-1155 | the second deposit check adds four days to both the check-in and today, so it refuses every check-in after today although its message speaks of a five-day limit | a check-in tomorrow: `checkIn + 4` starts after the end of `today + 4` | a check-in from today to four days ahead is accepted (the check-in itself compared with `today + 4`) | not executed | CheckInWindows.DepositWindowRefusesTomorrow | CheckInWindows.CorrectedDepositWindowAcceptsFiveDays |
