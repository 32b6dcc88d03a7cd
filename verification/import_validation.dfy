/** The validators of the two bulk-import sheets
    (`validateDataFileExcel` for quick deposits and
    `validateDataFileExcelForQuickRentMany` for quick rentals).

    Each data row is checked column by column; every failed check writes one
    message under one key of the row's error object, a later write to the
    same key replacing the earlier message in place. Rows with at least one
    message are reported with their 1-based row number. The database lookups
    a row triggers, the sign-up validation of a new account and the two
    date parsers are inputs (`Lookups`); `today` is the day the file is
    validated.

    A row can also make the validator throw: a `roomId` cell that is not an
    object id (the room lookup rejects it), a found room whose name cell is
    not text (`.trim()` on a number or on `undefined`), or a found room that
    no floor lists (`floorData._id` on `null`). The validator's `catch`
    then returns the errors of the earlier rows, discarding the current
    row's and never looking at the rows after it. `CheckRow` returns `None`
    for such a row.
 */
module ImportValidation {
  import opened Results
  import opened Calendar
  import opened SheetText
  import opened Patterns
  import opened CheckInWindows

  datatype Sheet = QuickDeposit | QuickRent

  /** One data row, by column header. */
  datatype DataRow = DataRow(
    order: Cell, roomName: Cell, roomId: Cell, fullName: Cell, lastName: Cell,
    firstName: Cell, phone: Cell, password: Cell, email: Cell,
    rentalPeriod: Cell, checkInTime: Cell)

  /** The keys of a row's error object. */
  datatype Field =
    | Order | RoomName | RoomId | FullName | LastName | FirstName | Phone
    | Password | DataSignUp | Email | RentalPeriod | Floor | Motel | Deposit
    | CheckInTime

  function FieldKey(f: Field): string {
    match f
    case Order => "order"
    case RoomName => "roomName"
    case RoomId => "roomId"
    case FullName => "fullName"
    case LastName => "lastName"
    case FirstName => "firstName"
    case Phone => "phone"
    case Password => "password"
    case DataSignUp => "dataSignUp"
    case Email => "email"
    case RentalPeriod => "rentalPeriod"
    case Floor => "floor"
    case Motel => "motel"
    case Deposit => "deposit"
    case CheckInTime => "checkInTime"
  }

  datatype Message =
    | OrderEmpty
    | RoomNameEmpty
    | RoomIdEmpty
    | FullNameEmpty
    | LastNameEmpty
    | FirstNameEmpty
    | PhoneEmpty
    | PhoneInvalid
    | PasswordNeeded
    | SignUpInvalid
    | EmailTaken
    | AccountLocked
    | RentalPeriodEmpty
    | BelowMinimumMonths
    | RoomNotFound
    | RoomNameMismatch
    | RoomNotAvailable
    | FloorInvalid
    | MotelInvalid
    | PendingDeposit
    | EmailEmpty
    | EmailInvalid
    | CheckInEmpty
    | CheckInFormat
    | CheckInBeforeToday
    | CheckInTooFar
    | CheckInNotPast
    | ContractEndsThisMonth

  /** The text the validators store for each message. */
  function MessageText(m: Message): string {
    match m
    case OrderEmpty => "STT không được để trống"
    case RoomNameEmpty => "Tên phòng không được để trống"
    case RoomIdEmpty => "ID phòng không được để trống"
    case FullNameEmpty => "Họ và Tên không được để trống"
    case LastNameEmpty => "Họ không được để trống"
    case FirstNameEmpty => "Tên không được để trống"
    case PhoneEmpty => "Số điện thoại không được để trống"
    case PhoneInvalid => "Số điện thoại không hợp lệ"
    case PasswordNeeded => "Tài khoản không tồn tại, vui lòng thêm mật khẩu để tạo tài khoản"
    case SignUpInvalid => "Tài khoản không tồn tại, dữ liệu tạo tài khoản mới không hợp lệ"
    case EmailTaken => "Tài khoản không tồn tại, email cung cấp đã tồn tại trong hệ thống, vui lòng nhập email mới"
    case AccountLocked => "Tài khoản đã bị khóa, vui lòng liên hệ quản trị viên"
    case RentalPeriodEmpty => "Số tháng thuê không được để trống"
    case BelowMinimumMonths => "Số tháng thuê không được nhỏ hơn số tháng thuê tối thiểu của phòng"
    case RoomNotFound => "Phòng không tồn tại"
    case RoomNameMismatch => "Tên phòng tìm thấy và tên phòng trong bảng dữ liệu không trùng nhau"
    case RoomNotAvailable => "Phòng hiện không còn trống"
    case FloorInvalid => "Tầng của phòng không hợp lệ"
    case MotelInvalid => "Tòa nhà của phòng không hợp lệ"
    case PendingDeposit => "Phòng đã có giao dịch cọc trước đó, vui lòng kiểm tra lại"
    case EmailEmpty => "Email không được để trống"
    case EmailInvalid => "Email không hợp lệ"
    case CheckInEmpty => "Ngày tháng năm không được để trống"
    case CheckInFormat => "Định dạng ngày tháng không hợp lệ"
    case CheckInBeforeToday => "Ngày ký hợp đồng phải bắt đầu từ ngày hiện tại"
    case CheckInTooFar => "Ngày ký hợp đồng không được vượt quá 5 ngày tính từ ngày hiện tại"
    case CheckInNotPast => "Vui lòng nhập thời gian bắt đầu thuê nhỏ hơn thời gian hiện tại"
    case ContractEndsThisMonth => "Vui lòng nhập lại số tháng thuê và ngày bắt đầu thuê hợp lệ. Với thời gian nhập hiện tại, hợp đồng sẽ hết hạn trong tháng này."
  }

  /** A row's error object: its keys in insertion order, each with its
      message. */
  type ErrorRecord = seq<(Field, Message)>

  function Fields(rec: ErrorRecord): set<Field> {
    if rec == [] then {} else {rec[0].0} + Fields(rec[1..])
  }

  /** No key occurs twice. */
  predicate DistinctFields(rec: ErrorRecord) {
    rec == [] || (rec[0].0 !in Fields(rec[1..]) && DistinctFields(rec[1..]))
  }

  /** The message stored under `f`, if any. */
  function MessageOf(rec: ErrorRecord, f: Field): Option<Message> {
    if rec == [] then None
    else if rec[0].0 == f then Some(rec[0].1)
    else MessageOf(rec[1..], f)
  }

  /** `rowErrors[f] = m`: a new key goes last, an existing key keeps its
      place and takes the new message. */
  function SetError(rec: ErrorRecord, f: Field, m: Message): (r: ErrorRecord)
    ensures r != []
    ensures Fields(r) == Fields(rec) + {f}
    ensures MessageOf(r, f) == Some(m)
    ensures forall g :: g != f ==> MessageOf(r, g) == MessageOf(rec, g)
    ensures f !in Fields(rec) ==> r == rec + [(f, m)]
    ensures f in Fields(rec) ==> |r| == |rec| && forall k :: 0 <= k < |rec| ==> r[k].0 == rec[k].0
    ensures DistinctFields(rec) ==> DistinctFields(r)
  {
    if rec == [] then [(f, m)]
    else if rec[0].0 == f then [(f, m)] + rec[1..]
    else [rec[0]] + SetError(rec[1..], f, m)
  }

  /** A write guarded by a failed check. */
  function SetIf(rec: ErrorRecord, failed: bool, f: Field, m: Message): (r: ErrorRecord)
    ensures r == [] <==> rec == [] && !failed
    ensures Fields(r) == Fields(rec) + (if failed then {f} else {})
    ensures DistinctFields(rec) ==> DistinctFields(r)
  {
    if failed then SetError(rec, f, m) else rec
  }

  datatype RoomRecord = RoomRecord(name: string, status: string, minimumMonths: int)

  datatype UserRecord = UserRecord(isLocked: bool)

  /** What the two readings of the check-in cell give: the strict
      `DD/MM/YYYY` parse succeeds (the forgiving one then reads the same
      day), only the forgiving parse finds a date, or neither does. */
  datatype CheckInParse = Strict(date: Date) | Lenient(date: Date) | Unparseable

  /** What looking a room up by the `roomId` cell gives: the room, no room,
      or a rejection because the cell cannot be cast to an object id. */
  datatype RoomLookup = Found(record: RoomRecord) | NotFound | CastFails

  /** The answers of the lookups a row triggers: the room by the `roomId`
      cell, the user by phone number, whether the sign-up data of a new
      account validates, whether another live account holds the e-mail,
      whether a floor lists the room, whether a building holds that floor,
      whether a waiting deposit transaction exists for the room, and the
      check-in cell's parse. */
  datatype Lookups = Lookups(
    room: RoomLookup, user: Option<UserRecord>, signUpValid: bool,
    emailTaken: bool, floorFound: bool, motelFound: bool,
    pendingDeposit: bool, checkIn: CheckInParse)

  predicate ValidLookups(l: Lookups) {
    l.checkIn.Unparseable? || Valid(l.checkIn.date)
  }

  /** The room the row refers to; an empty `roomId` cell is not looked up. */
  function FoundRoom(row: DataRow, l: Lookups): (room: Option<RoomRecord>)
    ensures room.Some? <==> Truthy(row.roomId) && l.room.Found?
    ensures room.Some? ==> room.value == l.room.record
  {
    if Truthy(row.roomId) && l.room.Found? then Some(l.room.record) else None
  }

  /** Whether the room lookup itself throws. */
  predicate IdCastFails(row: DataRow, l: Lookups) {
    Truthy(row.roomId) && l.room.CastFails?
  }

  /* ---------- the checks, stage by stage ---------- */

  predicate RequiredOK(row: DataRow) {
    && Truthy(row.order) && Truthy(row.roomName) && Truthy(row.roomId)
    && Truthy(row.fullName) && Truthy(row.lastName) && Truthy(row.firstName)
  }

  /** The six cells that must not be empty. */
  function RequiredCells(row: DataRow): (r: ErrorRecord)
    ensures r == [] <==> RequiredOK(row)
    ensures DistinctFields(r)
    ensures Floor !in Fields(r)
  {
    var r1 := SetIf([], !Truthy(row.order), Order, OrderEmpty);
    assert Floor !in Fields(r1) && DistinctFields(r1);
    var r2 := SetIf(r1, !Truthy(row.roomName), RoomName, RoomNameEmpty);
    assert Floor !in Fields(r2);
    var r3 := SetIf(r2, !Truthy(row.roomId), RoomId, RoomIdEmpty);
    assert Floor !in Fields(r3);
    var r4 := SetIf(r3, !Truthy(row.fullName), FullName, FullNameEmpty);
    assert Floor !in Fields(r4);
    var r5 := SetIf(r4, !Truthy(row.lastName), LastName, LastNameEmpty);
    assert Floor !in Fields(r5);
    SetIf(r5, !Truthy(row.firstName), FirstName, FirstNameEmpty)
  }

  /** A new account needs a password, valid sign-up data and an unused
      e-mail; an existing one must not be locked. */
  predicate PhoneOK(row: DataRow, l: Lookups) {
    && Truthy(row.phone) && IsPhone(CellText(row.phone))
    && match l.user
       case None => Truthy(row.password) && l.signUpValid && !(Truthy(row.email) && l.emailTaken)
       case Some(u) => !u.isLocked
  }

  function PhoneStage(rec: ErrorRecord, row: DataRow, l: Lookups): (r: ErrorRecord)
    ensures r == [] <==> rec == [] && PhoneOK(row, l)
    ensures DistinctFields(rec) ==> DistinctFields(r)
    ensures Floor !in Fields(rec) ==> Floor !in Fields(r)
  {
    if !Truthy(row.phone) then SetError(rec, Phone, PhoneEmpty)
    else if !IsPhone(CellText(row.phone)) then SetError(rec, Phone, PhoneInvalid)
    else match l.user
      case None =>
        var r1 := SetIf(rec, !Truthy(row.password), Password, PasswordNeeded);
        var r2 := SetIf(r1, !l.signUpValid, DataSignUp, SignUpInvalid);
        SetIf(r2, Truthy(row.email) && l.emailTaken, Email, EmailTaken)
      case Some(u) => SetIf(rec, u.isLocked, Phone, AccountLocked)
  }

  /** `room.minimumMonths > rentalPeriod`, the period read by `parseInt`
      from a text cell; a comparison with `NaN` is false. */
  predicate BelowMinimum(room: RoomRecord, period: Cell) {
    match period
    case Text(s) => ParseInt(s).Some? && room.minimumMonths > ParseInt(s).value
    case Number(n) => room.minimumMonths > n
    case Missing => false
  }

  predicate RentalOK(row: DataRow, room: Option<RoomRecord>) {
    Truthy(row.rentalPeriod) && !(room.Some? && BelowMinimum(room.value, row.rentalPeriod))
  }

  function RentalStage(rec: ErrorRecord, row: DataRow, room: Option<RoomRecord>): (r: ErrorRecord)
    ensures r == [] <==> rec == [] && RentalOK(row, room)
    ensures DistinctFields(rec) ==> DistinctFields(r)
    ensures Floor !in Fields(rec) ==> Floor !in Fields(r)
  {
    if !Truthy(row.rentalPeriod) then SetError(rec, RentalPeriod, RentalPeriodEmpty)
    else SetIf(rec, room.Some? && BelowMinimum(room.value, row.rentalPeriod), RentalPeriod, BelowMinimumMonths)
  }

  /** The room exists, carries the name in the row (when the row names one),
      is available, sits on a floor of a building, and has no waiting
      deposit. */
  predicate RoomOK(row: DataRow, room: Option<RoomRecord>, l: Lookups) {
    && room.Some?
    && (!row.roomName.Missing? ==> Trim(room.value.name) == Trim(CellText(row.roomName)))
    && room.value.status == "available"
    && l.floorFound && l.motelFound && !l.pendingDeposit
  }

  /** Whether the room checks throw. */
  predicate Crashes(row: DataRow, room: Option<RoomRecord>, l: Lookups) {
    room.Some? && (!row.roomName.Text? || !l.floorFound)
  }

  /** Whether the checks of a row throw anywhere: at the room lookup or in
      the room checks. */
  predicate Throws(row: DataRow, l: Lookups) {
    IdCastFails(row, l) || Crashes(row, FoundRoom(row, l), l)
  }

  /** The name and status checks of a found room; `name` is the row's name
      as compared, `None` when there is none to compare. */
  function NameAndStatus(rec: ErrorRecord, rm: RoomRecord, name: Option<string>): (r: ErrorRecord)
    ensures r == [] <==> rec == [] && (name.Some? ==> Trim(rm.name) == Trim(name.value)) && rm.status == "available"
    ensures DistinctFields(rec) ==> DistinctFields(r)
    ensures Floor !in Fields(rec) ==> Floor !in Fields(r)
  {
    var r1 := SetIf(rec, name.Some? && Trim(rm.name) != Trim(name.value), RoomName, RoomNameMismatch);
    SetIf(r1, rm.status != "available", RoomId, RoomNotAvailable)
  }

  /** The building and deposit checks of a room a floor lists. */
  function Placement(rec: ErrorRecord, l: Lookups): (r: ErrorRecord)
    ensures r == [] <==> rec == [] && l.motelFound && !l.pendingDeposit
    ensures DistinctFields(rec) ==> DistinctFields(r)
    ensures Floor !in Fields(rec) ==> Floor !in Fields(r)
  {
    var r1 := SetIf(rec, !l.motelFound, Motel, MotelInvalid);
    SetIf(r1, l.pendingDeposit, Deposit, PendingDeposit)
  }

  /** The room checks as written. The floor message is written just before
      the throw, so it never reaches a report. */
  function RoomStage(rec: ErrorRecord, row: DataRow, room: Option<RoomRecord>, l: Lookups): (r: Option<ErrorRecord>)
    ensures r.None? <==> Crashes(row, room, l)
    ensures r.Some? ==> (r.value == [] <==> rec == [] && RoomOK(row, room, l))
    ensures r.Some? ==> (DistinctFields(rec) ==> DistinctFields(r.value))
    ensures r.Some? && Floor !in Fields(rec) ==> Floor !in Fields(r.value)
  {
    match room
    case None => Some(SetError(rec, RoomId, RoomNotFound))
    case Some(rm) =>
      if !row.roomName.Text? then None
      else
        var r2 := NameAndStatus(rec, rm, Some(row.roomName.text));
        if !l.floorFound then None else Some(Placement(r2, l))
  }

  /** The room checks without the throws: a `roomId` that is not an object
      id is reported as a missing room, a numeric name is compared by its
      text, an absent one is left to the emptiness check, and a room on no
      floor is reported as such, with no building lookup after it. */
  function RoomStageCorrected(rec: ErrorRecord, row: DataRow, room: Option<RoomRecord>, l: Lookups): (r: ErrorRecord)
    ensures r == [] <==> rec == [] && RoomOK(row, room, l)
    ensures DistinctFields(rec) ==> DistinctFields(r)
    ensures !Crashes(row, room, l) ==> Some(r) == RoomStage(rec, row, room, l)
    ensures room.Some? && !l.floorFound ==> MessageOf(r, Floor) == Some(FloorInvalid)
    ensures room.None? ==> MessageOf(r, RoomId) == Some(RoomNotFound)
  {
    match room
    case None => SetError(rec, RoomId, RoomNotFound)
    case Some(rm) =>
      var r2 := NameAndStatus(rec, rm, if row.roomName.Missing? then None else Some(CellText(row.roomName)));
      if !l.floorFound then SetError(r2, Floor, FloorInvalid) else Placement(r2, l)
  }

  predicate EmailOK(row: DataRow) {
    Truthy(row.email) && IsEmail(CellText(row.email))
  }

  function EmailStage(rec: ErrorRecord, row: DataRow): (r: ErrorRecord)
    ensures r == [] <==> rec == [] && EmailOK(row)
    ensures DistinctFields(rec) ==> DistinctFields(r)
    ensures Floor !in Fields(rec) ==> Floor !in Fields(r)
  {
    if !Truthy(row.email) then SetError(rec, Email, EmailEmpty)
    else SetIf(rec, !IsEmail(CellText(row.email)), Email, EmailInvalid)
  }

  /** The number of months moment adds for the period cell: a text cell is
      converted by unary `+`, and a value that is not a number adds
      nothing. */
  function MomentMonths(period: Cell): int {
    match period
    case Text(s) => (match ToNumber(s) case Some(v) => v case None => 0)
    case Number(n) => n
    case Missing => 0
  }

  /** The check-in date must parse strictly. For a deposit with a period,
      the date must pass both window checks; for a rental it must lie in the
      past and, with a period, the contract must outlast the current month. */
  predicate CheckInOK(sheet: Sheet, row: DataRow, l: Lookups, today: Date)
    requires ValidLookups(l) && Valid(today)
  {
    && Truthy(row.checkInTime) && l.checkIn.Strict?
    && var d := l.checkIn.date;
       match sheet
       case QuickDeposit =>
         Truthy(row.rentalPeriod) ==> !DepositStartsTooEarly(d, today) && !DepositStartsTooLate(d, today)
       case QuickRent =>
         && Before(d, today)
         && (Truthy(row.rentalPeriod) ==> !EndsWithinCurrentMonth(d, today, MomentMonths(row.rentalPeriod)))
  }

  /** The deposit sheet's date checks. The window checks read the forgiving
      parse, so they can replace the format message of a date the strict
      parse refuses; a date neither parse reads fails no window check. */
  function DepositCheckIn(rec: ErrorRecord, row: DataRow, l: Lookups, today: Date): (r: ErrorRecord)
    requires ValidLookups(l) && Valid(today)
    ensures r == [] <==> rec == [] && CheckInOK(QuickDeposit, row, l, today)
    ensures DistinctFields(rec) ==> DistinctFields(r)
    ensures Floor !in Fields(rec) ==> Floor !in Fields(r)
  {
    if !Truthy(row.checkInTime) then SetError(rec, CheckInTime, CheckInEmpty)
    else
      var r1 := SetIf(rec, !l.checkIn.Strict?, CheckInTime, CheckInFormat);
      if Truthy(row.rentalPeriod) && !l.checkIn.Unparseable? then
        var d := l.checkIn.date;
        var r2 := SetIf(r1, DepositStartsTooEarly(d, today), CheckInTime, CheckInBeforeToday);
        SetIf(r2, DepositStartsTooLate(d, today), CheckInTime, CheckInTooFar)
      else r1
  }

  /** The rental sheet's date checks; the end-of-month message goes under
      the period's key. */
  function RentCheckIn(rec: ErrorRecord, row: DataRow, l: Lookups, today: Date): (r: ErrorRecord)
    requires ValidLookups(l) && Valid(today)
    ensures r == [] <==> rec == [] && CheckInOK(QuickRent, row, l, today)
    ensures DistinctFields(rec) ==> DistinctFields(r)
    ensures Floor !in Fields(rec) ==> Floor !in Fields(r)
  {
    if !Truthy(row.checkInTime) then SetError(rec, CheckInTime, CheckInEmpty)
    else if !l.checkIn.Strict? then SetError(rec, CheckInTime, CheckInFormat)
    else
      var d := l.checkIn.date;
      var r1 := SetIf(rec, !Before(d, today), CheckInTime, CheckInNotPast);
      SetIf(r1, Truthy(row.rentalPeriod) && EndsWithinCurrentMonth(d, today, MomentMonths(row.rentalPeriod)),
            RentalPeriod, ContractEndsThisMonth)
  }

  function CheckInStage(sheet: Sheet, rec: ErrorRecord, row: DataRow, l: Lookups, today: Date): (r: ErrorRecord)
    requires ValidLookups(l) && Valid(today)
    ensures r == [] <==> rec == [] && CheckInOK(sheet, row, l, today)
    ensures DistinctFields(rec) ==> DistinctFields(r)
    ensures Floor !in Fields(rec) ==> Floor !in Fields(r)
  {
    match sheet
    case QuickDeposit => DepositCheckIn(rec, row, l, today)
    case QuickRent => RentCheckIn(rec, row, l, today)
  }

  /* ---------- one row ---------- */

  /** What a correct row satisfies. */
  predicate Acceptable(sheet: Sheet, row: DataRow, l: Lookups, today: Date)
    requires ValidLookups(l) && Valid(today)
  {
    var room := FoundRoom(row, l);
    && RequiredOK(row) && PhoneOK(row, l) && RentalOK(row, room)
    && RoomOK(row, room, l) && EmailOK(row) && CheckInOK(sheet, row, l, today)
  }

  /** The checks of one row as written; `None` when they throw. */
  function CheckRow(sheet: Sheet, row: DataRow, l: Lookups, today: Date): (r: Option<ErrorRecord>)
    requires ValidLookups(l) && Valid(today)
    ensures r.None? <==> Throws(row, l)
    ensures r.Some? ==> (r.value == [] <==> Acceptable(sheet, row, l, today))
    ensures r.Some? ==> DistinctFields(r.value) && Floor !in Fields(r.value)
  {
    if IdCastFails(row, l) then None else
    var room := FoundRoom(row, l);
    var r3 := RentalStage(PhoneStage(RequiredCells(row), row, l), row, room);
    match RoomStage(r3, row, room, l)
    case None => None
    case Some(r4) => Some(CheckInStage(sheet, EmailStage(r4, row), row, l, today))
  }

  /** The checks of one row without the throws. */
  function CheckRowCorrected(sheet: Sheet, row: DataRow, l: Lookups, today: Date): (r: ErrorRecord)
    requires ValidLookups(l) && Valid(today)
    ensures r == [] <==> Acceptable(sheet, row, l, today)
    ensures DistinctFields(r)
    ensures !Throws(row, l) ==> CheckRow(sheet, row, l, today) == Some(r)
  {
    var room := FoundRoom(row, l);
    var r3 := RentalStage(PhoneStage(RequiredCells(row), row, l), row, room);
    CheckInStage(sheet, EmailStage(RoomStageCorrected(r3, row, room, l), row), row, l, today)
  }

  /** A deposit row passes only with today's date as its check-in, whatever
      the message says about five days. */
  lemma AcceptedDepositStartsToday(row: DataRow, l: Lookups, today: Date)
    requires ValidLookups(l) && Valid(today)
    requires Acceptable(QuickDeposit, row, l, today)
    ensures l.checkIn == Strict(today)
  {
    DepositWindowAcceptsOnlyToday(OnDay(l.checkIn.date), today);
  }

  /** A rental row passes only inside the quick-rent window. */
  lemma AcceptedRentInWindow(row: DataRow, l: Lookups, today: Date)
    requires ValidLookups(l) && Valid(today)
    requires Acceptable(QuickRent, row, l, today)
    ensures l.checkIn.Strict? && RentWindow(OnDay(l.checkIn.date), today, MomentMonths(row.rentalPeriod)).Ok?
  {
  }
}
