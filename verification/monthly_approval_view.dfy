/** The host's screen for approving monthly payments
    (`ManagerAcceptMonthlyHost`): payment requests become grid rows, the grid
    drops its decision columns for single-role users, and the accept and
    cancel buttons appear only on rows still waiting. */
module ManagerAcceptMonthlyHost {
  import opened Results

  const Waiting: string := "Đang chờ duyệt"
  const Failed: string := "Thất bại"
  const Succeeded: string := "Thành công"
  const Cancelled: string := "Đã hủy"
  const NotAvailable: string := "N/A"

  /** The status codes the screen knows; `faild` is spelled as stored. */
  predicate KnownStatus(code: string) {
    code == "waiting" || code == "faild" || code == "success" || code == "cancel"
  }

  /** The label shown for a stored status code (`getStatus`). */
  function GetStatus(code: string): (shown: string)
    ensures shown == NotAvailable <==> !KnownStatus(code)
  {
    if code == "waiting" then Waiting
    else if code == "faild" then Failed
    else if code == "success" then Succeeded
    else if code == "cancel" then Cancelled
    else NotAvailable
  }

  /** The code a label stands for; the inverse of `GetStatus`. */
  function StatusCodeOf(text: string): Option<string> {
    if text == Waiting then Some("waiting")
    else if text == Failed then Some("faild")
    else if text == Succeeded then Some("success")
    else if text == Cancelled then Some("cancel")
    else None
  }

  /** Every known code is recovered from its label, so distinct known codes
      get distinct labels. */
  lemma StatusLabelRoundTrip(code: string)
    ensures KnownStatus(code) ==> StatusCodeOf(GetStatus(code)) == Some(code)
    ensures !KnownStatus(code) ==> StatusCodeOf(GetStatus(code)) == None
  {
  }

  datatype PhoneNumber = PhoneNumber(countryCode: string, number: string)

  /** Optional identity fields of the tenant. The list endpoint puts them
      directly on the user (`item.user.backId`, `item.user.email`, …); this
      record only groups them and adds no level of nesting to the data. */
  datatype Profile = Profile(
    backId: Option<string>, frontId: Option<string>, avatar: Option<string>,
    gender: Option<string>, nationalId: Option<string>, address: Option<string>,
    email: Option<string>, dob: Option<string>)

  datatype User = User(lastName: string, firstName: string, phoneNumber: PhoneNumber, profile: Profile)

  /** A monthly payment request as the list endpoint returns it. */
  datatype Request = Request(
    id: string, user: User, roomName: Option<string>, description: string,
    keyPayment: string, status: string, paymentMethod: string, file: string)

  /** The profile fields as the row shows them: empty when missing. */
  datatype ProfileText = ProfileText(
    backId: string, frontId: string, avatar: string, gender: string,
    nationalId: string, address: string, email: string, dob: string)

  /** A grid row. */
  datatype Row = Row(
    key: int, id: string, nameUser: string, phone: string, roomName: string,
    description: string, keyPayment: string, status: string, paymentMethod: string,
    file: string, profile: ProfileText)

  /** `x ? x : ''` on an optional text. */
  function OrEmpty(x: Option<string>): (r: string)
    ensures x.None? ==> r == ""
    ensures x.Some? ==> r == x.value
  {
    if x.Some? && x.value != "" then x.value else ""
  }

  function ShowProfile(p: Profile): ProfileText {
    ProfileText(OrEmpty(p.backId), OrEmpty(p.frontId), OrEmpty(p.avatar), OrEmpty(p.gender),
                OrEmpty(p.nationalId), OrEmpty(p.address), OrEmpty(p.email), OrEmpty(p.dob))
  }

  /** The payment-method label: cash, or bank for every other method. */
  function PaymentLabel(paymentMethod: string): string {
    if paymentMethod == "cash" then "Tiền mặt" else "Ngân hàng"
  }

  /** One request as a row numbered `key` (one entry of `transformedData`). */
  function ToRow(r: Request, key: int): Row {
    Row(key, r.id,
        r.user.lastName + " " + r.user.firstName,
        r.user.phoneNumber.countryCode + r.user.phoneNumber.number,
        if r.roomName.Some? && r.roomName.value != "" then r.roomName.value else NotAvailable,
        r.description, r.keyPayment, GetStatus(r.status), PaymentLabel(r.paymentMethod),
        r.file, ShowProfile(r.user.profile))
  }

  /** `transformedData`: the rows of the grid, numbered from one in list
      order. */
  function TransformRows(requests: seq<Request>): (rows: seq<Row>)
    ensures |rows| == |requests|
    ensures forall i :: 0 <= i < |rows| ==> rows[i].key == i + 1 && rows[i].id == requests[i].id
    ensures forall i :: 0 <= i < |rows| ==> StatusCodeOf(rows[i].status) == (if KnownStatus(requests[i].status) then Some(requests[i].status) else None)
    ensures forall i :: 0 <= i < |rows| ==> (rows[i].paymentMethod == "Tiền mặt" <==> requests[i].paymentMethod == "cash")
  {
    if |requests| != 0 then
      seq(|requests|, i requires 0 <= i < |requests| =>
        StatusLabelRoundTrip(requests[i].status);
        ToRow(requests[i], i + 1))
    else []
  }

  /** The grid keys rows by `key` (`getRowId`); no two rows share one. */
  lemma RowKeysAreDistinct(requests: seq<Request>, i: int, j: int)
    requires 0 <= i < j < |requests|
    ensures TransformRows(requests)[i].key != TransformRows(requests)[j].key
    ensures 1 <= TransformRows(requests)[i].key < TransformRows(requests)[j].key <= |requests|
  {
  }

  /** Whether a row shows the accept and the cancel button. */
  predicate ShowsDecisionButtons(row: Row) {
    row.status == Waiting
  }

  /** The buttons appear exactly on the requests stored as waiting. */
  lemma ButtonsOnlyForWaiting(requests: seq<Request>, i: int)
    requires 0 <= i < |requests|
    ensures ShowsDecisionButtons(TransformRows(requests)[i]) <==> requests[i].status == "waiting"
  {
    StatusLabelRoundTrip(requests[i].status);
  }

  datatype Decision = Accept | Cancel

  /** What a button records before the confirmation pop-up opens: the
      request's id and the status to set. No button, no decision. */
  function Decide(row: Row, d: Decision): (r: Option<(string, string)>)
    ensures r.Some? <==> ShowsDecisionButtons(row)
    ensures r.Some? ==> r.value.0 == row.id && KnownStatus(r.value.1) && r.value.1 != "waiting"
  {
    if ShowsDecisionButtons(row) then Some((row.id, if d == Accept then "success" else "cancel"))
    else None
  }

  /** Once a decision is stored, the buttons of the request's row close.
      This is about the screen only: the server can still be asked again. */
  lemma DecisionClosesButtons(requests: seq<Request>, i: int, d: Decision)
    requires 0 <= i < |requests|
    requires Decide(TransformRows(requests)[i], d).Some?
    ensures var decided := requests[i := requests[i].(status := Decide(TransformRows(requests)[i], d).value.1)];
            !ShowsDecisionButtons(TransformRows(decided)[i])
  {
    var decided := requests[i := requests[i].(status := Decide(TransformRows(requests)[i], d).value.1)];
    ButtonsOnlyForWaiting(decided, i);
  }

  /** The grid's columns. */
  datatype Column =
    | Key | NameUser | Phone | RoomName | Time | PaymentMethod | Amount
    | KeyPayment | Description | Unc | Status | Success | Error | UserInfo

  /** The `field` a column binds to. */
  function FieldOf(c: Column): string {
    match c
    case Key => "key"
    case NameUser => "nameUser"
    case Phone => "phone"
    case RoomName => "roomName"
    case Time => "time"
    case PaymentMethod => "payment_Method"
    case Amount => "amount"
    case KeyPayment => "keyPayment"
    case Description => "description"
    case Unc => "UNC"
    case Status => "status"
    case Success => "success"
    case Error => "error"
    case UserInfo => "user"
  }

  /** The columns in display order. */
  const Columns: seq<Column> := [
    Key, NameUser, Phone, RoomName, Time, PaymentMethod, Amount,
    KeyPayment, Description, Unc, Status, Success, Error, UserInfo
  ]

  /** The columns holding the decision buttons. */
  predicate IsDecisionColumn(c: Column)
    ensures IsDecisionColumn(c) <==> FieldOf(c) == "error" || FieldOf(c) == "success"
  {
    c == Error || c == Success
  }

  /** Whether `a` is `b` with some entries dropped, order kept. */
  predicate IsSubsequence<T(==)>(a: seq<T>, b: seq<T>)
    decreases |b|
  {
    if |a| == 0 then true
    else if |b| == 0 then false
    else if a[0] == b[0] then IsSubsequence(a[1..], b[1..])
    else IsSubsequence(a, b[1..])
  }

  /** `filteredColumns`: a user with exactly one role sees no decision
      columns; everyone else sees all columns. */
  function FilteredColumns(columns: seq<Column>, roles: seq<string>): (r: seq<Column>)
    ensures |roles| != 1 ==> r == columns
    ensures |r| <= |columns|
    decreases |columns|
  {
    if |columns| == 0 then []
    else if |roles| == 1 && IsDecisionColumn(columns[0]) then FilteredColumns(columns[1..], roles)
    else [columns[0]] + FilteredColumns(columns[1..], roles)
  }

  /** For a single-role user the filter keeps exactly the columns that are
      not decision columns, in their order. */
  lemma {:induction false} SingleRoleFilterSpec(columns: seq<Column>, role: string)
    ensures var r := FilteredColumns(columns, [role]);
            && (forall c :: c in r <==> c in columns && !IsDecisionColumn(c))
            && IsSubsequence(r, columns)
    decreases |columns|
  {
    if |columns| != 0 {
      SingleRoleFilterSpec(columns[1..], role);
      var rest := FilteredColumns(columns[1..], [role]);
      assert forall c :: c in columns <==> c == columns[0] || c in columns[1..];
      if !IsDecisionColumn(columns[0]) {
        assert ([columns[0]] + rest)[1..] == rest;
      } else {
        SubsequenceDropsHead(rest, columns);
      }
    }
  }

  /** A subsequence of the tail is a subsequence of the whole. */
  lemma {:induction false} SubsequenceDropsHead<T>(a: seq<T>, b: seq<T>)
    requires |b| != 0 && IsSubsequence(a, b[1..])
    ensures IsSubsequence(a, b)
    decreases |b|, 0
  {
    if |a| != 0 && a[0] == b[0] {
      SubsequenceOfTail(a, b[1..]);
    }
  }

  /** Dropping the first entry keeps a subsequence a subsequence. */
  lemma {:induction false} SubsequenceOfTail<T>(a: seq<T>, c: seq<T>)
    requires |a| != 0 && IsSubsequence(a, c)
    ensures IsSubsequence(a[1..], c)
    decreases |c|, 1
  {
    if a[0] != c[0] {
      SubsequenceOfTail(a, c[1..]);
    }
    SubsequenceDropsHead(a[1..], c);
  }

  /** Filtering a concatenation filters each part. */
  lemma {:induction false} FilterAppend(a: seq<Column>, b: seq<Column>, roles: seq<string>)
    ensures FilteredColumns(a + b, roles) == FilteredColumns(a, roles) + FilteredColumns(b, roles)
    decreases |a|
  {
    if |a| == 0 {
      assert a + b == b;
    } else {
      assert (a + b)[0] == a[0];
      assert (a + b)[1..] == a[1..] + b;
      FilterAppend(a[1..], b, roles);
    }
  }

  /** Columns without decision columns pass the filter unchanged. */
  lemma {:induction false} FilterKeepsPlainColumns(columns: seq<Column>, roles: seq<string>)
    requires forall i :: 0 <= i < |columns| ==> !IsDecisionColumn(columns[i])
    ensures FilteredColumns(columns, roles) == columns
    decreases |columns|
  {
    if |columns| != 0 {
      FilterKeepsPlainColumns(columns[1..], roles);
    }
  }

  /** The columns a single-role user sees: all but the two decision columns,
      in the same order. */
  lemma SingleRoleColumns(role: string)
    ensures FilteredColumns(Columns, [role]) == Columns[..11] + Columns[13..]
  {
    var roles := [role];
    var plain, decision, last := Columns[..11], Columns[11..13], Columns[13..];
    assert Columns == plain + decision + last;
    assert FilteredColumns(plain, roles) == plain by {
      FilterKeepsPlainColumns(plain, roles);
    }
    assert FilteredColumns(last, roles) == last by {
      FilterKeepsPlainColumns(last, roles);
    }
    assert FilteredColumns(decision, roles) == [] by {
      assert decision[0] == Success && decision[1..][0] == Error && decision[1..][1..] == [];
    }
    FilterDropsMiddle(plain, decision, last, roles);
  }

  /** Filtering three parts of which only the middle one changes, and
      vanishes, leaves the outer two. */
  lemma FilterDropsMiddle(a: seq<Column>, b: seq<Column>, c: seq<Column>, roles: seq<string>)
    requires FilteredColumns(a, roles) == a && FilteredColumns(b, roles) == [] && FilteredColumns(c, roles) == c
    ensures FilteredColumns(a + b + c, roles) == a + c
  {
    FilterAppend(a + b, c, roles);
    FilterAppend(a, b, roles);
    assert a + [] == a;
  }
}
