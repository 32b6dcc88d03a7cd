/** Text handling for uploaded spreadsheets: JavaScript's `trim`, the
    conversion of a cell to text, the cleaning of rows before they are handed
    to the bulk jobs, and the two number conversions the validators use
    (`parseInt` and the unary `+` moment applies to a string amount). */
module SheetText {
  import opened Results

  /** JavaScript's white space and line terminators, the set `trim` and the
      regular-expression class `\s` share. */
  predicate IsSpace(c: char) {
    c == '\t' || c == '\n' || c == '\U{000B}' || c == '\U{000C}' || c == '\r' || c == ' '
    || c == '\U{00A0}' || c == '\U{1680}' || ('\U{2000}' <= c <= '\U{200A}')
    || c == '\U{2028}' || c == '\U{2029}' || c == '\U{202F}' || c == '\U{205F}'
    || c == '\U{3000}' || c == '\U{FEFF}'
  }

  predicate AllSpace(s: string) {
    forall i :: 0 <= i < |s| ==> IsSpace(s[i])
  }

  /** `s` without its leading white space. */
  function TrimStart(s: string): (r: string)
    ensures |r| <= |s|
    ensures r != [] ==> !IsSpace(r[0])
    decreases |s|
  {
    if |s| > 0 && IsSpace(s[0]) then TrimStart(s[1..]) else s
  }

  /** What `TrimStart` removes is a run of white space at the front. */
  lemma {:induction false} TrimStartDropsSpace(s: string)
    ensures var r := TrimStart(s); r == s[|s| - |r|..] && AllSpace(s[..|s| - |r|])
    decreases |s|
  {
    if |s| > 0 && IsSpace(s[0]) {
      TrimStartDropsSpace(s[1..]);
      var r := TrimStart(s);
      var k := |s| - |r|;
      assert s[1..][k - 1..] == s[k..];
    } else {
      assert s[..0] == [];
    }
  }

  /** `s` without its trailing white space. */
  function TrimEnd(s: string): (r: string)
    ensures |r| <= |s|
    ensures r != [] ==> !IsSpace(r[|r| - 1]) && r[0] == s[0]
    decreases |s|
  {
    if |s| > 0 && IsSpace(s[|s| - 1]) then TrimEnd(s[..|s| - 1]) else s
  }

  /** What `TrimEnd` removes is a run of white space at the back. */
  lemma {:induction false} TrimEndDropsSpace(s: string)
    ensures var r := TrimEnd(s); r == s[..|r|] && AllSpace(s[|r|..])
    decreases |s|
  {
    if |s| > 0 && IsSpace(s[|s| - 1]) {
      var p := s[..|s| - 1];
      TrimEndDropsSpace(p);
      var r := TrimEnd(s);
      assert p[..|r|] == s[..|r|];
    } else {
      assert s[|s|..] == [];
    }
  }

  /** Neither end of `s` is white space. */
  predicate Trimmed(s: string) {
    s == [] || (!IsSpace(s[0]) && !IsSpace(s[|s| - 1]))
  }

  /** `r` is what is left of `s` once white space is removed from both ends:
      a stretch of `s` with only white space around it and none at its ends. */
  predicate IsTrimOf(r: string, s: string) {
    exists i, j :: 0 <= i <= j <= |s| && r == s[i..j] && AllSpace(s[..i]) && AllSpace(s[j..])
                   && Trimmed(r)
  }

  /** `s.trim()`. */
  function Trim(s: string): (r: string)
    ensures |r| <= |s| && Trimmed(r)
  {
    TrimEnd(TrimStart(s))
  }

  /** `Trim` meets its description. */
  lemma TrimIsTrimOf(s: string)
    ensures IsTrimOf(Trim(s), s)
  {
    var t := TrimStart(s);
    var r := TrimEnd(t);
    TrimStartDropsSpace(s);
    TrimEndDropsSpace(t);
    var i := |s| - |t|;
    assert s[i..i + |r|] == r;
    assert s[i + |r|..] == t[|r|..];
  }

  /** Every character before `i` is white space. */
  lemma SpacesBefore(s: string, i: int)
    requires 0 <= i <= |s| && AllSpace(s[..i])
    ensures forall k :: 0 <= k < i ==> IsSpace(s[k])
  {
    assert forall k :: 0 <= k < i ==> s[..i][k] == s[k];
  }

  /** Every character from `j` on is white space. */
  lemma SpacesAfter(s: string, j: int)
    requires 0 <= j <= |s| && AllSpace(s[j..])
    ensures forall k :: j <= k < |s| ==> IsSpace(s[k])
  {
    assert forall k :: j <= k < |s| ==> s[j..][k - j] == s[k];
  }

  /** Where a trim sits in the string: white space on both sides and, when
      it is not empty, a character other than white space at each end. */
  lemma TrimBounds(r: string, s: string, i: int, j: int)
    requires 0 <= i <= j <= |s| && r == s[i..j] && AllSpace(s[..i]) && AllSpace(s[j..]) && Trimmed(r)
    ensures forall k :: 0 <= k < i ==> IsSpace(s[k])
    ensures forall k :: j <= k < |s| ==> IsSpace(s[k])
    ensures r != [] ==> !IsSpace(s[i]) && !IsSpace(s[j - 1])
  {
    SpacesBefore(s, i);
    SpacesAfter(s, j);
    if r != [] {
      assert s[i] == r[0] && s[j - 1] == r[|r| - 1];
    }
  }

  /** A string has only one trim. */
  lemma TrimOfIsUnique(r1: string, r2: string, s: string)
    requires IsTrimOf(r1, s) && IsTrimOf(r2, s)
    ensures r1 == r2
  {
    var i1, j1 :| 0 <= i1 <= j1 <= |s| && r1 == s[i1..j1] && AllSpace(s[..i1]) && AllSpace(s[j1..])
                 && Trimmed(r1);
    var i2, j2 :| 0 <= i2 <= j2 <= |s| && r2 == s[i2..j2] && AllSpace(s[..i2]) && AllSpace(s[j2..])
                 && Trimmed(r2);
    TrimBounds(r1, s, i1, j1);
    TrimBounds(r2, s, i2, j2);
    if r1 == [] || r2 == [] {
      assert r1 == [] && r2 == [];
    } else {
      assert i1 == i2 && j1 == j2;
    }
  }

  /** A string with no white space at either end is its own trim. */
  lemma TrimmedIsFixed(s: string)
    requires Trimmed(s)
    ensures Trim(s) == s
  {
    assert s[0..|s|] == s && s[..0] == [] && s[|s|..] == [];
    assert IsTrimOf(s, s);
    TrimIsTrimOf(s);
    TrimOfIsUnique(Trim(s), s, s);
  }

  /** Trimming twice is trimming once. */
  lemma TrimIsIdempotent(s: string)
    ensures Trim(Trim(s)) == Trim(s)
  {
    TrimmedIsFixed(Trim(s));
  }

  /** A trim is empty exactly when the string is all white space. */
  lemma TrimIsEmptyIffBlank(s: string)
    ensures Trim(s) == [] <==> AllSpace(s)
  {
    TrimIsTrimOf(s);
    if AllSpace(s) {
      assert s[..|s|] == s && s[|s|..] == [];
      assert IsTrimOf([], s);
      TrimOfIsUnique(Trim(s), [], s);
    } else {
      var k :| 0 <= k < |s| && !IsSpace(s[k]);
      var r := Trim(s);
      var i, j :| 0 <= i <= j <= |s| && r == s[i..j] && AllSpace(s[..i]) && AllSpace(s[j..])
                  && Trimmed(r);
      SpacesBefore(s, i);
      SpacesAfter(s, j);
      assert i <= k < j;
    }
  }

  /** A spreadsheet cell as the reader returns it: absent (an empty cell
      when the sheet is read without a default value, or a column the row
      lacks), text, or a whole number. */
  datatype Cell = Missing | Text(text: string) | Number(value: int)

  predicate IsDigit(c: char) {
    '0' <= c <= '9'
  }

  predicate AllDigits(s: string) {
    forall i :: 0 <= i < |s| ==> IsDigit(s[i])
  }

  /** The value of a string of decimal digits. */
  function DigitsValue(s: string): nat
    requires AllDigits(s)
    decreases |s|
  {
    if |s| == 0 then 0 else DigitsValue(s[..|s| - 1]) * 10 + (s[|s| - 1] as int - '0' as int)
  }

  /** The decimal digits of `n`, without leading zeros. */
  function NatText(n: nat): (s: string)
    ensures |s| >= 1 && AllDigits(s) && DigitsValue(s) == n
    ensures s[0] == '0' ==> n == 0 && |s| == 1
    decreases n
  {
    var last := [('0' as int + n % 10) as char];
    if n < 10 then last
    else
      var prefix := NatText(n / 10);
      assert (prefix + last)[..|prefix|] == prefix;
      prefix + last
  }

  /** `String(n)` for a whole number. */
  function DecimalText(n: int): string {
    if n < 0 then "-" + NatText(-n) else NatText(n)
  }

  /** `String(value)`. */
  function CellText(c: Cell): string {
    match c
    case Missing => "undefined"
    case Text(t) => t
    case Number(n) => DecimalText(n)
  }

  /** Whether the cell is truthy: text other than `""`, or a number other
      than 0. */
  predicate Truthy(c: Cell) {
    match c
    case Missing => false
    case Text(t) => t != ""
    case Number(n) => n != 0
  }

  /** `Object.values(item).map(String)` for a row read without a default
      value: an empty cell is not a property of the row object, so only the
      present cells become text, in column order. */
  function ValueTexts(cells: seq<Cell>): (texts: seq<string>)
    ensures |texts| <= |cells|
    decreases |cells|
  {
    if |cells| == 0 then []
    else if cells[0].Missing? then ValueTexts(cells[1..])
    else [CellText(cells[0])] + ValueTexts(cells[1..])
  }

  lemma {:induction false} ValueTextsKeepsPresent(cells: seq<Cell>, i: int)
    requires 0 <= i < |cells| && !cells[i].Missing?
    ensures CellText(cells[i]) in ValueTexts(cells)
    decreases |cells|
  {
    if i > 0 {
      assert cells[1..][i - 1] == cells[i];
      ValueTextsKeepsPresent(cells[1..], i - 1);
    }
  }

  lemma {:induction false} ValueTextsOnlyPresent(cells: seq<Cell>, x: string)
    requires x in ValueTexts(cells)
    ensures exists i :: 0 <= i < |cells| && !cells[i].Missing? && x == CellText(cells[i])
    decreases |cells|
  {
    if cells[0].Missing? || x != CellText(cells[0]) {
      ValueTextsOnlyPresent(cells[1..], x);
      var i :| 0 <= i < |cells[1..]| && !cells[1..][i].Missing? && x == CellText(cells[1..][i]);
      assert cells[1..][i] == cells[i + 1];
    }
  }

  lemma {:induction false} ValueTextsAppend(a: seq<Cell>, b: seq<Cell>)
    ensures ValueTexts(a + b) == ValueTexts(a) + ValueTexts(b)
    decreases |a|
  {
    if |a| == 0 {
      assert a + b == b;
    } else {
      assert (a + b)[0] == a[0];
      assert (a + b)[1..] == a[1..] + b;
      var x, y := ValueTexts(a[1..]), ValueTexts(b);
      assert [CellText(a[0])] + (x + y) == ([CellText(a[0])] + x) + y;
      ValueTextsAppend(a[1..], b);
    }
  }

  /** Texts trimmed, blank ones dropped. */
  function CleanTexts(texts: seq<string>): (r: seq<string>)
    ensures forall i :: 0 <= i < |r| ==> r[i] != "" && Trimmed(r[i])
    ensures |r| <= |texts|
    decreases |texts|
  {
    if |texts| == 0 then []
    else
      var t := Trim(texts[0]);
      if t == "" then CleanTexts(texts[1..]) else [t] + CleanTexts(texts[1..])
  }

  /** One row as the bulk endpoints clean it: the present cells made text and
      trimmed, blank ones dropped. */
  function CleanRow(cells: seq<Cell>): (r: seq<string>)
    ensures forall i :: 0 <= i < |r| ==> r[i] != "" && Trimmed(r[i])
    ensures |r| <= |cells|
  {
    CleanTexts(ValueTexts(cells))
  }

  lemma {:induction false} CleanTextsKeepsNonBlank(texts: seq<string>, x: string)
    requires x in texts && Trim(x) != ""
    ensures Trim(x) in CleanTexts(texts)
    decreases |texts|
  {
    if texts[0] != x {
      CleanTextsKeepsNonBlank(texts[1..], x);
    }
  }

  /** Every present cell whose trimmed text is not blank is kept. */
  lemma CleanRowKeepsNonBlankCell(cells: seq<Cell>, i: int)
    requires 0 <= i < |cells| && !cells[i].Missing? && Trim(CellText(cells[i])) != ""
    ensures Trim(CellText(cells[i])) in CleanRow(cells)
  {
    ValueTextsKeepsPresent(cells, i);
    CleanTextsKeepsNonBlank(ValueTexts(cells), CellText(cells[i]));
  }

  lemma {:induction false} CleanTextsKeepsOnly(texts: seq<string>, x: string)
    requires x in CleanTexts(texts)
    ensures exists i :: 0 <= i < |texts| && x == Trim(texts[i])
    decreases |texts|
  {
    if x != Trim(texts[0]) {
      CleanTextsKeepsOnly(texts[1..], x);
      var i :| 0 <= i < |texts[1..]| && x == Trim(texts[1..][i]);
      assert texts[1..][i] == texts[i + 1];
    }
  }

  /** Every kept text is the trimmed text of some present cell. */
  lemma CleanRowKeepsOnlyCells(cells: seq<Cell>, x: string)
    requires x in CleanRow(cells)
    ensures exists i :: 0 <= i < |cells| && !cells[i].Missing? && x == Trim(CellText(cells[i]))
  {
    var texts := ValueTexts(cells);
    CleanTextsKeepsOnly(texts, x);
    var j :| 0 <= j < |texts| && x == Trim(texts[j]);
    ValueTextsOnlyPresent(cells, texts[j]);
  }

  lemma {:induction false} CleanTextsKeepsOrder(a: seq<string>, b: seq<string>)
    ensures CleanTexts(a + b) == CleanTexts(a) + CleanTexts(b)
    decreases |a|
  {
    if |a| == 0 {
      assert a + b == b;
    } else {
      assert (a + b)[0] == a[0];
      assert (a + b)[1..] == a[1..] + b;
      var t := Trim(a[0]);
      var x, y := CleanTexts(a[1..]), CleanTexts(b);
      assert [t] + (x + y) == ([t] + x) + y;
      CleanTextsKeepsOrder(a[1..], b);
    }
  }

  /** Cleaning keeps the order of the cells it keeps. */
  lemma CleanRowKeepsOrder(a: seq<Cell>, b: seq<Cell>)
    ensures CleanRow(a + b) == CleanRow(a) + CleanRow(b)
  {
    ValueTextsAppend(a, b);
    CleanTextsKeepsOrder(ValueTexts(a), ValueTexts(b));
  }

  /** An empty cell leaves no trace in the cleaned row. */
  lemma CleanRowSkipsEmptyCells(a: seq<Cell>, b: seq<Cell>)
    ensures CleanRow(a + [Missing] + b) == CleanRow(a + b)
  {
    ValueTextsAppend(a + [Missing], b);
    ValueTextsAppend(a, [Missing]);
    ValueTextsAppend(a, b);
    assert ValueTexts([Missing]) == [];
    assert ValueTexts(a) + [] == ValueTexts(a);
  }

  /** Texts as text cells. */
  function TextCells(texts: seq<string>): (cells: seq<Cell>)
    ensures |cells| == |texts|
    ensures forall i :: 0 <= i < |texts| ==> cells[i] == Text(texts[i])
  {
    seq(|texts|, i requires 0 <= i < |texts| => Text(texts[i]))
  }

  lemma {:induction false} ValueTextsOfTextCells(texts: seq<string>)
    ensures ValueTexts(TextCells(texts)) == texts
    decreases |texts|
  {
    if |texts| != 0 {
      var rest := texts[1..];
      assert texts == [texts[0]] + rest;
      assert TextCells(texts)[1..] == TextCells(rest);
      ValueTextsOfTextCells(rest);
    }
  }

  lemma {:induction false} CleanTextsFixesCleanTexts(texts: seq<string>)
    requires forall i :: 0 <= i < |texts| ==> texts[i] != "" && Trimmed(texts[i])
    ensures CleanTexts(texts) == texts
    decreases |texts|
  {
    if |texts| != 0 {
      var rest := texts[1..];
      assert texts == [texts[0]] + rest;
      TrimmedIsFixed(texts[0]);
      CleanTextsFixesCleanTexts(rest);
    }
  }

  /** Cleaning leaves non-blank trimmed texts as they are. */
  lemma CleanRowFixesCleanTexts(texts: seq<string>)
    requires forall i :: 0 <= i < |texts| ==> texts[i] != "" && Trimmed(texts[i])
    ensures CleanRow(TextCells(texts)) == texts
  {
    ValueTextsOfTextCells(texts);
    CleanTextsFixesCleanTexts(texts);
  }

  /** Cleaning an already cleaned row changes nothing. */
  lemma CleanRowIsIdempotent(cells: seq<Cell>)
    ensures CleanRow(TextCells(CleanRow(cells))) == CleanRow(cells)
  {
    CleanRowFixesCleanTexts(CleanRow(cells));
  }

  /** The cleaning of all rows, row by row. */
  function CleanRows(rows: seq<seq<Cell>>): (r: seq<seq<string>>)
    ensures |r| == |rows|
    ensures forall k :: 0 <= k < |r| ==> r[k] == CleanRow(rows[k])
  {
    seq(|rows|, k requires 0 <= k < |rows| => CleanRow(rows[k]))
  }

  /** The digits at the front of `s`, in the given radix (10 or 16). */
  predicate IsRadixDigit(c: char, radix: nat) {
    if radix == 16 then IsDigit(c) || 'a' <= c <= 'f' || 'A' <= c <= 'F' else IsDigit(c)
  }

  function RadixDigitValue(c: char): nat {
    if IsDigit(c) then c as int - '0' as int
    else if 'a' <= c <= 'f' then c as int - 'a' as int + 10
    else if 'A' <= c <= 'F' then c as int - 'A' as int + 10
    else 0
  }

  /** The longest prefix of `s` made of digits of the radix. */
  function DigitPrefix(s: string, radix: nat): (p: string)
    ensures |p| <= |s| && p == s[..|p|]
    ensures forall i :: 0 <= i < |p| ==> IsRadixDigit(p[i], radix)
    ensures |p| < |s| ==> !IsRadixDigit(s[|p|], radix)
    decreases |s|
  {
    if |s| > 0 && IsRadixDigit(s[0], radix) then [s[0]] + DigitPrefix(s[1..], radix) else []
  }

  /** The value of a digit string in the radix. */
  function RadixValue(s: string, radix: nat): nat
    decreases |s|
  {
    if |s| == 0 then 0 else RadixValue(s[..|s| - 1], radix) * radix + RadixDigitValue(s[|s| - 1])
  }

  /** The digits `parseInt` reads once the sign is gone: a `0x` or `0X`
      prefix switches to hexadecimal, and the longest run of digits that
      follows is the value; no digits gives `NaN` (`None`). */
  function ParseUnsigned(u: string): Option<nat> {
    var hex := |u| >= 2 && u[0] == '0' && (u[1] == 'x' || u[1] == 'X');
    var radix := if hex then 16 else 10;
    var digits := DigitPrefix(if hex then u[2..] else u, radix);
    if |digits| == 0 then None else Some(RadixValue(digits, radix))
  }

  /** `parseInt(s)` without a radix: leading white space is skipped and a
      sign is read before the digits. */
  function ParseInt(s: string): Option<int> {
    var t := TrimStart(s);
    var signed := |t| > 0 && (t[0] == '-' || t[0] == '+');
    match ParseUnsigned(if signed then t[1..] else t)
    case None => None
    case Some(v) => Some((if signed && t[0] == '-' then -1 else 1) * v)
  }

  /** On decimal digits the radix-10 value is the decimal value. */
  lemma {:induction false} RadixValueDecimal(s: string)
    requires AllDigits(s)
    ensures RadixValue(s, 10) == DigitsValue(s)
    decreases |s|
  {
    if |s| != 0 {
      RadixValueDecimal(s[..|s| - 1]);
    }
  }

  /** The digit prefix of an all-digit string is the whole string. */
  lemma {:induction false} DigitPrefixOfDigits(s: string)
    requires AllDigits(s)
    ensures DigitPrefix(s, 10) == s
    decreases |s|
  {
    if |s| != 0 {
      DigitPrefixOfDigits(s[1..]);
    }
  }

  /** `parseInt` reads a run of decimal digits whole. */
  lemma ParseUnsignedDigits(digits: string)
    requires digits != [] && AllDigits(digits)
    ensures ParseUnsigned(digits) == Some(DigitsValue(digits))
  {
    assert |digits| >= 2 ==> digits[1] != 'x' && digits[1] != 'X';
    DigitPrefixOfDigits(digits);
    RadixValueDecimal(digits);
  }

  /** `parseInt` of decimal digits. */
  lemma ParseIntDigits(digits: string)
    requires digits != [] && AllDigits(digits)
    ensures ParseInt(digits) == Some(DigitsValue(digits) as int)
  {
    assert !IsSpace(digits[0]);
    assert TrimStart(digits) == digits;
    ParseUnsignedDigits(digits);
  }

  /** `parseInt` of decimal digits after a minus sign. */
  lemma ParseIntNegatedDigits(digits: string)
    requires digits != [] && AllDigits(digits)
    ensures ParseInt("-" + digits) == Some(-(DigitsValue(digits) as int))
  {
    var s := "-" + digits;
    assert !IsSpace(s[0]);
    assert TrimStart(s) == s;
    assert s[1..] == digits;
    ParseUnsignedDigits(digits);
  }

  /** `parseInt(String(n)) == n`: reading back a whole number's text gives
      the number. */
  lemma ParseIntDecimalText(n: int)
    ensures ParseInt(DecimalText(n)) == Some(n)
  {
    if n < 0 {
      ParseIntNegatedDigits(NatText(-n));
    } else {
      ParseIntDigits(NatText(n));
    }
  }

  /** A signed run of decimal digits, as `+` reads it. */
  function SignedDecimalValue(t: string): Option<int> {
    var unsigned := if |t| > 0 && (t[0] == '-' || t[0] == '+') then t[1..] else t;
    if unsigned != "" && AllDigits(unsigned) then
      Some((if t[0] == '-' then -1 else 1) * DigitsValue(unsigned))
    else None
  }

  /** `+s` (JavaScript's `Number(s)`) on the whole-number forms: white space
      around the text is ignored, blank text is 0, a sign may precede
      decimal digits, a `0x` prefix (unsigned) reads hexadecimal. Anything
      else is `NaN` (`None`). */
  function ToNumber(s: string): Option<int> {
    var t := Trim(s);
    if t == "" then Some(0)
    else if |t| > 2 && t[0] == '0' && (t[1] == 'x' || t[1] == 'X')
            && forall i :: 2 <= i < |t| ==> IsRadixDigit(t[i], 16) then
      Some(RadixValue(t[2..], 16))
    else SignedDecimalValue(t)
  }

  /** `+` of decimal digits. */
  lemma ToNumberDigits(digits: string)
    requires digits != [] && AllDigits(digits)
    ensures ToNumber(digits) == Some(DigitsValue(digits) as int)
  {
    assert Trimmed(digits);
    TrimmedIsFixed(digits);
    assert |digits| > 1 ==> digits[1] != 'x' && digits[1] != 'X';
  }

  /** A minus sign followed by digits has no white space at its ends. */
  lemma NegatedDigitsAreTrimmed(digits: string)
    requires digits != [] && AllDigits(digits)
    ensures Trimmed("-" + digits) && ("-" + digits)[0] == '-' && ("-" + digits)[1..] == digits
  {
    var s := "-" + digits;
    assert s[0] == '-' && s[|s| - 1] == digits[|digits| - 1] && s[1..] == digits;
  }

  /** `+` of decimal digits after a minus sign. */
  lemma ToNumberNegatedDigits(digits: string)
    requires digits != [] && AllDigits(digits)
    ensures ToNumber("-" + digits) == Some(-(DigitsValue(digits) as int))
  {
    NegatedDigitsAreTrimmed(digits);
    ToNumberOfSignedText("-" + digits);
  }

  /** Text that starts with a minus sign is never hexadecimal for `+`. */
  lemma ToNumberOfSignedText(s: string)
    requires Trimmed(s) && s != "" && s[0] == '-'
    ensures ToNumber(s) == SignedDecimalValue(s)
  {
    TrimmedIsFixed(s);
  }

  /** `+String(n) == n`. */
  lemma ToNumberDecimalText(n: int)
    ensures ToNumber(DecimalText(n)) == Some(n)
  {
    if n < 0 {
      ToNumberNegatedDigits(NatText(-n));
    } else {
      ToNumberDigits(NatText(n));
    }
  }
}
