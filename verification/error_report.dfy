/** The error sheet sent back for a refused import
    (`convertErrorsToExcelFormat`): one line per reported row, holding the
    row number and the row's messages as `key: message` entries joined by
    `"; "`.

    `Split` and `SplitEntry` read such a line back (`split("; ")` and a cut
    at the first `": "`); the lemmas show that they recover every key and
    message, as long as no message contains a semicolon. */
module ErrorReport {
  import opened ImportValidation
  import opened ImportSheet

  datatype ReportLine = ReportLine(row: int, errors: string)

  const Separator: string := "; "

  /** `key + ": " + value`. */
  function EntryText(key: string, value: string): string {
    key + ": " + value
  }

  /** `parts.join(sep)`. */
  function Join(parts: seq<string>, sep: string): string
    decreases |parts|
  {
    if |parts| == 0 then ""
    else if |parts| == 1 then parts[0]
    else parts[0] + sep + Join(parts[1..], sep)
  }

  /** The entries of an error object, in key order. Each entry cuts back
      into its key and message, and is free of semicolons when its message
      is, so the `"; "` joining them can be undone. */
  function EntryTexts(rec: ErrorRecord): (texts: seq<string>)
    ensures |texts| == |rec|
    ensures forall k :: 0 <= k < |rec| ==> texts[k] == EntryText(FieldKey(rec[k].0), MessageText(rec[k].1))
    ensures forall k :: 0 <= k < |rec| ==> SplitEntry(texts[k]) == (FieldKey(rec[k].0), MessageText(rec[k].1))
    ensures forall k :: 0 <= k < |rec| && NoSemicolon(MessageText(rec[k].1)) ==> NoSemicolon(texts[k])
  {
    EntriesReadBack(rec);
    seq(|rec|, k requires 0 <= k < |rec| => EntryText(FieldKey(rec[k].0), MessageText(rec[k].1)))
  }

  /** One entry cuts back into its key and message, and adds no semicolon
      to its message. */
  lemma EntryReadsBack(f: Field, m: Message)
    ensures SplitEntry(EntryText(FieldKey(f), MessageText(m))) == (FieldKey(f), MessageText(m))
    ensures NoSemicolon(MessageText(m)) ==> NoSemicolon(EntryText(FieldKey(f), MessageText(m)))
  {
    var key := FieldKey(f);
    var msg := MessageText(m);
    var t := EntryText(key, msg);
    FieldKeyIsPlain(f);
    SplitEntryText(key, msg);
    if NoSemicolon(msg) {
      forall j | 0 <= j < |t|
        ensures t[j] != ';'
      {
        if j < |key| {
          assert t[j] == key[j];
        } else if j >= |key| + 2 {
          assert t[j] == msg[j - |key| - 2];
        }
      }
    }
  }

  lemma EntriesReadBack(rec: ErrorRecord)
    ensures forall k :: 0 <= k < |rec| ==>
              SplitEntry(EntryText(FieldKey(rec[k].0), MessageText(rec[k].1))) == (FieldKey(rec[k].0), MessageText(rec[k].1))
    ensures forall k :: 0 <= k < |rec| && NoSemicolon(MessageText(rec[k].1)) ==>
              NoSemicolon(EntryText(FieldKey(rec[k].0), MessageText(rec[k].1)))
  {
    forall k | 0 <= k < |rec|
      ensures SplitEntry(EntryText(FieldKey(rec[k].0), MessageText(rec[k].1))) == (FieldKey(rec[k].0), MessageText(rec[k].1))
      ensures NoSemicolon(MessageText(rec[k].1)) ==> NoSemicolon(EntryText(FieldKey(rec[k].0), MessageText(rec[k].1)))
    {
      EntryReadsBack(rec[k].0, rec[k].1);
    }
  }

  /** One line per reported row, in order, with the same row number. */
  function ConvertErrors(errors: seq<RowErrors>): (lines: seq<ReportLine>)
    ensures |lines| == |errors|
    ensures forall k :: 0 <= k < |errors| ==> lines[k].row == errors[k].row
  {
    seq(|errors|, k requires 0 <= k < |errors| =>
      ReportLine(errors[k].row, Join(EntryTexts(errors[k].errors), Separator)))
  }

  /* ---------- reading a line back ---------- */

  /** The index of the first `mark` followed by a space in `s` (the first
      `"; "` or `": "`), or `|s|` when there is none. */
  function MarkAt(s: string, mark: char): (k: nat)
    ensures k <= |s|
    ensures k < |s| ==> k + 1 < |s| && s[k] == mark && s[k + 1] == ' '
    ensures forall j :: 0 <= j < k && j + 1 < |s| ==> !(s[j] == mark && s[j + 1] == ' ')
    decreases |s|
  {
    if |s| < 2 then |s|
    else if s[0] == mark && s[1] == ' ' then 0
    else
      var k := MarkAt(s[1..], mark);
      if k == |s| - 1 then |s| else k + 1
  }

  /** `s.split("; ")`. */
  function Split(s: string): (parts: seq<string>)
    ensures |parts| >= 1
    decreases |s|
  {
    var k := MarkAt(s, ';');
    if k == |s| then [s] else [s[..k]] + Split(s[k + 2..])
  }

  predicate NoSemicolon(s: string) {
    forall j :: 0 <= j < |s| ==> s[j] != ';'
  }

  /** A separator placed after a part free of semicolons is the first one. */
  lemma SeparatorAfter(a: string, rest: string)
    requires NoSemicolon(a)
    ensures MarkAt(a + Separator + rest, ';') == |a|
  {
    var s := a + Separator + rest;
    assert s[|a|] == ';' && s[|a| + 1] == ' ';
  }

  lemma NoSeparatorIn(a: string)
    requires NoSemicolon(a)
    ensures MarkAt(a, ';') == |a|
  {
  }

  /** Splitting undoes joining parts that contain no semicolon. */
  lemma {:induction false} SplitJoin(parts: seq<string>)
    requires |parts| >= 1
    requires forall i :: 0 <= i < |parts| ==> NoSemicolon(parts[i])
    ensures Split(Join(parts, Separator)) == parts
    decreases |parts|
  {
    if |parts| == 1 {
      NoSeparatorIn(parts[0]);
    } else {
      var rest := Join(parts[1..], Separator);
      var s := parts[0] + Separator + rest;
      SeparatorAfter(parts[0], rest);
      assert s[..|parts[0]|] == parts[0];
      assert s[|parts[0]| + 2..] == rest;
      SplitJoin(parts[1..]);
    }
  }

  /** An entry cut at its first `": "` into key and message. */
  function SplitEntry(entry: string): (string, string) {
    var k := MarkAt(entry, ':');
    if k == |entry| then (entry, "") else (entry[..k], entry[k + 2..])
  }

  predicate NoColon(s: string) {
    forall j :: 0 <= j < |s| ==> s[j] != ':'
  }

  /** Cutting an entry whose key has no colon recovers key and message. */
  lemma SplitEntryText(key: string, value: string)
    requires NoColon(key)
    ensures SplitEntry(EntryText(key, value)) == (key, value)
  {
    var s := EntryText(key, value);
    assert s[|key|] == ':' && s[|key| + 1] == ' ';
    assert s[..|key|] == key;
    assert s[|key| + 2..] == value;
  }

  /** No key contains a colon or a semicolon. */
  lemma FieldKeyIsPlain(f: Field)
    ensures NoColon(FieldKey(f)) && NoSemicolon(FieldKey(f))
  {
    var key := FieldKey(f);
    forall j | 0 <= j < |key|
      ensures 'A' <= key[j] <= 'z'
    {
    }
  }

  /** The key and message pairs of an error object. */
  function Pairs(rec: ErrorRecord): (pairs: seq<(string, string)>)
    ensures |pairs| == |rec|
  {
    seq(|rec|, k requires 0 <= k < |rec| => (FieldKey(rec[k].0), MessageText(rec[k].1)))
  }

  /** A line of the error sheet, read back into key and message pairs. */
  function DecodeLine(line: string): (pairs: seq<(string, string)>) {
    var parts := Split(line);
    seq(|parts|, k requires 0 <= k < |parts| => SplitEntry(parts[k]))
  }

  /** Every line of the error sheet reads back as its row's keys and
      messages, in order, when no message contains a semicolon. */
  lemma ReportRoundTrip(errors: seq<RowErrors>, k: int)
    requires 0 <= k < |errors| && errors[k].errors != []
    requires forall m: Message :: NoSemicolon(MessageText(m))
    ensures DecodeLine(ConvertErrors(errors)[k].errors) == Pairs(errors[k].errors)
  {
    var texts := EntryTexts(errors[k].errors);
    SplitJoin(texts);
  }
}
