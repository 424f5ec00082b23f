/** The pure formatters of the backup pipeline: the human-readable stamp in
    artifact names, the `YYYY-MM` month key, ISO 8601 text (`toISOString`),
    file-name sanitising, and the flattening of stored records into
    spreadsheet rows (`stringifyComplex`, `normalizeRow`). */
module BackupFormat {

  import opened Wrappers
  import Text
  import opened Decimal

  /** Calendar fields of a moment, as the `Date` getters see them in one time
      zone; `month` is 1-based (`getMonth() + 1`). */
  datatype DateTime = DateTime(year: int, month: nat, day: nat, hour: nat, minute: nat,
                               second: nat, millisecond: nat)
  {
    predicate Valid() {
      1 <= month <= 12 && 1 <= day <= 31 && hour < 24 && minute < 60 && second < 60
      && millisecond < 1000
    }
  }

  /** A JavaScript `Date`: its fields in the host's local zone (what
      `getFullYear`, `getMonth`, ... return) and in UTC (what `toISOString`
      prints). The zone conversion between them is not modelled. */
  datatype Instant = Instant(local: DateTime, utc: DateTime) {
    predicate Valid() {
      local.Valid() && utc.Valid()
    }
  }

  /** `formatDateTime`: `DD.MM.YYYY HH.MM` in local time. */
  function FormatDateTime(d: DateTime): string {
    Pad2(d.day) + "." + Pad2(d.month) + "." + IntToDecimal(d.year) + " "
    + Pad2(d.hour) + "." + Pad2(d.minute)
  }

  /** `formatMonthKey`: `YYYY-MM` in local time. */
  function FormatMonthKey(d: DateTime): string {
    IntToDecimal(d.year) + "-" + Pad2(d.month)
  }

  /** The stamp is two digits of day, a dot, two digits of month, a dot, the
      year, a space, two digits of hour, a dot, two digits of minute. */
  lemma FormatDateTimeShape(d: DateTime)
    requires d.Valid()
    ensures var s := FormatDateTime(d);
      var y := IntToDecimal(d.year);
      && |s| == 12 + |y|
      && s[..6] == [DigitChar(d.day / 10), DigitChar(d.day % 10), '.',
                    DigitChar(d.month / 10), DigitChar(d.month % 10), '.']
      && s[6..6 + |y|] == y
      && s[6 + |y|..] == [' ', DigitChar(d.hour / 10), DigitChar(d.hour % 10), '.',
                          DigitChar(d.minute / 10), DigitChar(d.minute % 10)]
  {
    var y := IntToDecimal(d.year);
    var head := Pad2(d.day) + "." + Pad2(d.month) + ".";
    assert head == [DigitChar(d.day / 10), DigitChar(d.day % 10), '.',
                    DigitChar(d.month / 10), DigitChar(d.month % 10), '.'];
    var tail := " " + Pad2(d.hour) + "." + Pad2(d.minute);
    assert tail == [' ', DigitChar(d.hour / 10), DigitChar(d.hour % 10), '.',
                    DigitChar(d.minute / 10), DigitChar(d.minute % 10)];
    var s := FormatDateTime(d);
    assert s == head + y + tail;
    assert s[..6] == head;
    assert s[6..6 + |y|] == y;
    assert s[6 + |y|..] == tail;
  }

  /** The stamp determines the minute it names: equal stamps mean equal year,
      month, day, hour and minute. */
  lemma FormatDateTimeInjective(a: DateTime, b: DateTime)
    requires a.Valid() && b.Valid() && FormatDateTime(a) == FormatDateTime(b)
    ensures a.year == b.year && a.month == b.month && a.day == b.day
    ensures a.hour == b.hour && a.minute == b.minute
  {
    FormatDateTimeShape(a);
    FormatDateTimeShape(b);
    var s := FormatDateTime(a);
    var ya, yb := IntToDecimal(a.year), IntToDecimal(b.year);
    assert |ya| == |yb|;
    assert ya == s[6..6 + |ya|] == yb;
    IntToDecimalInjective(a.year, b.year);
    Pad2Injective(a.day, b.day);
    Pad2Injective(a.month, b.month);
    assert s[6 + |ya|..][1..3] == Pad2(a.hour) && s[6 + |ya|..][1..3] == Pad2(b.hour);
    Pad2Injective(a.hour, b.hour);
    assert s[6 + |ya|..][4..6] == Pad2(a.minute) && s[6 + |ya|..][4..6] == Pad2(b.minute);
    Pad2Injective(a.minute, b.minute);
  }

  /** The month key is the year's decimal text, a dash and the two-digit
      month. */
  lemma FormatMonthKeyShape(d: DateTime)
    requires d.Valid()
    ensures var k := FormatMonthKey(d);
      var y := IntToDecimal(d.year);
      && |k| == |y| + 3 && k[..|y|] == y
      && k[|y|..] == ['-', DigitChar(d.month / 10), DigitChar(d.month % 10)]
  {
  }

  /** Two moments share a month key exactly when they fall in the same year
      and month: the key is a faithful idempotence granularity. */
  lemma MonthKeyEqualIff(a: DateTime, b: DateTime)
    requires a.Valid() && b.Valid()
    ensures FormatMonthKey(a) == FormatMonthKey(b) <==> a.year == b.year && a.month == b.month
  {
    if FormatMonthKey(a) == FormatMonthKey(b) {
      FormatMonthKeyShape(a);
      FormatMonthKeyShape(b);
      var k := FormatMonthKey(a);
      var ya, yb := IntToDecimal(a.year), IntToDecimal(b.year);
      assert |ya| == |yb|;
      assert ya == k[..|ya|] == yb;
      IntToDecimalInjective(a.year, b.year);
      assert k[|ya| + 1..] == Pad2(a.month) && k[|ya| + 1..] == Pad2(b.month);
      Pad2Injective(a.month, b.month);
    }
  }

  /** `n` in decimal, zero-padded on the left to at least `width` digits. */
  function PadDigits(n: nat, width: nat): (s: string)
    ensures |s| >= width && AllDigits(s)
  {
    var d := NatToDecimal(n);
    if |d| >= width then d else seq(width - |d|, _ => '0') + d
  }

  /** Year part of `toISOString`: four digits for years 0 to 9999, otherwise
      a sign and six digits. */
  function IsoYear(y: int): string {
    if 0 <= y <= 9999 then PadDigits(y, 4)
    else if y < 0 then "-" + PadDigits(-y, 6)
    else "+" + PadDigits(y, 6)
  }

  /** `toISOString`: `YYYY-MM-DDTHH:mm:ss.sssZ` from the UTC fields. */
  function Iso(d: DateTime): string {
    IsoYear(d.year) + "-" + Pad2(d.month) + "-" + Pad2(d.day) + "T" + Pad2(d.hour) + ":"
    + Pad2(d.minute) + ":" + Pad2(d.second) + "." + PadDigits(d.millisecond, 3) + "Z"
  }

  lemma PadDigitsExact(n: nat, width: nat)
    requires width >= 1 && n < Power10(width)
    ensures |PadDigits(n, width)| == width
  {
    NatToDecimalLength(n, width);
  }

  function Power10(k: nat): (p: nat)
    ensures p >= 1
  {
    if k == 0 then 1 else 10 * Power10(k - 1)
  }

  lemma {:induction false} NatToDecimalLength(n: nat, width: nat)
    requires width >= 1 && n < Power10(width)
    ensures |NatToDecimal(n)| <= width
  {
    if n >= 10 {
      NatToDecimalLength(n / 10, width - 1);
    }
  }

  /** For years 0 to 9999 the ISO text has the fixed 24-character layout. */
  lemma IsoShape(d: DateTime)
    requires d.Valid() && 0 <= d.year <= 9999
    ensures var s := Iso(d);
      && |s| == 24
      && s[4] == '-' && s[7] == '-' && s[10] == 'T' && s[13] == ':' && s[16] == ':'
      && s[19] == '.' && s[23] == 'Z'
  {
    PadDigitsExact(d.year, 4);
    PadDigitsExact(d.millisecond, 3);
    var s1 := IsoYear(d.year) + "-" + Pad2(d.month);
    assert |s1| == 7 && s1[4] == '-';
    var s2 := s1 + "-" + Pad2(d.day);
    assert |s2| == 10 && s2[4] == '-' && s2[7] == '-';
    var s3 := s2 + "T" + Pad2(d.hour);
    assert |s3| == 13 && s3[4] == '-' && s3[7] == '-' && s3[10] == 'T';
    var s4 := s3 + ":" + Pad2(d.minute);
    assert |s4| == 16 && s4[4] == '-' && s4[7] == '-' && s4[10] == 'T' && s4[13] == ':';
    var s5 := s4 + ":" + Pad2(d.second);
    assert |s5| == 19 && s5[4] == '-' && s5[7] == '-' && s5[10] == 'T' && s5[13] == ':' && s5[16] == ':';
    var s6 := s5 + "." + PadDigits(d.millisecond, 3);
    assert |s6| == 23 && s6[4] == '-' && s6[7] == '-' && s6[10] == 'T' && s6[13] == ':' && s6[16] == ':'
      && s6[19] == '.';
    assert Iso(d) == s6 + "Z";
  }

  /** Characters that `sanitizeFileName` replaces: `<>:"/\|?*`. */
  predicate IsUnsafeFileChar(c: char) {
    c == '<' || c == '>' || c == ':' || c == '"' || c == '/' || c == '\\' || c == '|'
    || c == '?' || c == '*'
  }

  const DefaultInstituteName := "institute"

  /** `sanitizeFileName(value)`: a missing or blank value gives "institute";
      otherwise the trimmed value with every unsafe character replaced by `_`. */
  function SanitizeFileName(value: Option<string>): (r: string)
    ensures forall k :: 0 <= k < |r| ==> !IsUnsafeFileChar(r[k])
    ensures r != [] && Text.IsTrimmed(r)
    ensures value.None? || Text.Trim(value.value) == [] ==> r == DefaultInstituteName
    ensures value.Some? && Text.Trim(value.value) != [] ==> |r| == |Text.Trim(value.value)|
  {
    if value.None? || Text.Trim(value.value) == [] then
      assert forall k :: 0 <= k < |DefaultInstituteName| ==> 'a' <= DefaultInstituteName[k] <= 'z';
      DefaultInstituteName
    else
      var t := Text.Trim(value.value);
      ReplacedIsTrimmed(t);
      Text.ReplaceAll(t, IsUnsafeFileChar, '_')
  }

  /** Replacing unsafe characters by `_` keeps the ends free of white space. */
  lemma ReplacedIsTrimmed(t: string)
    requires Text.IsTrimmed(t)
    ensures Text.IsTrimmed(Text.ReplaceAll(t, IsUnsafeFileChar, '_'))
  {
    var r := Text.ReplaceAll(t, IsUnsafeFileChar, '_');
    if t != [] {
      assert !Text.IsSpace('_');
      assert r[0] == '_' || r[0] == t[0];
      assert r[|r| - 1] == '_' || r[|r| - 1] == t[|t| - 1];
    }
  }

  /** Characters the sanitised name keeps where they were: all but the unsafe
      ones, which became `_`. */
  lemma SanitizeKeepsSafeCharacters(s: string, k: nat)
    requires Text.Trim(s) != [] && k < |Text.Trim(s)|
    ensures var t := Text.Trim(s);
      SanitizeFileName(Some(s))[k] == if IsUnsafeFileChar(t[k]) then '_' else t[k]
  {
  }

  /** Sanitising twice is sanitising once. */
  lemma SanitizeIdempotent(value: Option<string>)
    ensures SanitizeFileName(Some(SanitizeFileName(value))) == SanitizeFileName(value)
  {
    var r := SanitizeFileName(value);
    Text.TrimOfTrimmed(r);
    assert Text.ReplaceAll(r, IsUnsafeFileChar, '_') == r;
  }

  /** The artifact base name `<sanitized>_backup_<stamp>`. */
  function BaseName(instituteName: Option<string>, localNow: DateTime): string {
    SanitizeFileName(instituteName) + "_backup_" + FormatDateTime(localNow)
  }

  /** Institute `A/B:C` backed up at 2024-03-01 00:05 gives the base name
      `A_B_C_backup_01.03.2024 00.05`. */
  lemma BaseNameExample()
    ensures BaseName(Some("A/B:C"), DateTime(2024, 3, 1, 0, 5, 0, 0))
         == "A_B_C_backup_01.03.2024 00.05"
  {
    SanitizeExample();
    StampExample();
  }

  lemma SanitizeExample()
    ensures SanitizeFileName(Some("A/B:C")) == "A_B_C"
  {
    var s := "A/B:C";
    assert s[0] == 'A' && s[4] == 'C';
    assert Text.IsTrimmed(s);
    Text.TrimOfTrimmed(s);
    assert Text.Trim(s) == s;
    var r := Text.ReplaceAll(s, IsUnsafeFileChar, '_');
    assert r[0] == 'A' && r[1] == '_' && r[2] == 'B' && r[3] == '_' && r[4] == 'C';
    assert r == "A_B_C";
  }

  lemma StampExample()
    ensures FormatDateTime(DateTime(2024, 3, 1, 0, 5, 0, 0)) == "01.03.2024 00.05"
  {
    YearText();
    var a := Pad2(1) + ".";
    assert a == "01.";
    var b := a + Pad2(3) + ".";
    assert b == "01.03.";
    var c := b + IntToDecimal(2024) + " ";
    assert c == "01.03.2024 ";
    var e := c + Pad2(0) + ".";
    assert e == "01.03.2024 00.";
    assert e + Pad2(5) == "01.03.2024 00.05";
  }

  lemma YearText()
    ensures IntToDecimal(2024) == "2024"
  {
    assert NatToDecimal(2) == "2";
    assert NatToDecimal(20) == "20";
    assert NatToDecimal(202) == "202";
  }

  // ---------------------------------------------------------------------
  // JavaScript values as stored documents hold them, and their flattening.

  datatype JsValue =
    | Undefined
    | Null
    | Bool(b: bool)
    | Num(n: int)
    | Str(s: string)
    | DateValue(at: Instant)
    | ObjectIdValue(hex: string)
    | ArrayValue(items: seq<JsValue>)
    | ObjectValue(fields: seq<(string, JsValue)>)

  /** A document as `Object.entries` lists it: keys with their values. */
  type Record = seq<(string, JsValue)>

  predicate Truthy(v: JsValue) {
    match v
    case Undefined => false
    case Null => false
    case Bool(b) => b
    case Num(n) => n != 0
    case Str(s) => s != []
    case _ => true
  }

  /** A value a spreadsheet cell can hold as it is: no date, no identifier
      object, nothing nested. */
  predicate IsFlat(v: JsValue) {
    !(v.DateValue? || v.ObjectIdValue? || v.ArrayValue? || v.ObjectValue?)
  }

  /** `String(value)`: an identifier's hex text; an array's elements joined by
      commas (null and undefined as empty text); a plain object is
      `[object Object]`. A date is given its ISO text here. */
  function StringForm(v: JsValue): string
    decreases v, 1
  {
    match v
    case Undefined => "undefined"
    case Null => "null"
    case Bool(b) => if b then "true" else "false"
    case Num(n) => IntToDecimal(n)
    case Str(s) => s
    case DateValue(t) => Iso(t.utc)
    case ObjectIdValue(h) => h
    case ArrayValue(items) => JoinStringForms(items)
    case ObjectValue(_) => "[object Object]"
  }

  function JoinStringForms(items: seq<JsValue>): string
    decreases items, 0
  {
    if items == [] then ""
    else
      var first := if items[0].Undefined? || items[0].Null? then "" else StringForm(items[0]);
      if |items| == 1 then first else first + "," + JoinStringForms(items[1..])
  }

  /** Characters that JSON text must escape inside a string. */
  predicate NeedsEscape(c: char) {
    c == '"' || c == '\\' || (c as int) < 0x20
  }

  function HexDigit(d: nat): char
    requires d < 16
  {
    "0123456789abcdef"[d]
  }

  /** The escape JSON.stringify writes for one character. */
  function EscapeChar(c: char): string {
    if c == '"' then "\\\""
    else if c == '\\' then "\\\\"
    else if c == '\U{0008}' then "\\b"
    else if c == '\U{000C}' then "\\f"
    else if c == '\n' then "\\n"
    else if c == '\r' then "\\r"
    else if c == '\t' then "\\t"
    else if (c as int) < 0x20 then "\\u00" + [HexDigit(c as int / 16), HexDigit(c as int % 16)]
    else [c]
  }

  function Escape(s: string): string {
    if s == [] then "" else EscapeChar(s[0]) + Escape(s[1..])
  }

  /** A JSON string literal. */
  function Quote(s: string): string {
    "\"" + Escape(s) + "\""
  }

  /** Text with nothing to escape is quoted as it is. */
  lemma {:induction false} EscapePlain(s: string)
    requires forall k :: 0 <= k < |s| ==> !NeedsEscape(s[k])
    ensures Escape(s) == s
  {
    if s != [] {
      EscapePlain(s[1..]);
    }
  }

  /** `JSON.stringify` as `stringifyComplex` calls it: dates become their ISO
      text (through `Date.prototype.toJSON`; the replacer sees that text),
      identifiers their hex text, undefined members are dropped from objects
      and written as null in arrays. */
  function Json(v: JsValue): string
    decreases v, 1
  {
    match v
    case Undefined => "null"
    case Null => "null"
    case Bool(b) => if b then "true" else "false"
    case Num(n) => IntToDecimal(n)
    case Str(s) => Quote(s)
    case DateValue(t) => Quote(Iso(t.utc))
    case ObjectIdValue(h) => Quote(h)
    case ArrayValue(items) => "[" + JsonItems(items) + "]"
    case ObjectValue(fields) => "{" + JsonMembers(fields) + "}"
  }

  function JsonItems(items: seq<JsValue>): string
    decreases items, 0
  {
    if items == [] then ""
    else if |items| == 1 then Json(items[0])
    else Json(items[0]) + "," + JsonItems(items[1..])
  }

  function JsonMembers(fields: seq<(string, JsValue)>): string
    decreases fields, 0
  {
    if fields == [] then ""
    else
      var rest := JsonMembers(fields[1..]);
      if fields[0].1.Undefined? then rest
      else
        assert fields[0] in fields;
        assert fields[0] decreases to fields[0].1;
        var member := Quote(fields[0].0) + ":" + Json(fields[0].1);
        if rest == "" then member else member + "," + rest
  }

  /** Text made of digits and the ISO separators needs no escaping. */
  predicate IsIsoChar(c: char) {
    IsDigit(c) || c == '-' || c == '+' || c == 'T' || c == ':' || c == '.' || c == 'Z'
  }

  predicate AllIsoChars(s: string) {
    forall k :: 0 <= k < |s| ==> IsIsoChar(s[k])
  }

  lemma IsoCharsConcat(a: string, b: string)
    requires AllIsoChars(a) && AllIsoChars(b)
    ensures AllIsoChars(a + b)
  {
    assert forall k :: 0 <= k < |a + b| ==> (a + b)[k] == if k < |a| then a[k] else b[k - |a|];
  }

  lemma IsoIsPlain(d: DateTime)
    ensures forall k :: 0 <= k < |Iso(d)| ==> !NeedsEscape(Iso(d)[k])
  {
    var y := IsoYear(d.year);
    assert AllIsoChars(y) by {
      assert forall k :: 0 <= k < |y| ==> IsDigit(y[k]) || y[k] == '-' || y[k] == '+';
    }
    var two := [Pad2(d.month), Pad2(d.day), Pad2(d.hour), Pad2(d.minute), Pad2(d.second)];
    assert forall k :: 0 <= k < 5 ==> AllIsoChars(two[k]);
    var acc := y;
    IsoCharsConcat(acc, "-");  acc := acc + "-";
    IsoCharsConcat(acc, two[0]);  acc := acc + two[0];
    IsoCharsConcat(acc, "-");  acc := acc + "-";
    IsoCharsConcat(acc, two[1]);  acc := acc + two[1];
    IsoCharsConcat(acc, "T");  acc := acc + "T";
    IsoCharsConcat(acc, two[2]);  acc := acc + two[2];
    IsoCharsConcat(acc, ":");  acc := acc + ":";
    IsoCharsConcat(acc, two[3]);  acc := acc + two[3];
    IsoCharsConcat(acc, ":");  acc := acc + ":";
    IsoCharsConcat(acc, two[4]);  acc := acc + two[4];
    IsoCharsConcat(acc, ".");  acc := acc + ".";
    IsoCharsConcat(acc, PadDigits(d.millisecond, 3));  acc := acc + PadDigits(d.millisecond, 3);
    IsoCharsConcat(acc, "Z");  acc := acc + "Z";
    assert acc == Iso(d);
  }

  /** ISO text never needs escaping, so a nested date appears in JSON text as
      its ISO text between quotes. */
  lemma NestedDateIsIsoText(t: Instant)
    ensures Json(DateValue(t)) == "\"" + Iso(t.utc) + "\""
    ensures Json(ArrayValue([DateValue(t)])) == "[" + Json(DateValue(t)) + "]"
  {
    IsoIsPlain(t.utc);
    EscapePlain(Iso(t.utc));
    var items := [DateValue(t)];
    assert JsonItems(items) == Json(DateValue(t));
    JsonOfArray(items);
  }

  lemma JsonOfArray(items: seq<JsValue>)
    ensures Json(ArrayValue(items)) == "[" + JsonItems(items) + "]"
  {
  }

  /** `stringifyComplex`: a date becomes its ISO text, an array or a non-null
      object its JSON text, anything else is left as it is. */
  function StringifyComplex(v: JsValue): (r: JsValue)
    ensures IsFlat(r)
    ensures v.DateValue? ==> r == Str(Iso(v.at.utc))
    ensures v.ArrayValue? || v.ObjectValue? || v.ObjectIdValue? ==> r == Str(Json(v))
    ensures IsFlat(v) ==> r == v
  {
    if v.DateValue? then Str(Iso(v.at.utc))
    else if v.ArrayValue? || (Truthy(v) && (v.ObjectValue? || v.ObjectIdValue?)) then Str(Json(v))
    else v
  }

  /** One cell of `normalizeRow`: a truthy `_id` becomes its string form,
      everything else goes through `stringifyComplex`. */
  function NormalizeField(key: string, v: JsValue): (r: JsValue)
    ensures IsFlat(r)
    ensures key == "_id" && Truthy(v) ==> r == Str(StringForm(v))
    ensures !(key == "_id" && Truthy(v)) ==> r == StringifyComplex(v)
  {
    if key == "_id" && Truthy(v) then Str(StringForm(v)) else StringifyComplex(v)
  }

  /** The row `normalizeRow` builds: same keys in the same order, every value
      normalised. */
  function NormalizedRecord(record: Record): (row: Record)
    ensures |row| == |record|
    ensures forall k :: 0 <= k < |record| ==>
      row[k].0 == record[k].0 && row[k].1 == NormalizeField(record[k].0, record[k].1)
  {
    seq(|record|, k requires 0 <= k < |record| => (record[k].0, NormalizeField(record[k].0, record[k].1)))
  }

  /** Every cell of a normalised row is flat. */
  lemma NormalizedRecordIsFlat(record: Record)
    ensures forall k :: 0 <= k < |record| ==> IsFlat(NormalizedRecord(record)[k].1)
  {
  }

  /** `normalizeRow`: fills the row entry by entry. */
  method NormalizeRow(record: Record) returns (row: Record)
    ensures row == NormalizedRecord(record)
  {
    row := [];
    var i := 0;
    while i < |record|
      invariant 0 <= i <= |record| && |row| == i
      invariant forall k :: 0 <= k < i ==> row[k] == (record[k].0, NormalizeField(record[k].0, record[k].1))
    {
      var (key, value) := record[i];
      if key == "_id" && Truthy(value) {
        row := row + [(key, Str(StringForm(value)))];
      } else {
        row := row + [(key, StringifyComplex(value))];
      }
      i := i + 1;
    }
  }

  /** A document with an identifier, a date and a nested list flattens to
      three text cells, the date to its ISO text. */
  lemma FlattenExample(id: string, t: Instant, tags: seq<string>)
    requires id != []
    ensures var row := NormalizedRecord([("_id", ObjectIdValue(id)), ("date", DateValue(t)),
                                         ("subjects", ArrayValue(seq(|tags|, k requires 0 <= k < |tags| => Str(tags[k]))))]);
      && row[0] == ("_id", Str(id))
      && row[1] == ("date", Str(Iso(t.utc)))
      && row[2].1.Str?
  {
  }
}
