/**
 `scripts/cronus_to_pg.py`: rows written by SQL Server in PostgreSQL's COPY text format, and what
 COPY reads from them.
 */
module CopyText {

  // ------------------------------------------------------------------ writing

  /** `REPLACE(s, c, with)` for a single character. */
  function Replace(s: string, c: char, with: string): string {
    if s == "" then "" else (if s[0] == c then with else [s[0]]) + Replace(s[1..], c, with)
  }

  /** The nested REPLACEs of `escaped` around a text column: NUL first, then the four escapes. */
  function EscapedText(s: string): string {
    var doubled := Replace(Replace(s, '\0', "\U{FFFD}"), '\\', "\\\\");
    Replace(Replace(Replace(doubled, '\t', "\\t"), '\n', "\\n"), '\r', "\\r")
  }

  type Byte = n: nat | n < 256

  function HexDigit(n: nat): char
    requires n < 16
  {
    if n < 10 then '0' + n as char else 'A' + (n - 10) as char
  }

  /** `CONVERT(varchar(max), ..., 2)`. */
  function Hex(bytes: seq<Byte>): string {
    if bytes == [] then "" else [HexDigit(bytes[0] / 16), HexDigit(bytes[0] % 16)] + Hex(bytes[1..])
  }

  predicate Special(c: char) {
    c == '\\' || c == '\t' || c == '\n' || c == '\r'
  }

  /** A converted date or number: SQL Server writes none of the special characters there. */
  type Plain = s: string | forall i :: 0 <= i < |s| ==> !Special(s[i])

  datatype Column = Null | Text(text: string) | Binary(bytes: seq<Byte>) | Bit(on: bool) | Converted(plain: Plain)

  /** The value of the SQL expression that `escaped` builds. */
  function Field(c: Column): string {
    match c
    case Null => "\\N"
    case Text(text) => EscapedText(text)
    case Binary(bytes) => "\\\\x" + Hex(bytes)
    case Bit(on) => if on then "t" else "f"
    case Converted(plain) => plain
  }

  /** Fields joined by tabs. */
  function Row(columns: seq<Column>): string
    requires columns != []
  {
    if |columns| == 1 then Field(columns[0]) else Field(columns[0]) + "\t" + Row(columns[1..])
  }

  predicate HasColumns(rows: seq<seq<Column>>) {
    forall i :: 0 <= i < |rows| ==> rows[i] != []
  }

  /** The file that `bcp` writes, with a line feed behind every row. */
  function Table(rows: seq<seq<Column>>): string
    requires HasColumns(rows)
  {
    if rows == [] then "" else Row(rows[0]) + "\n" + Table(rows[1..])
  }

  // ------------------------------------------------------------------ reading, as COPY does

  datatype Value = NullValue | Given(text: string)

  /** Up to the first line feed that no backslash precedes; and what follows it. */
  function ReadLine(s: string): (r: (string, string))
    ensures |r.1| <= |s| && (s != "" ==> |r.1| < |s|)
  {
    if s == "" then ("", "")
    else if s[0] == '\n' then ("", s[1..])
    else if s[0] == '\\' && |s| > 1 then var (line, rest) := ReadLine(s[2..]); (s[..2] + line, rest)
    else var (line, rest) := ReadLine(s[1..]); (s[..1] + line, rest)
  }

  /** The raw fields of a line: split at every tab that no backslash precedes. */
  function SplitFields(line: string): (r: seq<string>)
    ensures r != []
  {
    if line == "" then [""]
    else if line[0] == '\t' then [""] + SplitFields(line[1..])
    else if line[0] == '\\' && |line| > 1 then var rest := SplitFields(line[2..]); [line[..2] + rest[0]] + rest[1..]
    else var rest := SplitFields(line[1..]); [line[..1] + rest[0]] + rest[1..]
  }

  function DigitValue(c: char): nat {
    if '0' <= c <= '9' then c as int - '0' as int
    else if 'a' <= c <= 'f' then c as int - 'a' as int + 10
    else if 'A' <= c <= 'F' then c as int - 'A' as int + 10
    else 16
  }

  /** At most `limit` digits of the given base. */
  function Digits(s: string, base: nat, limit: nat): nat {
    if limit == 0 || s == "" || DigitValue(s[0]) >= base then 0 else 1 + Digits(s[1..], base, limit - 1)
  }

  function Number(s: string, base: nat): nat
    requires base > 0
  {
    if s == "" then 0 else Number(s[..|s| - 1], base) * base + DigitValue(s[|s| - 1])
  }

  lemma DigitsWithin(s: string, base: nat, limit: nat)
    ensures Digits(s, base, limit) <= |s|
  {
  }

  /** What a letter behind a backslash stands for. */
  function Letter(c: char): char {
    match c
    case 'b' => 8 as char
    case 'f' => 12 as char
    case 'n' => '\n'
    case 'r' => '\r'
    case 't' => '\t'
    case 'v' => 11 as char
    case _ => c
  }

  /** The backslash sequences of COPY: octal, hexadecimal, letters, and any other character itself. */
  function Unescape(raw: string): string {
    if raw == "" then ""
    else if raw[0] != '\\' || |raw| == 1 then raw[..1] + Unescape(raw[1..])
    else
      DigitsWithin(raw[1..], 8, 3);
      DigitsWithin(raw[2..], 16, 2);
      var octal, hexadecimal := Digits(raw[1..], 8, 3), Digits(raw[2..], 16, 2);
      if octal > 0 then [(Number(raw[1..1 + octal], 8) % 256) as char] + Unescape(raw[1 + octal..])
      else if raw[1] == 'x' && hexadecimal > 0 then
        [(Number(raw[2..2 + hexadecimal], 16) % 256) as char] + Unescape(raw[2 + hexadecimal..])
      else [Letter(raw[1])] + Unescape(raw[2..])
  }

  function ReadField(raw: string): Value {
    if raw == "\\N" then NullValue else Given(Unescape(raw))
  }

  function ReadFields(raws: seq<string>): seq<Value> {
    if raws == [] then [] else [ReadField(raws[0])] + ReadFields(raws[1..])
  }

  /** COPY FROM: a line `\.` ends the data. */
  function ReadTable(s: string): seq<seq<Value>>
    decreases |s|
  {
    if s == "" then [] else
    var (line, rest) := ReadLine(s);
    if line == "\\." then [] else [ReadFields(SplitFields(line))] + ReadTable(rest)
  }

  /** `bytea` input in its hexadecimal form. */
  function ReadBytes(s: string): seq<nat> {
    if |s| < 2 then [] else [16 * DigitValue(s[0]) + DigitValue(s[1])] + ReadBytes(s[2..])
  }

  // ------------------------------------------------------------------ the REPLACEs, character by character

  /** U+0000 becomes U+FFFD, which PostgreSQL can store. */
  function WithoutNul(s: string): string {
    Replace(s, '\0', "\U{FFFD}")
  }

  /** What one character becomes. */
  function Escape(c: char): string {
    match c
    case '\0' => "\U{FFFD}"
    case '\\' => "\\\\"
    case '\t' => "\\t"
    case '\n' => "\\n"
    case '\r' => "\\r"
    case _ => [c]
  }

  function EscapeEach(s: string): string {
    if s == "" then "" else Escape(s[0]) + EscapeEach(s[1..])
  }

  lemma {:induction false} ReplaceConcat(a: string, b: string, c: char, with: string)
    ensures Replace(a + b, c, with) == Replace(a, c, with) + Replace(b, c, with)
  {
    if a == "" {
      assert a + b == b;
    } else {
      assert (a + b)[1..] == a[1..] + b;
      ReplaceConcat(a[1..], b, c, with);
    }
  }

  lemma ReplaceOne(d: char, c: char, with: string)
    ensures Replace([d], c, with) == if d == c then with else [d]
  {
    assert [d][1..] == "";
  }

  lemma ReplaceTwo(d: char, e: char, c: char, with: string)
    requires d != c && e != c
    ensures Replace([d, e], c, with) == [d, e]
  {
    assert [d, e] == [d] + [e];
    ReplaceConcat([d], [e], c, with);
    ReplaceOne(d, c, with);
    ReplaceOne(e, c, with);
  }

  lemma EscapedOne(c: char)
    ensures EscapedText([c]) == Escape(c)
  {
    ReplaceOne(c, '\0', "\U{FFFD}");
    if c == '\0' {
      ReplaceOne('\U{FFFD}', '\\', "\\\\");
      ReplaceOne('\U{FFFD}', '\t', "\\t");
      ReplaceOne('\U{FFFD}', '\n', "\\n");
      ReplaceOne('\U{FFFD}', '\r', "\\r");
    } else if c == '\\' {
      ReplaceOne(c, '\\', "\\\\");
      ReplaceTwo('\\', '\\', '\t', "\\t");
      ReplaceTwo('\\', '\\', '\n', "\\n");
      ReplaceTwo('\\', '\\', '\r', "\\r");
    } else {
      ReplaceOne(c, '\\', "\\\\");
      ReplaceOne(c, '\t', "\\t");
      if c == '\t' {
        ReplaceTwo('\\', 't', '\n', "\\n");
        ReplaceTwo('\\', 't', '\r', "\\r");
      } else {
        ReplaceOne(c, '\n', "\\n");
        if c == '\n' {
          ReplaceTwo('\\', 'n', '\r', "\\r");
        } else {
          ReplaceOne(c, '\r', "\\r");
        }
      }
    }
  }

  lemma EscapedConcat(a: string, b: string)
    ensures EscapedText(a + b) == EscapedText(a) + EscapedText(b)
  {
    var a1, b1 := Replace(a, '\0', "\U{FFFD}"), Replace(b, '\0', "\U{FFFD}");
    var a2, b2 := Replace(a1, '\\', "\\\\"), Replace(b1, '\\', "\\\\");
    var a3, b3 := Replace(a2, '\t', "\\t"), Replace(b2, '\t', "\\t");
    var a4, b4 := Replace(a3, '\n', "\\n"), Replace(b3, '\n', "\\n");
    ReplaceConcat(a, b, '\0', "\U{FFFD}");
    ReplaceConcat(a1, b1, '\\', "\\\\");
    ReplaceConcat(a2, b2, '\t', "\\t");
    ReplaceConcat(a3, b3, '\n', "\\n");
    ReplaceConcat(a4, b4, '\r', "\\r");
  }

  /** The nested REPLACEs are one map over the characters: no later one undoes or repeats an earlier. */
  lemma {:induction false} EscapedIsPerCharacter(s: string)
    ensures EscapedText(s) == EscapeEach(s)
  {
    if s != "" {
      assert s == [s[0]] + s[1..];
      EscapedConcat([s[0]], s[1..]);
      EscapedOne(s[0]);
      EscapedIsPerCharacter(s[1..]);
    }
  }

  // ------------------------------------------------------------------ under the database's collation

  /** What REPLACE takes for the same character: `same(d, c)` when it finds `c` where `d` stands. */
  type Collation = (char, char) -> bool

  function ReplaceUnder(same: Collation, s: string, c: char, with: string): string {
    if s == "" then ""
    else (if same(s[0], c) then with else [s[0]]) + ReplaceUnder(same, s[1..], c, with)
  }

  /** The four escapes as `DATABASE_DEFAULT` finds them. */
  function EscapedUnder(same: Collation, s: string): string {
    var doubled := ReplaceUnder(same, s, '\\', "\\\\");
    ReplaceUnder(same, ReplaceUnder(same, ReplaceUnder(same, doubled, '\t', "\\t"), '\n', "\\n"), '\r', "\\r")
  }

  /** The character that the escapes take `d` for, each in its turn. */
  function Taken(same: Collation, d: char): char {
    if same(d, '\\') then '\\'
    else if same(d, '\t') then '\t'
    else if same(d, '\n') then '\n'
    else if same(d, '\r') then '\r'
    else d
  }

  function TakenEach(same: Collation, s: string): (r: string)
    ensures |r| == |s| && forall i :: 0 <= i < |s| ==> r[i] == Taken(same, s[i])
  {
    if s == "" then "" else [Taken(same, s[0])] + TakenEach(same, s[1..])
  }

  /** The four characters are found, and no letter of an escape that was written is found again. */
  ghost predicate FindsEscapes(same: Collation) {
    forall d, c {:trigger same(d, c)} :: Special(c) && (d in ESCAPES || Special(d)) ==> (same(d, c) <==> d == c)
  }

  lemma {:induction false} UnderConcat(same: Collation, a: string, b: string, c: char, with: string)
    ensures ReplaceUnder(same, a + b, c, with) == ReplaceUnder(same, a, c, with) + ReplaceUnder(same, b, c, with)
  {
    if a == "" {
      assert a + b == b;
    } else {
      assert (a + b)[1..] == a[1..] + b;
      UnderConcat(same, a[1..], b, c, with);
    }
  }

  lemma EscapedUnderConcat(same: Collation, a: string, b: string)
    ensures EscapedUnder(same, a + b) == EscapedUnder(same, a) + EscapedUnder(same, b)
  {
    var a1, b1 := ReplaceUnder(same, a, '\\', "\\\\"), ReplaceUnder(same, b, '\\', "\\\\");
    var a2, b2 := ReplaceUnder(same, a1, '\t', "\\t"), ReplaceUnder(same, b1, '\t', "\\t");
    var a3, b3 := ReplaceUnder(same, a2, '\n', "\\n"), ReplaceUnder(same, b2, '\n', "\\n");
    UnderConcat(same, a, b, '\\', "\\\\");
    UnderConcat(same, a1, b1, '\t', "\\t");
    UnderConcat(same, a2, b2, '\n', "\\n");
    UnderConcat(same, a3, b3, '\r', "\\r");
  }

  lemma UnderOne(same: Collation, d: char, c: char, with: string)
    ensures ReplaceUnder(same, [d], c, with) == if same(d, c) then with else [d]
  {
    assert [d][1..] == "";
  }

  /** An escape that was written stays as it is. */
  lemma UnderEscape(same: Collation, e: char, c: char, with: string)
    requires FindsEscapes(same) && e in ESCAPES && Special(c) && c != '\\'
    ensures ReplaceUnder(same, ['\\', e], c, with) == ['\\', e]
  {
    assert ['\\', e] == ['\\'] + [e];
    UnderConcat(same, ['\\'], [e], c, with);
    UnderOne(same, '\\', c, with);
    UnderOne(same, e, c, with);
  }

  lemma EscapedUnderOne(same: Collation, d: char)
    requires FindsEscapes(same) && d != '\0'
    ensures EscapedUnder(same, [d]) == Escape(Taken(same, d))
  {
    UnderOne(same, d, '\\', "\\\\");
    if same(d, '\\') {
      UnderEscape(same, '\\', '\t', "\\t");
      UnderEscape(same, '\\', '\n', "\\n");
      UnderEscape(same, '\\', '\r', "\\r");
    } else {
      UnderOne(same, d, '\t', "\\t");
      if same(d, '\t') {
        UnderEscape(same, 't', '\n', "\\n");
        UnderEscape(same, 't', '\r', "\\r");
      } else {
        UnderOne(same, d, '\n', "\\n");
        if same(d, '\n') {
          UnderEscape(same, 'n', '\r', "\\r");
        } else {
          UnderOne(same, d, '\r', "\\r");
        }
      }
    }
  }

  lemma {:induction false} EscapedUnderEach(same: Collation, s: string)
    requires FindsEscapes(same) && '\0' !in s
    ensures EscapedUnder(same, s) == EscapeEach(TakenEach(same, s))
  {
    if s != "" {
      assert s == [s[0]] + s[1..];
      EscapedUnderConcat(same, [s[0]], s[1..]);
      EscapedUnderOne(same, s[0]);
      EscapedUnderEach(same, s[1..]);
    }
  }

  // ------------------------------------------------------------------ what a field looks like

  /** Backslashes come with one of the given letters behind them, and no control character stands raw. */
  predicate WellEscaped(s: string, letters: set<char>) {
    if s == "" then true
    else if s[0] == '\\' then |s| > 1 && s[1] in letters && WellEscaped(s[2..], letters)
    else !Special(s[0]) && WellEscaped(s[1..], letters)
  }

  const ESCAPES := {'\\', 't', 'n', 'r'}

  lemma {:induction false} EscapeEachWellEscaped(s: string)
    ensures WellEscaped(EscapeEach(s), ESCAPES)
  {
    if s != "" {
      EscapeEachWellEscaped(s[1..]);
      var rest := EscapeEach(s[1..]);
      assert (Escape(s[0]) + rest)[|Escape(s[0])|..] == rest;
    }
  }

  lemma {:induction false} PlainWellEscaped(s: string)
    requires forall i :: 0 <= i < |s| ==> !Special(s[i])
    ensures WellEscaped(s, ESCAPES)
  {
    if s != "" {
      PlainWellEscaped(s[1..]);
    }
  }

  lemma {:induction false} HexPlain(bytes: seq<Byte>)
    ensures forall i :: 0 <= i < |Hex(bytes)| ==> !Special(Hex(bytes)[i])
  {
    if bytes != [] {
      HexPlain(bytes[1..]);
    }
  }

  /** Every field but NULL. */
  lemma FieldWellEscaped(c: Column)
    requires !c.Null?
    ensures WellEscaped(Field(c), ESCAPES)
  {
    match c
    case Text(text) =>
      EscapedIsPerCharacter(text);
      EscapeEachWellEscaped(text);
    case Binary(bytes) =>
      HexPlain(bytes);
      var tail := "x" + Hex(bytes);
      PlainWellEscaped(tail);
      assert Field(c) == "\\\\" + tail && Field(c)[2..] == tail;
    case Bit(_) => PlainWellEscaped(Field(c));
    case Converted(plain) => PlainWellEscaped(plain);
  }

  lemma {:induction false} WellEscapedHasNoControl(s: string)
    requires WellEscaped(s, ESCAPES)
    ensures '\t' !in s && '\n' !in s && '\r' !in s
  {
    if s != "" {
      var n := if s[0] == '\\' then 2 else 1;
      WellEscapedHasNoControl(s[n..]);
      assert s == s[..n] + s[n..];
    }
  }

  /** No field holds a raw tab, line feed or carriage return, and only NULL is written as NULL. */
  lemma FieldIsDelimited(c: Column)
    ensures '\t' !in Field(c) && '\n' !in Field(c) && '\r' !in Field(c)
    ensures Field(c) == "\\N" <==> c.Null?
  {
    if !c.Null? {
      FieldWellEscaped(c);
      WellEscapedHasNoControl(Field(c));
    }
  }

  // ------------------------------------------------------------------ reading one field

  lemma UnescapeEscape(c: char, rest: string)
    ensures Unescape(Escape(c) + rest) == WithoutNul([c]) + Unescape(rest)
  {
    ReplaceOne(c, '\0', "\U{FFFD}");
    var raw := Escape(c) + rest;
    assert raw[|Escape(c)|..] == rest;
    if Special(c) {
      assert raw[1..][0] == raw[1];
    }
  }

  lemma {:induction false} UnescapeEach(s: string)
    ensures Unescape(EscapeEach(s)) == WithoutNul(s)
  {
    if s != "" {
      UnescapeEscape(s[0], EscapeEach(s[1..]));
      UnescapeEach(s[1..]);
      assert s == [s[0]] + s[1..];
      ReplaceConcat([s[0]], s[1..], '\0', "\U{FFFD}");
    }
  }

  lemma {:induction false} UnescapePlain(s: string)
    requires forall i :: 0 <= i < |s| ==> !Special(s[i])
    ensures Unescape(s) == s
  {
    if s != "" {
      UnescapePlain(s[1..]);
    }
  }

  /** No character of the text is taken for another. */
  predicate Discerns(same: Collation, s: string) {
    forall i :: 0 <= i < |s| ==> Taken(same, s[i]) == s[i]
  }

  /**
   Whatever the database's default collation, as long as it finds the four characters and leaves
   written escapes alone: a text comes back with only U+0000 replaced if and only if REPLACE takes none
   of its other characters for one of the four. A collation that tells them apart writes what comparing
   code points writes.
   */
  lemma CollatedRoundTrip(same: Collation, s: string)
    requires FindsEscapes(same)
    ensures Unescape(EscapedUnder(same, WithoutNul(s))) == WithoutNul(s) <==> Discerns(same, WithoutNul(s))
    ensures Discerns(same, WithoutNul(s)) ==> EscapedUnder(same, WithoutNul(s)) == EscapedText(s)
  {
    var kept := WithoutNul(s);
    WithoutNulHasNone(s);
    EscapedUnderEach(same, kept);
    var taken := TakenEach(same, kept);
    TakenHasNoNul(same, kept);
    UnescapeEach(taken);
    NothingReplaced(taken);
    if Discerns(same, kept) {
      assert taken == kept;
      EscapedIsPerCharacter(s);
      EscapeEachOfKept(s);
    }
  }

  lemma {:induction false} WithoutNulHasNone(s: string)
    ensures '\0' !in WithoutNul(s)
  {
    if s != "" {
      WithoutNulHasNone(s[1..]);
    }
  }

  lemma TakenHasNoNul(same: Collation, s: string)
    requires '\0' !in s
    ensures '\0' !in TakenEach(same, s)
  {
  }

  lemma {:induction false} NothingReplaced(s: string)
    requires '\0' !in s
    ensures WithoutNul(s) == s
  {
    if s != "" {
      NothingReplaced(s[1..]);
    }
  }

  lemma {:induction false} EscapeEachOfKept(s: string)
    ensures EscapeEach(WithoutNul(s)) == EscapeEach(s)
  {
    if s != "" {
      EscapeEachOfKept(s[1..]);
      assert WithoutNul(s)[1..] == WithoutNul(s[1..]);
    }
  }

  /** What COPY delivers for a column. */
  function Delivered(c: Column): Value {
    match c
    case Null => NullValue
    case Text(text) => Given(WithoutNul(text))
    case Binary(bytes) => Given("\\x" + Hex(bytes))
    case Bit(on) => Given(if on then "t" else "f")
    case Converted(plain) => Given(plain)
  }

  lemma TextRoundTrip(text: string)
    ensures Unescape(EscapedText(text)) == WithoutNul(text)
  {
    EscapedIsPerCharacter(text);
    UnescapeEach(text);
  }

  lemma UnescapeDoubled(tail: string)
    requires forall i :: 0 <= i < |tail| ==> !Special(tail[i])
    ensures Unescape(Escape('\\') + tail) == ['\\'] + tail
  {
    UnescapePlain(tail);
    UnescapeEscape('\\', tail);
    ReplaceOne('\\', '\0', "\U{FFFD}");
  }

  lemma BinaryField(bytes: seq<Byte>)
    ensures Field(Binary(bytes)) == Escape('\\') + ("x" + Hex(bytes))
    ensures "\\x" + Hex(bytes) == ['\\'] + ("x" + Hex(bytes))
  {
  }

  lemma BinaryRoundTrip(bytes: seq<Byte>)
    ensures Unescape(Field(Binary(bytes))) == "\\x" + Hex(bytes)
  {
    HexPlain(bytes);
    UnescapeDoubled("x" + Hex(bytes));
    BinaryField(bytes);
  }

  lemma FieldRoundTrip(c: Column)
    ensures ReadField(Field(c)) == Delivered(c)
  {
    FieldIsDelimited(c);
    match c
    case Null =>
    case Text(text) => TextRoundTrip(text);
    case Binary(bytes) => BinaryRoundTrip(bytes);
    case Bit(_) => UnescapePlain(Field(c));
    case Converted(plain) => UnescapePlain(plain);
  }

  // ------------------------------------------------------------------ reading rows and tables

  /** The letters that stand behind a backslash anywhere in a row. */
  const ROW_ESCAPES := {'\\', 't', 'n', 'r', 'N'}

  lemma {:induction false} MoreLetters(s: string, few: set<char>, many: set<char>)
    requires WellEscaped(s, few) && few <= many
    ensures WellEscaped(s, many)
  {
    if s != "" {
      MoreLetters(s[if s[0] == '\\' then 2 else 1..], few, many);
    }
  }

  lemma FieldInRow(c: Column)
    ensures WellEscaped(Field(c), ROW_ESCAPES)
  {
    if c.Null? {
      assert "\\N"[2..] == "";
    } else {
      FieldWellEscaped(c);
      MoreLetters(Field(c), ESCAPES, ROW_ESCAPES);
    }
  }

  lemma {:induction false} SplitOne(f: string)
    requires WellEscaped(f, ROW_ESCAPES)
    ensures SplitFields(f) == [f]
  {
    if f != "" {
      var n := if f[0] == '\\' then 2 else 1;
      SplitOne(f[n..]);
      assert f == f[..n] + f[n..];
    }
  }

  lemma {:induction false} SplitFirst(f: string, rest: string)
    requires WellEscaped(f, ROW_ESCAPES)
    ensures SplitFields(f + ("\t" + rest)) == [f] + SplitFields(rest)
  {
    var line := f + ("\t" + rest);
    if f == "" {
      assert line == "\t" + rest && line[1..] == rest;
    } else {
      var n := if f[0] == '\\' then 2 else 1;
      SplitFirst(f[n..], rest);
      assert line[n..] == f[n..] + ("\t" + rest) && line[..n] == f[..n];
      assert f == f[..n] + f[n..];
    }
  }

  function Fields(columns: seq<Column>): seq<string> {
    if columns == [] then [] else [Field(columns[0])] + Fields(columns[1..])
  }

  lemma {:induction false} SplitRow(columns: seq<Column>)
    requires columns != []
    ensures SplitFields(Row(columns)) == Fields(columns)
  {
    FieldInRow(columns[0]);
    if |columns| == 1 {
      SplitOne(Field(columns[0]));
      assert Fields(columns[1..]) == [];
    } else {
      assert Row(columns) == Field(columns[0]) + ("\t" + Row(columns[1..]));
      SplitFirst(Field(columns[0]), Row(columns[1..]));
      SplitRow(columns[1..]);
    }
  }

  function DeliveredRow(columns: seq<Column>): seq<Value> {
    if columns == [] then [] else [Delivered(columns[0])] + DeliveredRow(columns[1..])
  }

  lemma {:induction false} ReadRow(columns: seq<Column>)
    ensures ReadFields(Fields(columns)) == DeliveredRow(columns)
  {
    if columns != [] {
      FieldRoundTrip(columns[0]);
      ReadRow(columns[1..]);
    }
  }

  /** A line with no raw line feed, and no backslash that COPY would not understand. */
  predicate LineSafe(s: string) {
    if s == "" then true
    else if s[0] == '\\' then |s| > 1 && s[1] in ROW_ESCAPES && LineSafe(s[2..])
    else s[0] != '\n' && LineSafe(s[1..])
  }

  lemma {:induction false} FieldThenSafe(f: string, rest: string)
    requires WellEscaped(f, ROW_ESCAPES) && LineSafe(rest)
    ensures LineSafe(f + rest)
  {
    if f == "" {
      assert f + rest == rest;
    } else {
      var n := if f[0] == '\\' then 2 else 1;
      FieldThenSafe(f[n..], rest);
      assert (f + rest)[n..] == f[n..] + rest;
    }
  }

  lemma {:induction false} RowSafe(columns: seq<Column>)
    requires columns != []
    ensures LineSafe(Row(columns))
  {
    FieldInRow(columns[0]);
    if |columns| == 1 {
      assert Field(columns[0]) + "" == Field(columns[0]);
      FieldThenSafe(Field(columns[0]), "");
    } else {
      RowSafe(columns[1..]);
      var rest := "\t" + Row(columns[1..]);
      assert rest[1..] == Row(columns[1..]);
      FieldThenSafe(Field(columns[0]), rest);
      assert Row(columns) == Field(columns[0]) + rest;
    }
  }

  lemma {:induction false} ReadSafeLine(line: string, rest: string)
    requires LineSafe(line)
    ensures ReadLine(line + ("\n" + rest)) == (line, rest)
  {
    var s := line + ("\n" + rest);
    if line == "" {
      assert s == "\n" + rest && s[1..] == rest;
    } else {
      var n := if line[0] == '\\' then 2 else 1;
      ReadSafeLine(line[n..], rest);
      assert s[n..] == line[n..] + ("\n" + rest) && s[..n] == line[..n];
      assert line == line[..n] + line[n..];
    }
  }

  function DeliveredTable(rows: seq<seq<Column>>): seq<seq<Value>> {
    if rows == [] then [] else [DeliveredRow(rows[0])] + DeliveredTable(rows[1..])
  }

  /**
   COPY reads from the file exactly the rows and columns that were written: NULL as NULL, every text
   with U+FFFD for U+0000, binary data as the hexadecimal form of its bytes; and no row ends the data.
   */
  lemma {:induction false} TableRoundTrip(rows: seq<seq<Column>>)
    requires HasColumns(rows)
    ensures ReadTable(Table(rows)) == DeliveredTable(rows)
  {
    if rows != [] {
      var row := Row(rows[0]);
      RowSafe(rows[0]);
      assert Table(rows) == row + ("\n" + Table(rows[1..]));
      ReadSafeLine(row, Table(rows[1..]));
      assert row != "\\.";
      SplitRow(rows[0]);
      ReadRow(rows[0]);
      TableRoundTrip(rows[1..]);
    }
  }

  /** A text arrives unchanged exactly when it holds no U+0000. */
  lemma {:induction false} LosslessIffNoNul(s: string)
    ensures WithoutNul(s) == s <==> '\0' !in s
    ensures |WithoutNul(s)| == |s|
  {
    if s != "" {
      LosslessIffNoNul(s[1..]);
      assert s == [s[0]] + s[1..];
      assert WithoutNul(s)[1..] == WithoutNul(s[1..]);
    }
  }

  /** The bytes of a binary column can be read back from the form that arrives. */
  lemma {:induction false} BytesRoundTrip(bytes: seq<Byte>)
    ensures |ReadBytes(Hex(bytes))| == |bytes| && forall i :: 0 <= i < |bytes| ==> ReadBytes(Hex(bytes))[i] == bytes[i]
  {
    if bytes != [] {
      BytesRoundTrip(bytes[1..]);
      assert Hex(bytes)[2..] == Hex(bytes[1..]);
    }
  }
}
