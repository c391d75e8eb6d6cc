/** The text primitives the level loader relies on: splitting a line at a
    delimiter the way repeated `getline(stream, field, delim)` calls do, and
    C's `atoi` as a decimal-prefix parse over unbounded integers. */
module LineText {

  /** Index of the first `d` in `s`, or `|s|` when there is none. */
  function FieldEnd(s: string, d: char): (i: nat)
    ensures i <= |s|
    ensures d !in s[..i]
    ensures i < |s| ==> s[i] == d
    decreases |s|
  {
    if |s| == 0 then 0
    else if s[0] == d then 0
    else
      var j := FieldEnd(s[1..], d);
      assert s[..j + 1] == [s[0]] + s[1..][..j];
      j + 1
  }

  /** The fields of `s` between occurrences of `d`; always at least one. */
  function Split(s: string, d: char): (r: seq<string>)
    ensures |r| >= 1
    ensures forall k :: 0 <= k < |r| ==> d !in r[k]
    decreases |s|
  {
    var i := FieldEnd(s, d);
    if i == |s| then [s] else [s[..i]] + Split(s[i + 1..], d)
  }

  /** The inverse of Split: the fields glued back together with `d`. */
  function Join(fields: seq<string>, d: char): string
    requires |fields| >= 1
  {
    if |fields| == 1 then fields[0] else fields[0] + [d] + Join(fields[1..], d)
  }

  lemma {:induction false} JoinSplit(s: string, d: char)
    ensures Join(Split(s, d), d) == s
    decreases |s|
  {
    var i := FieldEnd(s, d);
    if i < |s| {
      var rest := Split(s[i + 1..], d);
      var fields := [s[..i]] + rest;
      assert Split(s, d) == fields;
      assert fields[0] == s[..i] && fields[1..] == rest && |fields| > 1;
      JoinSplit(s[i + 1..], d);
      assert Join(fields, d) == s[..i] + [d] + s[i + 1..];
      assert s == s[..i] + [d] + s[i + 1..];
    }
  }

  lemma {:induction false} SplitJoin(fields: seq<string>, d: char)
    requires |fields| >= 1
    requires forall k :: 0 <= k < |fields| ==> d !in fields[k]
    ensures Split(Join(fields, d), d) == fields
    decreases |fields|
  {
    var s := Join(fields, d);
    if |fields| == 1 {
      FieldEndAbsent(s, d);
    } else {
      var rest := Join(fields[1..], d);
      assert s == fields[0] + [d] + rest;
      FieldEndAt(fields[0], d, rest);
      assert s[..|fields[0]|] == fields[0];
      assert s[|fields[0]| + 1..] == rest;
      SplitJoin(fields[1..], d);
    }
  }

  /** No delimiter before `j`: the field reaches at least `j`. */
  lemma {:induction false} FieldEndAtLeast(s: string, d: char, j: nat)
    requires j <= |s|
    requires forall k :: 0 <= k < j ==> s[k] != d
    ensures FieldEnd(s, d) >= j
    decreases |s|
  {
    if j > 0 {
      FieldEndAtLeast(s[1..], d, j - 1);
    }
  }

  /** A delimiter at `j`: the field ends at `j` at the latest. */
  lemma {:induction false} FieldEndAtMost(s: string, d: char, j: nat)
    requires j < |s| && s[j] == d
    ensures FieldEnd(s, d) <= j
    decreases |s|
  {
    if s[0] != d {
      FieldEndAtMost(s[1..], d, j - 1);
    }
  }

  lemma FieldEndAbsent(s: string, d: char)
    requires d !in s
    ensures FieldEnd(s, d) == |s|
  {
    forall k | 0 <= k < |s| ensures s[k] != d {
      assert s[k] in s;
    }
    FieldEndAtLeast(s, d, |s|);
  }

  lemma FieldEndAt(a: string, d: char, b: string)
    requires d !in a
    ensures FieldEnd(a + [d] + b, d) == |a|
  {
    var s := a + [d] + b;
    forall k | 0 <= k < |a| ensures s[k] != d {
      assert s[k] == a[k];
      assert a[k] in a;
    }
    FieldEndAtLeast(s, d, |a|);
    FieldEndAtMost(s, d, |a|);
  }

  /** An `istringstream` over one line: what is left to read, and whether a
      read has already hit the end (after which `good()` is false). */
  datatype FieldStream = FieldStream(rest: string, exhausted: bool)

  function Open(s: string): FieldStream
  {
    FieldStream(s, false)
  }

  /** Result of one `getline(stream, field, d)`: the stream afterwards and
      the value left in `field`. */
  datatype Got = Got(stream: FieldStream, field: string)

  /** One `getline(stream, field, d)`. On an exhausted stream the sentry
      fails and `field` keeps its previous value; otherwise `field` gets the
      text up to the next `d` (which is consumed), or the rest of the text,
      in which case the stream is exhausted. */
  function GetLine(s: FieldStream, d: char, field: string): Got
  {
    if s.exhausted then Got(s, field)
    else
      var i := FieldEnd(s.rest, d);
      if i < |s.rest| then Got(FieldStream(s.rest[i + 1..], false), s.rest[..i])
      else Got(FieldStream("", true), s.rest)
  }

  /** Each read on a live stream takes the next field of what is left, and
      the stream runs out with the last field; a read on an exhausted stream
      changes nothing. */
  lemma GetLineSplit(s: FieldStream, d: char, field: string)
    ensures var g := GetLine(s, d, field);
            (s.exhausted ==> g == Got(s, field)) &&
            (!s.exhausted ==> g.field == Split(s.rest, d)[0]) &&
            (!s.exhausted && |Split(s.rest, d)| > 1 ==>
               !g.stream.exhausted && Split(g.stream.rest, d) == Split(s.rest, d)[1..]) &&
            (!s.exhausted && |Split(s.rest, d)| == 1 ==> g.stream.exhausted)
  {
  }

  /** The value a field variable holds after reads number 0..x of
      `getline(ss, field, d)` on one line: the x-th field, or the last
      field once the line has run out. */
  function FieldRead(line: string, d: char, x: nat): string
  {
    var f := Split(line, d);
    f[if x < |f| then x else |f| - 1]
  }

  /** The stream and field after `n` calls of `getline(ss, field, d)` on a
      fresh stream over `line`, starting from an empty field. */
  function FieldsRead(line: string, d: char, n: nat): Got
  {
    if n == 0 then Got(Open(line), "")
    else var g := FieldsRead(line, d, n - 1); GetLine(g.stream, d, g.field)
  }

  /** The stream after `n` reads is past the first `n` fields, and the field
      holds the last one read. */
  lemma {:induction false} FieldsReadSplit(line: string, d: char, n: nat)
    requires n >= 1
    ensures var f := Split(line, d); var g := FieldsRead(line, d, n);
            g.field == f[if n - 1 < |f| then n - 1 else |f| - 1] &&
            (n < |f| ==> !g.stream.exhausted && Split(g.stream.rest, d) == f[n..]) &&
            (n >= |f| ==> g.stream.exhausted)
  {
    var f := Split(line, d);
    if n == 1 {
      GetLineSplit(Open(line), d, "");
    } else {
      FieldsReadSplit(line, d, n - 1);
      var g := FieldsRead(line, d, n - 1);
      GetLineSplit(g.stream, d, g.field);
      if n - 1 < |f| {
        assert f[n - 1..][1..] == f[n..];
      }
    }
  }

  /** Read number `n` (counting from 0) leaves field `n` of the line, or
      the last field once the line has run out. */
  lemma FieldsReadField(line: string, d: char, n: nat)
    ensures FieldsRead(line, d, n + 1).field == FieldRead(line, d, n)
  {
    FieldsReadSplit(line, d, n + 1);
  }

  /** What `getline(ss, key, '=')` leaves in `key`: the text before the
      first `=`, all of the line when there is none. */
  function KeyOf(line: string): string
  {
    line[..FieldEnd(line, '=')]
  }

  /** What the following `getline(ss, value)` leaves in `value`: the text
      after the first `=` up to a newline, or nothing when the line has no
      `=` (the stream is then exhausted and `value` keeps its empty initial
      value). */
  function ValueOf(line: string): string
  {
    var i := FieldEnd(line, '=');
    if i == |line| then "" else var rest := line[i + 1..]; rest[..FieldEnd(rest, '\n')]
  }

  /** KeyOf and ValueOf are the two `getline` calls on a fresh stream over
      the line. */
  lemma KeyValueGetLine(line: string)
    ensures KeyOf(line) == GetLine(Open(line), '=', "").field
    ensures ValueOf(line) == GetLine(GetLine(Open(line), '=', "").stream, '\n', "").field
  {
  }

  /** A `key=value` line splits back into its key and value. */
  lemma KeyValueOf(key: string, value: string)
    requires '=' !in key && '\n' !in value
    ensures KeyOf(key + "=" + value) == key
    ensures ValueOf(key + "=" + value) == value
  {
    var line := key + "=" + value;
    FieldEndAt(key, '=', value);
    assert line[..|key|] == key;
    assert line[|key| + 1..] == value;
    FieldEndAbsent(value, '\n');
  }

  /** A line without `=` is all key and no value. */
  lemma KeyOfPlain(line: string)
    requires '=' !in line
    ensures KeyOf(line) == line && ValueOf(line) == ""
  {
    FieldEndAbsent(line, '=');
  }

  // ---------------------------------------------------------------------
  // atoi

  /** The characters C's `isspace` accepts in the "C" locale. */
  predicate IsSpace(c: char)
  {
    c == ' ' || c == '\t' || c == '\n' || c == '\U{B}' || c == '\U{C}' || c == '\r'
  }

  predicate IsDigit(c: char)
  {
    '0' <= c <= '9'
  }

  function DigitValue(c: char): nat
  {
    if IsDigit(c) then c as int - '0' as int else 0
  }

  function DigitChar(n: nat): (c: char)
    requires n < 10
    ensures IsDigit(c) && DigitValue(c) == n
  {
    ('0' as int + n) as char
  }

  /** `s` with its leading white space skipped. */
  function SkipSpace(s: string): string
  {
    if |s| > 0 && IsSpace(s[0]) then SkipSpace(s[1..]) else s
  }

  /** The run of decimal digits at the front of `s`. */
  function Digits(s: string): string
  {
    if |s| > 0 && IsDigit(s[0]) then [s[0]] + Digits(s[1..]) else ""
  }

  /** Value of a string of decimal digits, most significant first. */
  function DecimalValue(ds: string): nat
  {
    if |ds| == 0 then 0 else DecimalValue(ds[..|ds| - 1]) * 10 + DigitValue(ds[|ds| - 1])
  }

  /** Value of the decimal digits at the front of `s` (0 when none). */
  function UnsignedPrefix(s: string): nat
  {
    DecimalValue(Digits(s))
  }

  /** C's `atoi`: skip white space, an optional sign, then the longest run
      of decimal digits; anything after it is ignored. */
  function Atoi(s: string): int
  {
    var t := SkipSpace(s);
    if |t| > 0 && t[0] == '-' then -(UnsignedPrefix(t[1..]) as int)
    else if |t| > 0 && t[0] == '+' then UnsignedPrefix(t[1..])
    else UnsignedPrefix(t)
  }

  /** The skipped prefix is all white space and what is left does not start
      with any. */
  lemma {:induction false} SkipSpaceSuffix(s: string)
    ensures |SkipSpace(s)| <= |s| && SkipSpace(s) == s[|s| - |SkipSpace(s)|..]
    ensures forall k :: 0 <= k < |s| - |SkipSpace(s)| ==> IsSpace(s[k])
    ensures |SkipSpace(s)| > 0 ==> !IsSpace(SkipSpace(s)[0])
  {
    if |s| > 0 && IsSpace(s[0]) {
      SkipSpaceSuffix(s[1..]);
    }
  }

  /** The digit run is a prefix of `s`, all digits, and not followed by one. */
  lemma {:induction false} DigitsPrefix(s: string)
    ensures |Digits(s)| <= |s| && Digits(s) == s[..|Digits(s)|]
    ensures forall k :: 0 <= k < |Digits(s)| ==> IsDigit(s[k])
    ensures |Digits(s)| < |s| ==> !IsDigit(s[|Digits(s)|])
  {
    if |s| > 0 && IsDigit(s[0]) {
      DigitsPrefix(s[1..]);
    }
  }

  /** The decimal spelling of `n`, without leading zeros: what a map editor
      writes into the text file. */
  function Decimal(n: nat): (ds: string)
    ensures |ds| >= 1
    ensures forall k :: 0 <= k < |ds| ==> IsDigit(ds[k])
  {
    if n < 10 then [DigitChar(n)] else Decimal(n / 10) + [DigitChar(n % 10)]
  }

  lemma {:induction false} DecimalValueOfDecimal(n: nat)
    ensures DecimalValue(Decimal(n)) == n
  {
    if n >= 10 {
      var ds := Decimal(n);
      assert ds[..|ds| - 1] == Decimal(n / 10);
      DecimalValueOfDecimal(n / 10);
    }
  }

  lemma {:induction false} DigitsAll(ds: string)
    requires forall k :: 0 <= k < |ds| ==> IsDigit(ds[k])
    ensures Digits(ds) == ds
  {
    if |ds| > 0 {
      DigitsAll(ds[1..]);
      assert ds == [ds[0]] + ds[1..];
    }
  }

  /** `atoi` reads back what `Decimal` writes. */
  lemma AtoiDecimal(n: nat)
    ensures Atoi(Decimal(n)) == n
  {
    var ds := Decimal(n);
    assert !IsSpace(ds[0]);
    DigitsAll(ds);
    DecimalValueOfDecimal(n);
  }

  /** `atoi` of a negative number written with a leading minus sign. */
  lemma AtoiNegative(n: nat)
    ensures Atoi("-" + Decimal(n)) == -(n as int)
  {
    var s := "-" + Decimal(n);
    assert s[1..] == Decimal(n);
    DigitsAll(Decimal(n));
    DecimalValueOfDecimal(n);
  }

  /** Text that starts with neither white space, a sign nor a digit reads as 0. */
  lemma AtoiNoNumber(s: string)
    requires |s| == 0 || !(IsSpace(s[0]) || IsDigit(s[0]) || s[0] == '-' || s[0] == '+')
    ensures Atoi(s) == 0
  {
  }
}
