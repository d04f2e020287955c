/** The text that `exportToCSV` builds before handing it to the browser: a header
    line made of the first record's keys, then one line per record, fields quoted
    in the manner of section 2 of RFC 4180 with two deviations (records end in LF,
    not CRLF, and only LF, not CR, forces quoting). A reader for that format is
    defined alongside as the serialiser's partner, and the round trips are proved. */
module CsvExport {
  import opened Wrappers
  import opened Seqs
  import Ascii

  /** A value of a record: `null`/`undefined`, a string, or a number. */
  datatype Cell = Missing | Text(s: string) | Number(n: int)

  /** One key/value pair of a record, in the record's key order. */
  datatype Entry = Entry(key: string, value: Cell)

  type Record = seq<Entry>

  /** `String(value ?? '')`. */
  function CellString(c: Cell): string
  {
    match c
    case Missing => ""
    case Text(s) => s
    case Number(n) => Ascii.Decimal(n)
  }

  /** `Object.keys(record)`. */
  function Keys(r: Record): (ks: seq<string>)
    ensures |ks| == |r|
  {
    seq(|r|, i requires 0 <= i < |r| => r[i].key)
  }

  /** `Object.values(record)`, each turned into its string form. */
  function Values(r: Record): (vs: seq<string>)
    ensures |vs| == |r|
  {
    seq(|r|, i requires 0 <= i < |r| => CellString(r[i].value))
  }

  /** A field is quoted when it holds a comma, a double quote or a line feed. */
  predicate NeedsQuoting(s: string)
  {
    ',' in s || '"' in s || '\n' in s
  }

  /** `s.replace(/"/g, '""')`. */
  function DoubleQuotes(s: string): string
    decreases |s|
  {
    if |s| == 0 then ""
    else (if s[0] == '"' then "\"\"" else [s[0]]) + DoubleQuotes(s[1..])
  }

  /** A field is wrapped in quotes, with its quotes doubled, exactly when it needs
      quoting, and is written as is otherwise. */
  function EscapeField(s: string): (e: string)
    ensures NeedsQuoting(s) ==> |e| >= 2 && e[0] == '"' && e[|e| - 1] == '"'
    ensures !NeedsQuoting(s) ==> e == s
  {
    if NeedsQuoting(s) then "\"" + DoubleQuotes(s) + "\"" else s
  }

  function EscapeAll(vs: seq<string>): (es: seq<string>)
    ensures |es| == |vs|
  {
    seq(|vs|, i requires 0 <= i < |vs| => EscapeField(vs[i]))
  }

  /** One data line: the escaped values joined by commas. A line of at least one
      value reads back as those values. */
  function RenderLine(vs: seq<string>): (line: string)
    ensures |vs| >= 1 ==> ReadRecord(line) == RecordRead(vs, false, "")
  {
    var line := Join(EscapeAll(vs), ",");
    if |vs| >= 1 then
      ReadJoinedLine(vs, "");
      assert line + "" == line;
      line
    else
      line
  }

  function RenderAll(lines: seq<seq<string>>): (ls: seq<string>)
    ensures |ls| == |lines|
  {
    seq(|lines|, i requires 0 <= i < |lines| => RenderLine(lines[i]))
  }

  function ValueLines(data: seq<Record>): (ls: seq<seq<string>>)
    ensures |ls| == |data|
  {
    seq(|data|, i requires 0 <= i < |data| => Values(data[i]))
  }

  /** The document `exportToCSV` downloads; `None` when there is nothing to export
      (the function returns before creating any file). The header keys are joined
      as they are, without quoting. */
  function ExportCsv(data: seq<Record>): (r: Option<string>)
    ensures r.None? <==> |data| == 0
  {
    if |data| == 0 then None
    else Some(Join([Join(Keys(data[0]), ",")] + RenderAll(ValueLines(data)), "\n"))
  }

  // ---------------------------------------------------------------------------
  // Unquoting a single field

  /** Collapses every `""` to `"`. */
  function CollapseQuotes(s: string): string
    decreases |s|
  {
    if |s| >= 2 && s[0] == '"' && s[1] == '"' then "\"" + CollapseQuotes(s[2..])
    else if |s| == 0 then ""
    else [s[0]] + CollapseQuotes(s[1..])
  }

  /** Strips a pair of surrounding quotes and collapses the doubled ones inside. */
  function UnescapeField(e: string): string
  {
    if |e| >= 2 && e[0] == '"' && e[|e| - 1] == '"' then CollapseQuotes(e[1..|e| - 1]) else e
  }

  lemma {:induction false} CollapseDoubled(s: string)
    ensures CollapseQuotes(DoubleQuotes(s)) == s
    decreases |s|
  {
    if |s| > 0 {
      CollapseDoubled(s[1..]);
      var d := DoubleQuotes(s[1..]);
      if s[0] == '"' {
        assert DoubleQuotes(s) == "\"\"" + d;
        assert ("\"\"" + d)[2..] == d;
      } else {
        assert DoubleQuotes(s) == [s[0]] + d;
        assert ([s[0]] + d)[1..] == d;
      }
    }
  }

  /** Distinct strings are never escaped to the same field. */
  lemma EscapeInjective(a: string, b: string)
    requires EscapeField(a) == EscapeField(b)
    ensures a == b
  {
    EscapeRoundTrip(a);
    EscapeRoundTrip(b);
  }

  /** Unquoting an escaped field gives back the original string. */
  lemma EscapeRoundTrip(s: string)
    ensures UnescapeField(EscapeField(s)) == s
  {
    if NeedsQuoting(s) {
      var e := EscapeField(s);
      assert e[1..|e| - 1] == DoubleQuotes(s);
      CollapseDoubled(s);
    } else if |s| >= 2 {
      assert s[0] in s;
    }
  }

  // ---------------------------------------------------------------------------
  // Commas outside quotes

  /** Whether the scanner is inside quotes after reading `s`, starting in state `quoted`. */
  function QuotedAfter(s: string, quoted: bool): bool
    decreases |s|
  {
    if |s| == 0 then quoted
    else QuotedAfter(s[1..], if s[0] == '"' then !quoted else quoted)
  }

  /** Number of commas of `s` that stand outside quotes. */
  function BareCommas(s: string, quoted: bool): nat
    decreases |s|
  {
    if |s| == 0 then 0
    else if s[0] == '"' then BareCommas(s[1..], !quoted)
    else (if s[0] == ',' && !quoted then 1 else 0) + BareCommas(s[1..], quoted)
  }

  lemma {:induction false} BareCommasAppend(a: string, b: string, quoted: bool)
    ensures BareCommas(a + b, quoted) == BareCommas(a, quoted) + BareCommas(b, QuotedAfter(a, quoted))
    ensures QuotedAfter(a + b, quoted) == QuotedAfter(b, QuotedAfter(a, quoted))
    decreases |a|
  {
    if |a| == 0 {
      assert a + b == b;
    } else {
      assert (a + b)[1..] == a[1..] + b;
      BareCommasAppend(a[1..], b, if a[0] == '"' then !quoted else quoted);
    }
  }

  /** Inside quotes a doubled quote closes and reopens the quoted run at once, so no
      character of the doubled text stands outside quotes. */
  lemma {:induction false} DoubledQuotesStayQuoted(s: string)
    ensures BareCommas(DoubleQuotes(s), true) == 0
    ensures QuotedAfter(DoubleQuotes(s), true) == true
    decreases |s|
  {
    if |s| > 0 {
      DoubledQuotesStayQuoted(s[1..]);
      var d := DoubleQuotes(s[1..]);
      if s[0] == '"' {
        assert DoubleQuotes(s) == "\"\"" + d;
        assert ("\"\"" + d)[1..] == "\"" + d;
        assert ("\"" + d)[1..] == d;
      } else {
        assert DoubleQuotes(s) == [s[0]] + d;
        assert ([s[0]] + d)[1..] == d;
      }
    }
  }

  lemma {:induction false} PlainHasNoBareComma(s: string, quoted: bool)
    requires ',' !in s && '"' !in s
    ensures BareCommas(s, quoted) == 0
    ensures QuotedAfter(s, quoted) == quoted
    decreases |s|
  {
    if |s| > 0 {
      assert s[0] in s;
      assert forall c :: c in s[1..] ==> c in s;
      PlainHasNoBareComma(s[1..], quoted);
    }
  }

  /** An escaped field holds no comma outside quotes and leaves the quotes balanced. */
  lemma EscapedFieldHasNoBareComma(s: string)
    ensures BareCommas(EscapeField(s), false) == 0
    ensures QuotedAfter(EscapeField(s), false) == false
  {
    if NeedsQuoting(s) {
      var d := DoubleQuotes(s);
      assert EscapeField(s) == "\"" + (d + "\"");
      BareCommasAppend("\"", d + "\"", false);
      BareCommasAppend(d, "\"", true);
      DoubledQuotesStayQuoted(s);
    } else {
      PlainHasNoBareComma(s, false);
    }
  }

  /** The commas outside quotes in a data line are exactly the separators between its fields. */
  lemma LineBareCommas(vs: seq<string>)
    requires |vs| >= 1
    ensures BareCommas(RenderLine(vs), false) == |vs| - 1
    ensures QuotedAfter(RenderLine(vs), false) == false
  {
    JoinedBareCommas(vs);
  }

  /** A line of several values is the first escaped value, a comma and the rest. */
  lemma JoinEscapedCons(vs: seq<string>)
    requires |vs| > 1
    ensures Join(EscapeAll(vs), ",") == EscapeField(vs[0]) + ("," + Join(EscapeAll(vs[1..]), ","))
  {
    assert EscapeAll(vs)[1..] == EscapeAll(vs[1..]);
  }

  /** The escaped values joined by commas have one comma outside quotes per separator. */
  lemma {:induction false} JoinedBareCommas(vs: seq<string>)
    requires |vs| >= 1
    ensures BareCommas(Join(EscapeAll(vs), ","), false) == |vs| - 1
    ensures QuotedAfter(Join(EscapeAll(vs), ","), false) == false
    decreases |vs|
  {
    EscapedFieldHasNoBareComma(vs[0]);
    if |vs| > 1 {
      JoinedBareCommas(vs[1..]);
      var e := EscapeField(vs[0]);
      var tail := Join(EscapeAll(vs[1..]), ",");
      JoinEscapedCons(vs);
      BareCommasAppend(e, "," + tail, false);
      assert ("," + tail)[1..] == tail;
    }
  }

  // ---------------------------------------------------------------------------
  // Reading the format back

  /** What ended a field: a comma, a line feed or the end of the text. */
  datatype Stop = AtComma | AtNewline | AtEnd

  /** A field read from the front of a text, how it ended, and the text after the separator. */
  datatype FieldRead = FieldRead(field: string, stop: Stop, rest: string)

  /** The fields of one record, whether a line feed followed it, and the text after that. */
  datatype RecordRead = RecordRead(fields: seq<string>, more: bool, rest: string)

  /** Reads an unquoted run up to the next comma or line feed. */
  function ReadPlain(s: string, acc: string): (r: FieldRead)
    ensures r.stop == AtEnd ==> r.rest == ""
    ensures r.stop != AtEnd ==> |r.rest| < |s|
    decreases |s|
  {
    if |s| == 0 then FieldRead(acc, AtEnd, "")
    else if s[0] == ',' then FieldRead(acc, AtComma, s[1..])
    else if s[0] == '\n' then FieldRead(acc, AtNewline, s[1..])
    else ReadPlain(s[1..], acc + [s[0]])
  }

  /** Reads inside quotes: `""` stands for one quote, a lone quote closes the run,
      and anything after it up to the next separator is kept as it is. */
  function ReadQuoted(s: string, acc: string): (r: FieldRead)
    ensures r.stop == AtEnd ==> r.rest == ""
    ensures r.stop != AtEnd ==> |r.rest| < |s|
    decreases |s|
  {
    if |s| == 0 then FieldRead(acc, AtEnd, "")
    else if s[0] == '"' then
      if |s| >= 2 && s[1] == '"' then ReadQuoted(s[2..], acc + "\"")
      else ReadPlain(s[1..], acc)
    else ReadQuoted(s[1..], acc + [s[0]])
  }

  function ReadField(s: string): (r: FieldRead)
    ensures r.stop == AtEnd ==> r.rest == ""
    ensures r.stop != AtEnd ==> |r.rest| < |s|
  {
    if |s| > 0 && s[0] == '"' then ReadQuoted(s[1..], "") else ReadPlain(s, "")
  }

  function ReadRecord(s: string): (r: RecordRead)
    ensures |r.fields| >= 1
    ensures r.more ==> |r.rest| < |s|
    decreases |s|
  {
    var f := ReadField(s);
    match f.stop
    case AtComma =>
      var tail := ReadRecord(f.rest);
      RecordRead([f.field] + tail.fields, tail.more, tail.rest)
    case AtNewline => RecordRead([f.field], true, f.rest)
    case AtEnd => RecordRead([f.field], false, "")
  }

  /** Splits a document into records and records into fields. */
  function ParseDocument(s: string): (rs: seq<seq<string>>)
    ensures |rs| >= 1
    decreases |s|
  {
    var r := ReadRecord(s);
    if r.more then [r.fields] + ParseDocument(r.rest) else [r.fields]
  }

  /** `t` is empty or starts with a separator, as after every field of a document. */
  predicate Terminated(t: string)
  {
    |t| == 0 || t[0] == ',' || t[0] == '\n'
  }

  function StopOf(t: string): Stop
  {
    if |t| == 0 then AtEnd else if t[0] == ',' then AtComma else if t[0] == '\n' then AtNewline else AtEnd
  }

  function AfterStop(t: string): string
  {
    if |t| == 0 then "" else t[1..]
  }

  lemma {:induction false} ReadPlainRun(f: string, t: string, acc: string)
    requires ',' !in f && '\n' !in f
    ensures ReadPlain(f + t, acc) == ReadPlain(t, acc + f)
    decreases |f|
  {
    if |f| == 0 {
      assert f + t == t;
      assert acc + f == acc;
    } else {
      assert f[0] in f;
      assert forall c :: c in f[1..] ==> c in f;
      assert (f + t)[1..] == f[1..] + t;
      ReadPlainRun(f[1..], t, acc + [f[0]]);
      assert acc + [f[0]] + f[1..] == acc + f;
    }
  }

  lemma {:induction false} ReadQuotedRun(f: string, u: string, acc: string)
    ensures ReadQuoted(DoubleQuotes(f) + u, acc) == ReadQuoted(u, acc + f)
    decreases |f|
  {
    if |f| == 0 {
      assert DoubleQuotes(f) + u == u;
      assert acc + f == acc;
    } else {
      var d := DoubleQuotes(f[1..]);
      if f[0] == '"' {
        assert DoubleQuotes(f) + u == "\"\"" + (d + u);
        assert ("\"\"" + (d + u))[2..] == d + u;
      } else {
        assert DoubleQuotes(f) + u == [f[0]] + (d + u);
        assert ([f[0]] + (d + u))[1..] == d + u;
      }
      ReadQuotedRun(f[1..], u, acc + [f[0]]);
      assert acc + [f[0]] + f[1..] == acc + f;
    }
  }

  /** The closing quote followed by a separator (or nothing) ends the field there. */
  lemma ReadClosingQuote(t: string, acc: string)
    requires Terminated(t)
    ensures ReadQuoted("\"" + t, acc) == FieldRead(acc, StopOf(t), AfterStop(t))
  {
    var u := "\"" + t;
    assert u[0] == '"' && u[1..] == t;
    assert |u| >= 2 ==> u[1] != '"';
  }

  /** A quoted field followed by a separator (or nothing) reads back as the original string. */
  lemma ReadQuotedField(f: string, t: string)
    requires Terminated(t) && NeedsQuoting(f)
    ensures ReadField(EscapeField(f) + t) == FieldRead(f, StopOf(t), AfterStop(t))
  {
    var d := DoubleQuotes(f);
    var u := "\"" + t;
    assert EscapeField(f) == "\"" + d + "\"";
    QuotedText(d, t);
    ReadQuotedRun(f, u, "");
    assert "" + f == f;
    ReadClosingQuote(t, f);
  }

  /** A quoted text followed by `t` is an opening quote, the text, and `"` + `t`. */
  lemma QuotedText(d: string, t: string)
    ensures var s := "\"" + d + "\"" + t;
      |s| > 0 && s[0] == '"' && s[1..] == d + ("\"" + t)
  {
  }

  /** A field left unquoted, followed by a separator (or nothing), reads back as itself. */
  lemma ReadPlainField(f: string, t: string)
    requires Terminated(t) && !NeedsQuoting(f)
    ensures ReadField(EscapeField(f) + t) == FieldRead(f, StopOf(t), AfterStop(t))
  {
    ReadPlainRun(f, t, "");
    assert "" + f == f;
    if |f| > 0 {
      assert f[0] in f;
    } else {
      assert f + t == t;
    }
  }

  /** An escaped field followed by a separator (or nothing) reads back as the original string. */
  lemma ReadEscapedField(f: string, t: string)
    requires Terminated(t)
    ensures ReadField(EscapeField(f) + t) == FieldRead(f, StopOf(t), AfterStop(t))
  {
    if NeedsQuoting(f) {
      ReadQuotedField(f, t);
    } else {
      ReadPlainField(f, t);
    }
  }

  /** The escaped values joined by commas, followed by a line feed (or nothing), read
      back as the values. */
  lemma {:induction false} ReadJoinedLine(vs: seq<string>, t: string)
    requires |vs| >= 1
    requires |t| == 0 || t[0] == '\n'
    ensures ReadRecord(Join(EscapeAll(vs), ",") + t) == RecordRead(vs, |t| > 0, AfterStop(t))
    decreases |vs|
  {
    var e := EscapeField(vs[0]);
    if |vs| == 1 {
      assert Join(EscapeAll(vs), ",") == e;
      ReadEscapedField(vs[0], t);
    } else {
      var tail := Join(EscapeAll(vs[1..]), ",");
      JoinEscapedCons(vs);
      assert Join(EscapeAll(vs), ",") + t == e + ("," + (tail + t));
      ReadEscapedField(vs[0], "," + (tail + t));
      assert ("," + (tail + t))[1..] == tail + t;
      ReadJoinedLine(vs[1..], t);
      assert [vs[0]] + vs[1..] == vs;
    }
  }

  /** A rendered data line followed by a line feed (or nothing) reads back as its fields. */
  lemma ReadRenderedLine(vs: seq<string>, t: string)
    requires |vs| >= 1
    requires |t| == 0 || t[0] == '\n'
    ensures ReadRecord(RenderLine(vs) + t) == RecordRead(vs, |t| > 0, AfterStop(t))
  {
    ReadJoinedLine(vs, t);
  }

  /** Every document made of non-empty rendered lines parses back to those lines. */
  lemma {:induction false} ParseRenderedDocument(lines: seq<seq<string>>)
    requires |lines| >= 1
    requires forall i :: 0 <= i < |lines| ==> |lines[i]| >= 1
    ensures ParseDocument(Join(RenderAll(lines), "\n")) == lines
    decreases |lines|
  {
    if |lines| == 1 {
      assert Join(RenderAll(lines), "\n") == RenderLine(lines[0]) + "";
      ReadRenderedLine(lines[0], "");
    } else {
      ParseRenderedDocument(lines[1..]);
      DocumentStep(lines);
    }
  }

  /** A non-empty line in front of a document that parses back also parses back. */
  lemma DocumentStep(lines: seq<seq<string>>)
    requires |lines| >= 2 && |lines[0]| >= 1
    requires ParseDocument(Join(RenderAll(lines[1..]), "\n")) == lines[1..]
    ensures ParseDocument(Join(RenderAll(lines), "\n")) == lines
  {
    var rest := Join(RenderAll(lines[1..]), "\n");
    JoinAllCons(lines);
    ReadRenderedLine(lines[0], "\n" + rest);
    assert ("\n" + rest)[1..] == rest;
    assert [lines[0]] + lines[1..] == lines;
  }

  /** A document of several lines is the first rendered line, a line feed and the rest. */
  lemma JoinAllCons(lines: seq<seq<string>>)
    requires |lines| >= 2
    ensures Join(RenderAll(lines), "\n") == RenderLine(lines[0]) + ("\n" + Join(RenderAll(lines[1..]), "\n"))
  {
    assert RenderAll(lines)[1..] == RenderAll(lines[1..]);
  }

  /** When no key needs quoting, the unquoted header is a rendered line of the keys. */
  lemma HeaderIsRenderedLine(keys: seq<string>)
    requires forall i :: 0 <= i < |keys| ==> !NeedsQuoting(keys[i])
    ensures Join(keys, ",") == RenderLine(keys)
  {
    assert EscapeAll(keys) == keys;
  }

  /** The exported document reads back as the first record's keys followed by every
      record's values, in order, provided no record is empty and no key needs quoting. */
  lemma ExportRoundTrip(data: seq<Record>)
    requires |data| >= 1
    requires forall i :: 0 <= i < |data| ==> |data[i]| >= 1
    requires forall e :: e in data[0] ==> !NeedsQuoting(e.key)
    ensures ExportCsv(data).Some?
    ensures ParseDocument(ExportCsv(data).value) == [Keys(data[0])] + ValueLines(data)
  {
    var keys := Keys(data[0]);
    KeysPlain(data[0]);
    HeaderIsRenderedLine(keys);
    var lines := [keys] + ValueLines(data);
    assert RenderAll(lines) == [Join(keys, ",")] + RenderAll(ValueLines(data));
    ParseRenderedDocument(lines);
  }

  /** Keys of which none needs quoting, listed in order. */
  lemma KeysPlain(r: Record)
    requires forall e :: e in r ==> !NeedsQuoting(e.key)
    ensures forall i :: 0 <= i < |Keys(r)| ==> !NeedsQuoting(Keys(r)[i])
  {
    forall i | 0 <= i < |Keys(r)|
      ensures !NeedsQuoting(Keys(r)[i])
    {
      assert r[i] in r;
    }
  }

  /** A record without keys and a record holding one empty value give the same line,
      which is why the round trip needs non-empty records. */
  lemma EmptyRecordIsAmbiguous()
    ensures RenderLine([]) == RenderLine([""])
  {
  }

  /** Header keys are not quoted: a key holding a comma reads back as two header fields. */
  lemma HeaderKeyWithCommaSplits()
    ensures ExportCsv([[Entry("a,b", Text("x"))]]) == Some("a,b\nx")
    ensures ParseDocument("a,b\nx") == [["a", "b"], ["x"]]
  {
    HeaderKeyExported();
    HeaderKeyRead();
  }

  lemma HeaderKeyExported()
    ensures ExportCsv([[Entry("a,b", Text("x"))]]) == Some("a,b\nx")
  {
    var data := [[Entry("a,b", Text("x"))]];
    assert Keys(data[0]) == ["a,b"];
    assert !NeedsQuoting("x");
    assert Values(data[0])[0] == "x";
    assert Values(data[0]) == ["x"];
    assert ValueLines(data)[0] == ["x"];
    assert ValueLines(data) == [["x"]];
    assert RenderLine(["x"]) == "x";
    assert RenderAll(ValueLines(data)) == ["x"];
    assert Join(["a,b", "x"], "\n") == "a,b\nx";
  }

  lemma HeaderKeyRead()
    ensures ParseDocument("a,b\nx") == [["a", "b"], ["x"]]
  {
    ReadPlainRun("a", ",b\nx", "");
    assert "a" + ",b\nx" == "a,b\nx";
    assert ReadField("a,b\nx") == FieldRead("a", AtComma, "b\nx");
    ReadPlainRun("b", "\nx", "");
    assert "b" + "\nx" == "b\nx";
    assert ReadField("b\nx") == FieldRead("b", AtNewline, "x");
    ReadPlainRun("x", "", "");
    assert "x" + "" == "x";
    assert ReadField("x") == FieldRead("x", AtEnd, "");
    assert ReadRecord("b\nx") == RecordRead(["b"], true, "x");
    assert ReadRecord("a,b\nx") == RecordRead(["a", "b"], true, "x");
    assert ReadRecord("x") == RecordRead(["x"], false, "");
  }
}
