/**
 * The two text encodings of the admin page: `esc`, which makes a value safe
 * to place in HTML, and the CSV export, which quotes every field as section
 * 2, items 5 to 7 of RFC 4180 describe.
 */
module Escaping {
  import opened Wrappers
  import opened Strings
  import opened Records

  // ----- HTML escaping -----

  /** `esc`: `&`, then `<`, then `>` replaced by their entities, one global `replace` after another. */
  function Esc(s: string): string {
    ReplaceChar(ReplaceChar(ReplaceChar(s, '&', "&amp;"), '<', "&lt;"), '>', "&gt;")
  }

  /** The entity one character becomes. */
  function EscChar(c: char): string {
    if c == '&' then "&amp;"
    else if c == '<' then "&lt;"
    else if c == '>' then "&gt;"
    else [c]
  }

  /**
   * The three passes act character by character: since `&` is replaced
   * first, the `&` of a later `&lt;` or `&gt;` is not escaped again.
   */
  lemma {:induction false} EscCons(c: char, t: string)
    ensures Esc([c] + t) == EscChar(c) + Esc(t)
  {
    EscAppend([c], t);
    EscSingle(c);
  }

  lemma EscAppend(a: string, b: string)
    ensures Esc(a + b) == Esc(a) + Esc(b)
  {
    var a1, b1 := ReplaceChar(a, '&', "&amp;"), ReplaceChar(b, '&', "&amp;");
    var a2, b2 := ReplaceChar(a1, '<', "&lt;"), ReplaceChar(b1, '<', "&lt;");
    ReplaceCharAppend(a, b, '&', "&amp;");
    ReplaceCharAppend(a1, b1, '<', "&lt;");
    ReplaceCharAppend(a2, b2, '>', "&gt;");
  }

  lemma EscSingle(c: char)
    ensures Esc([c]) == EscChar(c)
  {
    ReplaceCharSingle(c, '&', "&amp;");
    if c == '&' {
      ReplaceCharAbsent("&amp;", '<', "&lt;");
      ReplaceCharAbsent("&amp;", '>', "&gt;");
    } else {
      ReplaceCharSingle(c, '<', "&lt;");
      if c == '<' {
        ReplaceCharAbsent("&lt;", '>', "&gt;");
      } else {
        ReplaceCharSingle(c, '>', "&gt;");
      }
    }
  }

  /** `esc` output contains no `<` and no `>`. */
  lemma {:induction false} EscHasNoAngleBrackets(s: string)
    ensures forall i :: 0 <= i < |Esc(s)| ==> Esc(s)[i] != '<' && Esc(s)[i] != '>'
    decreases |s|
  {
    if s == [] {
      assert Esc(s) == [];
    } else {
      assert s == [s[0]] + s[1..];
      EscCons(s[0], s[1..]);
      EscHasNoAngleBrackets(s[1..]);
    }
  }

  /** Decoding the three entities `esc` produces, left to right. */
  function Unescape(s: string): string
    decreases |s|
  {
    if s == [] then []
    else if "&amp;" <= s then "&" + Unescape(s[5..])
    else if "&lt;" <= s then "<" + Unescape(s[4..])
    else if "&gt;" <= s then ">" + Unescape(s[4..])
    else [s[0]] + Unescape(s[1..])
  }

  /** Escaping loses nothing: decoding `esc(s)` gives `s` back. */
  lemma {:induction false} UnescapeEsc(s: string)
    ensures Unescape(Esc(s)) == s
    decreases |s|
  {
    if s == [] {
      assert Esc(s) == [];
    } else {
      var c, t := s[0], s[1..];
      assert s == [c] + t;
      EscCons(c, t);
      UnescapeEsc(t);
      var e := EscChar(c) + Esc(t);
      if c == '&' {
        assert "&amp;" <= e && e[5..] == Esc(t);
      } else if c == '<' {
        assert e[..4] == "&lt;" && e[1] == 'l';
        assert !("&amp;" <= e) && "&lt;" <= e && e[4..] == Esc(t);
      } else if c == '>' {
        assert e[..4] == "&gt;" && e[1] == 'g';
        assert !("&amp;" <= e) && !("&lt;" <= e) && "&gt;" <= e && e[4..] == Esc(t);
      } else {
        assert e[0] == c && e[1..] == Esc(t);
      }
    }
  }

  // ----- CSV export -----

  /** `"${v.replace(/"/g, '""')}"`: the field in double quotes, each inner quote doubled. */
  function QuoteField(v: string): (q: string)
    ensures |q| >= 2 && q[0] == '"' && q[|q| - 1] == '"'
  {
    "\"" + ReplaceChar(v, '"', "\"\"") + "\""
  }

  /** One CSV line: the quoted fields joined by commas. */
  function CsvLine(fields: seq<string>): string {
    Join(seq(|fields|, i requires 0 <= i < |fields| => QuoteField(fields[i])), ",")
  }

  /** The sixteen exported values of a record, in column order, each `(v || '')`. */
  function CsvFields(r: Record): (f: seq<string>)
    ensures |f| == |CsvHeaders|
  {
    [TextOf(r.ref), r.timestamp, r.lastName, r.firstName, r.middleName, r.gender,
     r.residentialAddress, r.applicationType, r.healthCertificateType, r.lostCertificate,
     r.position, TextOf(r.adminPosition), r.establishmentName, r.establishmentAddress,
     TextOf(r.healthCertNumber), TextOf(r.status)]
  }

  const CsvHeaders: seq<string> := [
    "Ref", "Timestamp", "Last Name", "First Name", "Middle Name", "Gender",
    "Residential Address", "Application Type", "Health Cert Type", "Lost Certificate",
    "Client Position", "Admin Position", "Establishment Name", "Establishment Address",
    "Health Cert Number", "Status"]

  /** `exportCSV`'s text: the unquoted header line, then one quoted line per record, joined by newlines. */
  function CsvDocument(records: seq<Record>): string {
    Join([Join(CsvHeaders, ",")] + seq(|records|, i requires 0 <= i < |records| => CsvLine(CsvFields(records[i]))), "\n")
  }

  /** With no records the export is the header line alone; each further record adds a newline and its own line. */
  lemma CsvDocumentLines(records: seq<Record>, r: Record)
    ensures CsvDocument([]) == Join(CsvHeaders, ",")
    ensures CsvDocument(records + [r]) == CsvDocument(records) + "\n" + CsvLine(CsvFields(r))
  {
    var lines := seq(|records|, i requires 0 <= i < |records| => CsvLine(CsvFields(records[i])));
    var rs := records + [r];
    var lines' := seq(|rs|, i requires 0 <= i < |rs| => CsvLine(CsvFields(rs[i])));
    assert lines' == lines + [CsvLine(CsvFields(r))];
    assert [Join(CsvHeaders, ",")] + lines' == ([Join(CsvHeaders, ",")] + lines) + [CsvLine(CsvFields(r))];
    JoinSnoc([Join(CsvHeaders, ",")] + lines, CsvLine(CsvFields(r)), "\n");
  }

  /** Reading the body of a quoted field after its opening quote: `""` is one quote, a lone `"` ends it. */
  function ParseQuotedBody(s: string): Option<(string, string)>
    decreases |s|
  {
    if s == [] then None
    else if s[0] == '"' then
      if |s| > 1 && s[1] == '"' then
        match ParseQuotedBody(s[2..])
        case None => None
        case Some(res) => Some(("\"" + res.0, res.1))
      else Some(("", s[1..]))
    else
      match ParseQuotedBody(s[1..])
      case None => None
      case Some(res) => Some(([s[0]] + res.0, res.1))
  }

  /** Reading one quoted field: its value and what follows the closing quote. */
  function ParseField(s: string): Option<(string, string)> {
    if s != [] && s[0] == '"' then ParseQuotedBody(s[1..]) else None
  }

  /** Reading a line of quoted fields separated by commas. */
  function ParseLine(s: string): Option<seq<string>>
    decreases |s|
  {
    match ParseField(s)
    case None => None
    case Some(res) =>
      if res.1 == [] then Some([res.0])
      else if res.1[0] == ',' && |res.1| < |s| then
        match ParseLine(res.1[1..])
        case None => None
        case Some(rest) => Some([res.0] + rest)
      else None
  }

  lemma {:induction false} ParseQuotedBodyOf(v: string, rest: string)
    requires rest == [] || rest[0] != '"'
    ensures ParseQuotedBody(ReplaceChar(v, '"', "\"\"") + "\"" + rest) == Some((v, rest))
    decreases |v|
  {
    if v == [] {
      assert ReplaceChar(v, '"', "\"\"") + "\"" + rest == "\"" + rest;
    } else {
      var body := ReplaceChar(v[1..], '"', "\"\"");
      var s := ReplaceChar(v, '"', "\"\"") + "\"" + rest;
      ParseQuotedBodyOf(v[1..], rest);
      if v[0] == '"' {
        assert s == "\"\"" + (body + "\"" + rest);
        assert s[2..] == body + "\"" + rest;
      } else {
        assert s == [v[0]] + (body + "\"" + rest);
        assert s[1..] == body + "\"" + rest;
      }
      assert v == [v[0]] + v[1..];
    }
  }

  /** A quoted field is read back as the original value, whatever quotes or commas it holds. */
  lemma ParseQuotedField(v: string, rest: string)
    requires rest == [] || rest[0] != '"'
    ensures ParseField(QuoteField(v) + rest) == Some((v, rest))
  {
    ParseQuotedBodyOf(v, rest);
    assert QuoteField(v) + rest == "\"" + (ReplaceChar(v, '"', "\"\"") + "\"" + rest);
  }

  /** Every CSV line the export writes reads back as exactly its fields. */
  lemma {:induction false} CsvLineRoundTrip(fields: seq<string>)
    requires |fields| >= 1
    ensures ParseLine(CsvLine(fields)) == Some(fields)
    decreases |fields|
  {
    var quoted := seq(|fields|, i requires 0 <= i < |fields| => QuoteField(fields[i]));
    if |fields| == 1 {
      ParseQuotedField(fields[0], []);
      assert CsvLine(fields) == QuoteField(fields[0]) + [];
      assert fields == [fields[0]];
    } else {
      var tail := fields[1..];
      assert quoted[1..] == seq(|tail|, i requires 0 <= i < |tail| => QuoteField(tail[i]));
      var line := CsvLine(fields);
      assert line == QuoteField(fields[0]) + ("," + CsvLine(tail));
      ParseQuotedField(fields[0], "," + CsvLine(tail));
      CsvLineRoundTrip(tail);
      assert ("," + CsvLine(tail))[1..] == CsvLine(tail);
      assert fields == [fields[0]] + tail;
    }
  }

  /** The line exported for a record reads back as that record's sixteen column values. */
  lemma CsvRecordRoundTrip(r: Record)
    ensures ParseLine(CsvLine(CsvFields(r))) == Some(CsvFields(r))
  {
    CsvLineRoundTrip(CsvFields(r));
  }
}
