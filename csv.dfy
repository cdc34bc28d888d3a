/**
 * The CSV text built by `exportToCSV`, and a reader for comma-separated
 * values with double-quoted fields (the convention of RFC 4180) against which
 * the export is checked: every exported message comes back unchanged, and so
 * does every other field that holds no double quote.
 */
module Csv {
  import opened Text
  import opened Leads
  import opened Wrappers

  // ---------------------------------------------------------------------
  // Writing

  /** The header line's cells; they are joined with commas and not quoted. */
  const Headers: seq<string> := ["Date", "Name", "Email", "Service", "Message", "Status"]

  /** `s.replace(/"/g, '""')`: every double quote is doubled. */
  function EscapeQuotes(s: string): (r: string)
    ensures '"' !in s ==> r == s
    ensures |r| >= |s|
    decreases |s|
  {
    if s == [] then []
    else (if s[0] == '"' then "\"\"" else [s[0]]) + EscapeQuotes(s[1..])
  }

  /** The template `"${cell}"`. */
  function QuoteCell(cell: string): string
  {
    "\"" + cell + "\""
  }

  /** `row.map(cell => `"${cell}"`)`: every cell is wrapped in double quotes. */
  function QuoteAll(cells: seq<string>): (r: seq<string>)
    ensures |r| == |cells|
    ensures forall i :: 0 <= i < |cells| ==> r[i] == "\"" + cells[i] + "\""
  {
    seq(|cells|, i requires 0 <= i < |cells| => QuoteCell(cells[i]))
  }

  /**
   * The cells of one submission's row before quoting. `dateText` stands for
   * `new Date(...).toLocaleString()`, whose text depends on the locale.
   */
  function RowCells(sub: Submission, dateText: int -> string): (r: seq<string>)
    ensures |r| == |Headers|
    ensures forall k :: 0 <= k < |r| && k != 4 ==> r[k] == RecordOf(sub, dateText)[k]
    ensures '"' !in sub.message ==> r == RecordOf(sub, dateText)
  {
    [dateText(sub.submittedAt), sub.name, sub.email, sub.service, EscapeQuotes(sub.message), sub.status]
  }

  /** One data line of the export: the quoted cells joined by commas. */
  function Row(sub: Submission, dateText: int -> string): (r: string)
    ensures |r| >= 2 && r[0] == '"' && r[|r| - 1] == '"'
  {
    var parts := QuoteAll(RowCells(sub, dateText));
    JoinEnds(parts, ",");
    Join(parts, ",")
  }

  /** A data line written out: each of the six cells between double quotes, separated by commas. */
  lemma RowText(sub: Submission, dateText: int -> string)
    ensures var c := RowCells(sub, dateText);
      Row(sub, dateText)
      == QuoteCell(c[0]) + "," + QuoteCell(c[1]) + "," + QuoteCell(c[2]) + ","
       + QuoteCell(c[3]) + "," + QuoteCell(c[4]) + "," + QuoteCell(c[5])
  {
    JoinSix(QuoteAll(RowCells(sub, dateText)), ",");
  }

  /** `rows.map(...)`: one data line per submission, in list order. */
  function Rows(subs: seq<Submission>, dateText: int -> string): (r: seq<string>)
    ensures |r| == |subs|
    ensures forall i :: 0 <= i < |subs| ==> r[i] == Row(subs[i], dateText)
  {
    seq(|subs|, i requires 0 <= i < |subs| => Row(subs[i], dateText))
  }

  /**
   * `exportToCSV()`: nothing for an empty list, otherwise the header line and
   * one line per submission, joined with line feeds.
   */
  function ExportToCsv(subs: seq<Submission>, dateText: int -> string): (r: Option<string>)
    ensures r.None? <==> subs == []
  {
    if |subs| == 0 then None
    else Some(Join([Join(Headers, ",")] + Rows(subs, dateText), "\n"))
  }

  // ---------------------------------------------------------------------
  // Reading

  /**
   * Reads a quoted field whose opening quote has been consumed: a doubled
   * quote stands for one quote, a single quote closes the field. Gives the
   * field's value and the text after the closing quote.
   */
  function ParseQuoted(t: string): (r: Option<(string, string)>)
    ensures r.Some? ==> |r.value.1| < |t|
    decreases |t|
  {
    if t == [] then None
    else if t[0] == '"' then
      if |t| >= 2 && t[1] == '"' then
        match ParseQuoted(t[2..])
        case None => None
        case Some((v, rest)) => Some(("\"" + v, rest))
      else Some(("", t[1..]))
    else
      match ParseQuoted(t[1..])
      case None => None
      case Some((v, rest)) => Some(([t[0]] + v, rest))
  }

  /** Reads an unquoted field: everything up to the next comma or line feed. */
  function ParseBare(t: string): (r: (string, string))
    ensures r.0 + r.1 == t
    ensures r.1 == [] || r.1[0] == ',' || r.1[0] == '\n'
    ensures ',' !in r.0 && '\n' !in r.0
    decreases |t|
  {
    if t == [] || t[0] == ',' || t[0] == '\n' then ([], t)
    else
      var (v, rest) := ParseBare(t[1..]);
      assert t == [t[0]] + t[1..];
      ([t[0]] + v, rest)
  }

  function ParseField(t: string): (r: Option<(string, string)>)
    ensures r.Some? ==> |r.value.1| <= |t|
  {
    if t != [] && t[0] == '"' then ParseQuoted(t[1..]) else Some(ParseBare(t))
  }

  /**
   * Reads the fields of one record. The text left over is empty or starts
   * with the line feed that ends the record.
   */
  function ParseRecord(t: string): (r: Option<(seq<string>, string)>)
    ensures r.Some? ==> |r.value.0| >= 1 && |r.value.1| <= |t|
    ensures r.Some? ==> r.value.1 == [] || r.value.1[0] == '\n'
    decreases |t|
  {
    match ParseField(t)
    case None => None
    case Some((cell, rest)) =>
      if rest == [] || rest[0] == '\n' then Some(([cell], rest))
      else if rest[0] == ',' then
        match ParseRecord(rest[1..])
        case None => None
        case Some((cells, after)) => Some(([cell] + cells, after))
      else None
  }

  /** Reads the records of a whole text, separated by line feeds. */
  function ParseDocument(t: string): (r: Option<seq<seq<string>>>)
    ensures r.Some? ==> |r.value| >= 1
    decreases |t|
  {
    match ParseRecord(t)
    case None => None
    case Some((cells, rest)) =>
      if rest == [] then Some([cells])
      else
        match ParseDocument(rest[1..])
        case None => None
        case Some(records) => Some([cells] + records)
  }

  // ---------------------------------------------------------------------
  // Round trips

  /** What a reader should recover from a submission's line. */
  function RecordOf(sub: Submission, dateText: int -> string): seq<string>
  {
    [dateText(sub.submittedAt), sub.name, sub.email, sub.service, sub.message, sub.status]
  }

  /** The cells the export writes without escaping hold no double quote. */
  predicate UnescapedCellsQuoteFree(sub: Submission, dateText: int -> string)
  {
    && '"' !in dateText(sub.submittedAt)
    && '"' !in sub.name
    && '"' !in sub.email
    && '"' !in sub.service
    && '"' !in sub.status
  }

  /** An escaped value followed by a closing quote reads back as the value. */
  lemma {:induction false} ParseQuotedEscaped(s: string, rest: string)
    requires rest == [] || rest[0] != '"'
    ensures ParseQuoted(EscapeQuotes(s) + "\"" + rest) == Some((s, rest))
    decreases |s|
  {
    if s == [] {
      var t := EscapeQuotes(s) + "\"" + rest;
      assert t == "\"" + rest;
      assert t[1..] == rest;
    } else {
      ParseQuotedEscaped(s[1..], rest);
      var tail := EscapeQuotes(s[1..]) + "\"" + rest;
      var head := if s[0] == '"' then "\"\"" else [s[0]];
      EscapedTail(s, head, rest);
      if s[0] == '"' {
        ParseQuotedDoubled(tail, s[1..], rest);
        assert "\"" + s[1..] == s;
      } else {
        ParseQuotedPlain(s[0], tail, s[1..], rest);
        assert [s[0]] + s[1..] == s;
      }
    }
  }

  /** The escaped text followed by the closing quote, split after its first escaped character. */
  lemma EscapedTail(s: string, head: string, rest: string)
    requires s != []
    requires head == if s[0] == '"' then "\"\"" else [s[0]]
    ensures EscapeQuotes(s) + "\"" + rest == head + (EscapeQuotes(s[1..]) + "\"" + rest)
  {
    assert EscapeQuotes(s) == head + EscapeQuotes(s[1..]);
  }

  /** A doubled quote inside a quoted field reads as one quote. */
  lemma ParseQuotedDoubled(u: string, v: string, rest: string)
    requires ParseQuoted(u) == Some((v, rest))
    ensures ParseQuoted("\"\"" + u) == Some(("\"" + v, rest))
  {
    var t := "\"\"" + u;
    assert t[0] == '"' && t[1] == '"' && t[2..] == u;
  }

  /** A character other than a quote inside a quoted field reads as itself. */
  lemma ParseQuotedPlain(c: char, u: string, v: string, rest: string)
    requires c != '"'
    requires ParseQuoted(u) == Some((v, rest))
    ensures ParseQuoted([c] + u) == Some(([c] + v, rest))
  {
    var t := [c] + u;
    assert t[0] == c && t[1..] == u;
  }

  /** One written cell, as a reader sees it. */
  function Written(cell: string): string
  {
    QuoteCell(EscapeQuotes(cell))
  }

  /** A written cell followed by a separator or the end reads back as the cell. */
  lemma ParseWrittenField(cell: string, rest: string)
    requires rest == [] || rest[0] == ',' || rest[0] == '\n'
    ensures ParseField(Written(cell) + rest) == Some((cell, rest))
  {
    var t := Written(cell) + rest;
    var e := EscapeQuotes(cell);
    assert t == "\"" + (e + "\"" + rest);
    assert t[0] == '"' && t[1..] == e + "\"" + rest;
    ParseQuotedEscaped(cell, rest);
  }

  /** Escaped and quoted cells joined by commas read back as the cells. */
  lemma {:induction false} ParseWrittenRecord(cells: seq<string>, parts: seq<string>, tail: string)
    requires |parts| == |cells| >= 1
    requires forall i :: 0 <= i < |cells| ==> parts[i] == Written(cells[i])
    requires tail == [] || tail[0] == '\n'
    ensures ParseRecord(Join(parts, ",") + tail) == Some((cells, tail))
    decreases |cells|
  {
    if |cells| == 1 {
      ParseWrittenField(cells[0], tail);
      assert [cells[0]] == cells;
    } else {
      var more := Join(parts[1..], ",") + tail;
      ParseWrittenRecord(cells[1..], parts[1..], tail);
      ParseWrittenField(cells[0], "," + more);
      ParseRecordComma(parts[0], cells[0], more, cells[1..], tail);
      JoinFollowedBy(parts, ",", tail);
      assert [cells[0]] + cells[1..] == cells;
    }
  }

  /** A field followed by a comma and a readable rest reads as that field followed by the rest's fields. */
  lemma ParseRecordComma(field: string, cell: string, more: string, cells: seq<string>, after: string)
    requires ParseField(field + ("," + more)) == Some((cell, "," + more))
    requires ParseRecord(more) == Some((cells, after))
    ensures ParseRecord(field + ("," + more)) == Some(([cell] + cells, after))
  {
    assert ("," + more)[1..] == more;
  }

  /** A bare cell: no comma, no line feed, and no leading double quote. */
  predicate Bare(cell: string)
  {
    ',' !in cell && '\n' !in cell && (cell == [] || cell[0] != '"')
  }

  lemma {:induction false} ParseBarePlain(s: string, rest: string)
    requires ',' !in s && '\n' !in s
    requires rest == [] || rest[0] == ',' || rest[0] == '\n'
    ensures ParseBare(s + rest) == (s, rest)
    decreases |s|
  {
    if s == [] {
      assert s + rest == rest;
    } else {
      assert (s + rest)[0] == s[0] && s[0] in s;
      assert (s + rest)[1..] == s[1..] + rest;
      ParseBarePlain(s[1..], rest);
      assert [s[0]] + s[1..] == s;
    }
  }

  /** A bare cell followed by a separator or the end reads back as the cell. */
  lemma ParseBareField(cell: string, rest: string)
    requires Bare(cell)
    requires rest == [] || rest[0] == ',' || rest[0] == '\n'
    ensures ParseField(cell + rest) == Some((cell, rest))
  {
    ParseBarePlain(cell, rest);
    if cell == [] {
      assert cell + rest == rest;
    } else {
      assert (cell + rest)[0] == cell[0];
    }
  }

  /** Bare cells joined by commas read back as the cells. */
  lemma {:induction false} ParseBareRecord(cells: seq<string>, tail: string)
    requires |cells| >= 1
    requires forall i :: 0 <= i < |cells| ==> Bare(cells[i])
    requires tail == [] || tail[0] == '\n'
    ensures ParseRecord(Join(cells, ",") + tail) == Some((cells, tail))
    decreases |cells|
  {
    if |cells| == 1 {
      ParseBareField(cells[0], tail);
      assert [cells[0]] == cells;
    } else {
      var more := Join(cells[1..], ",") + tail;
      ParseBareRecord(cells[1..], tail);
      ParseBareField(cells[0], "," + more);
      ParseRecordComma(cells[0], cells[0], more, cells[1..], tail);
      JoinFollowedBy(cells, ",", tail);
      assert [cells[0]] + cells[1..] == cells;
    }
  }

  /** `line` reads back as `record`, whether it ends the text or a line feed follows. */
  ghost predicate ReadsBack(line: string, record: seq<string>)
  {
    forall tail :: (tail == [] || tail[0] == '\n') ==> ParseRecord(line + tail) == Some((record, tail))
  }

  /** A record that ends in a line feed is followed by the records of the rest. */
  lemma ParseDocumentAfterRecord(line: string, record: seq<string>, more: string)
    requires ReadsBack(line, record)
    ensures ParseDocument(line + ("\n" + more))
         == match ParseDocument(more)
            case None => None
            case Some(records) => Some([record] + records)
  {
    var tail := "\n" + more;
    assert tail[0] == '\n' && tail[1..] == more;
    assert ParseRecord(line + tail) == Some((record, tail));
  }

  lemma LastLine(line: string, record: seq<string>)
    requires ReadsBack(line, record)
    ensures ParseDocument(line) == Some([record])
  {
    assert line + [] == line;
    assert ParseRecord(line + []) == Some((record, []));
  }

  /** Lines that each read back as a record, joined by line feeds, read back as those records. */
  lemma {:induction false} ParseLines(lines: seq<string>, records: seq<seq<string>>)
    requires |lines| == |records| >= 1
    requires forall i :: 0 <= i < |lines| ==> ReadsBack(lines[i], records[i])
    ensures ParseDocument(Join(lines, "\n")) == Some(records)
    decreases |lines|
  {
    if |lines| == 1 {
      LastLine(lines[0], records[0]);
      assert [records[0]] == records;
    } else {
      var more := Join(lines[1..], "\n");
      forall i | 0 <= i < |lines| - 1
        ensures ReadsBack(lines[1..][i], records[1..][i])
      {
        assert lines[1..][i] == lines[i + 1] && records[1..][i] == records[i + 1];
      }
      ParseLines(lines[1..], records[1..]);
      JoinLines(lines);
      ParseDocumentAfterRecord(lines[0], records[0], more);
      assert [records[0]] + records[1..] == records;
    }
  }

  lemma JoinLines(lines: seq<string>)
    requires |lines| >= 2
    ensures Join(lines, "\n") == lines[0] + ("\n" + Join(lines[1..], "\n"))
  {
  }

  /** A submission's line reads back as its record when the unescaped cells hold no quote. */
  lemma RowRoundTrip(sub: Submission, dateText: int -> string, tail: string)
    requires UnescapedCellsQuoteFree(sub, dateText)
    requires tail == [] || tail[0] == '\n'
    ensures ParseRecord(Row(sub, dateText) + tail) == Some((RecordOf(sub, dateText), tail))
  {
    ParseWrittenRecord(RecordOf(sub, dateText), QuoteAll(RowCells(sub, dateText)), tail);
  }

  /** What a reader should recover from the export's data lines. */
  function Records(subs: seq<Submission>, dateText: int -> string): (r: seq<seq<string>>)
    ensures |r| == |subs|
  {
    seq(|subs|, i requires 0 <= i < |subs| => RecordOf(subs[i], dateText))
  }

  /** The header line reads back as the header cells. */
  lemma HeaderRoundTrip(tail: string)
    requires tail == [] || tail[0] == '\n'
    ensures ParseRecord(Join(Headers, ",") + tail) == Some((Headers, tail))
  {
    assert forall i :: 0 <= i < |Headers| ==> Bare(Headers[i]);
    ParseBareRecord(Headers, tail);
  }

  /**
   * The export reads back as the header and one record per submission, in
   * list order, provided the cells written without escaping hold no double
   * quote. Messages may hold anything, commas, quotes and line feeds included.
   */
  lemma ExportRoundTrip(subs: seq<Submission>, dateText: int -> string)
    requires subs != []
    requires forall i :: 0 <= i < |subs| ==> UnescapedCellsQuoteFree(subs[i], dateText)
    ensures ParseDocument(ExportToCsv(subs, dateText).value) == Some([Headers] + Records(subs, dateText))
  {
    ExportLinesReadBack(subs, dateText);
    ParseLines([Join(Headers, ",")] + Rows(subs, dateText), [Headers] + Records(subs, dateText));
  }

  /** Each line of the export reads back as the record at the same position. */
  lemma ExportLinesReadBack(subs: seq<Submission>, dateText: int -> string)
    requires forall i :: 0 <= i < |subs| ==> UnescapedCellsQuoteFree(subs[i], dateText)
    ensures forall i :: 0 <= i < |subs| + 1 ==>
      ReadsBack(([Join(Headers, ",")] + Rows(subs, dateText))[i], ([Headers] + Records(subs, dateText))[i])
  {
    HeaderReadsBack();
    RowsReadBack(subs, dateText);
    PrependReadsBack(Join(Headers, ","), Headers, Rows(subs, dateText), Records(subs, dateText));
  }

  /** Each data line reads back as the record of the submission at the same position. */
  lemma RowsReadBack(subs: seq<Submission>, dateText: int -> string)
    requires forall i :: 0 <= i < |subs| ==> UnescapedCellsQuoteFree(subs[i], dateText)
    ensures forall i :: 0 <= i < |subs| ==> ReadsBack(Rows(subs, dateText)[i], Records(subs, dateText)[i])
  {
    forall i | 0 <= i < |subs| {
      RowReadsBack(subs[i], dateText);
    }
  }

  /** A line put in front of others keeps every line paired with its record. */
  lemma PrependReadsBack(line: string, record: seq<string>, lines: seq<string>, records: seq<seq<string>>)
    requires ReadsBack(line, record)
    requires |lines| == |records|
    requires forall i :: 0 <= i < |lines| ==> ReadsBack(lines[i], records[i])
    ensures forall i :: 0 <= i < |lines| + 1 ==> ReadsBack(([line] + lines)[i], ([record] + records)[i])
  {
    forall i | 0 <= i < |lines| + 1
      ensures ReadsBack(([line] + lines)[i], ([record] + records)[i])
    {
      if i > 0 {
        assert ([line] + lines)[i] == lines[i - 1];
        assert ([record] + records)[i] == records[i - 1];
      }
    }
  }

  /** The header line reads back as the header cells, whatever follows it. */
  lemma HeaderReadsBack()
    ensures ReadsBack(Join(Headers, ","), Headers)
  {
    forall tail | tail == [] || tail[0] == '\n'
      ensures ParseRecord(Join(Headers, ",") + tail) == Some((Headers, tail))
    {
      HeaderRoundTrip(tail);
    }
  }

  /** A data line reads back as its record, whatever follows it. */
  lemma RowReadsBack(sub: Submission, dateText: int -> string)
    requires UnescapedCellsQuoteFree(sub, dateText)
    ensures ReadsBack(Row(sub, dateText), RecordOf(sub, dateText))
  {
    forall tail | tail == [] || tail[0] == '\n'
      ensures ParseRecord(Row(sub, dateText) + tail) == Some((RecordOf(sub, dateText), tail))
    {
      RowRoundTrip(sub, dateText, tail);
    }
  }

  /** A written cell and a comma are read off the front of a record. */
  lemma ParseRecordAfterWritten(cell: string, more: string)
    ensures ParseRecord(Written(cell) + ("," + more))
         == match ParseRecord(more)
            case None => None
            case Some((cells, after)) => Some(([cell] + cells, after))
  {
    ParseWrittenField(cell, "," + more);
    assert ("," + more)[0] == ',' && ("," + more)[1..] == more;
  }

  /**
   * A quote written unescaped is read as the start of a doubled quote, so the
   * reader runs past the cell's closing quote: whatever it reads is longer
   * than one character.
   */
  lemma LoneQuoteCellOverruns(more: string)
    ensures var r := ParseField(QuoteCell("\"") + ("," + more));
      r.None? || |r.value.0| >= 2
  {
    var t := QuoteCell("\"") + ("," + more);
    assert t == "\"\"\"," + more;
    assert t[0] == '"';
    var u := t[1..];
    assert u[0] == '"' && u[1] == '"';
    var w := u[2..];
    assert w[0] == ',';
    var pw := ParseQuoted(w);
    assert pw.Some? ==> |pw.value.0| >= 1;
    var pu := ParseQuoted(u);
    assert pu.Some? ==> pw.Some? && pu.value.0 == "\"" + pw.value.0;
    assert ParseField(t) == pu;
  }

  /**
   * Names, emails, services, statuses and date texts are written without
   * escaping: a name that is a single double quote does not read back.
   */
  lemma UnescapedQuoteBreaksRow(sub: Submission, dateText: int -> string, tail: string)
    requires sub.name == "\""
    requires '"' !in dateText(sub.submittedAt)
    ensures ParseRecord(Row(sub, dateText) + tail) != Some((RecordOf(sub, dateText), tail))
  {
    var parts := QuoteAll(RowCells(sub, dateText));
    var d := dateText(sub.submittedAt);
    assert parts[0] == Written(d);
    assert parts[1] == QuoteCell("\"");
    var rest2 := Join(parts[2..], ",") + tail;
    assert parts[1..][1..] == parts[2..];
    var rest1 := parts[1] + ("," + rest2);
    assert Join(parts, ",") + tail == parts[0] + ("," + rest1);
    ParseRecordAfterWritten(d, rest1);
    LoneQuoteCellOverruns(rest2);
    var pf := ParseField(rest1);
    var pr := ParseRecord(rest1);
    assert pr.Some? ==> pf.Some? && pr.value.0[0] == pf.value.0;
    var whole := ParseRecord(Row(sub, dateText) + tail);
    assert whole.Some? ==> pr.Some? && whole.value.0 == [d] + pr.value.0;
    assert whole.Some? ==> |whole.value.0| >= 2 && |whole.value.0[1]| >= 2;
    assert |RecordOf(sub, dateText)[1]| == 1;
  }
}
