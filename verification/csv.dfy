/** `parseCSV`: the header line is split on raw commas, every data line is
    scanned character by character with an in-quotes flag, and each header
    is bound to the field at its position. */
module Csv {
  import opened Text

  /** One parsed row: header name to field value (a JavaScript object). */
  type Record = map<string, string>

  /** A finished field: trimmed, then stripped of double quotes. */
  function Field(cur: string): (f: string)
    ensures '"' !in f
    ensures '"' !in cur ==> f == Trim(cur)
  {
    var t := Trim(cur);
    assert '"' !in cur ==> RemoveAll(t, '"') == t by {
      if '"' !in cur {
        TrimSlice(cur);
        RemoveAbsent(t, '"');
      }
    }
    RemoveAll(t, '"')
  }

  /** The loop over a data line. `inQuotes` is the flag toggled by every `"`,
      `cur` the field being accumulated; a comma outside quotes closes the
      field and the end of the line closes the last one. */
  function Scan(s: string, inQuotes: bool, cur: string): (fields: seq<string>)
    ensures |fields| >= 1
    decreases |s|
  {
    if |s| == 0 then [Field(cur)]
    else if s[0] == '"' then Scan(s[1..], !inQuotes, cur)
    else if s[0] == ',' && !inQuotes then [Field(cur)] + Scan(s[1..], inQuotes, "")
    else Scan(s[1..], inQuotes, cur + [s[0]])
  }

  /** A rest of line without quotes or commas joins the current field,
      which the end of the line then closes. */
  lemma {:induction false} ScanRun(s: string, q: bool, cur: string)
    requires '"' !in s && ',' !in s
    ensures Scan(s, q, cur) == [Field(cur + s)]
    decreases |s|
  {
    if |s| == 0 {
      assert cur + s == cur;
    } else {
      assert cur + [s[0]] + s[1..] == cur + s;
      ScanRun(s[1..], q, cur + [s[0]]);
    }
  }

  /** Every field the scan closes is free of double quotes. */
  lemma {:induction false} ScanNoQuotes(s: string, q: bool, cur: string)
    ensures forall i :: 0 <= i < |Scan(s, q, cur)| ==> '"' !in Scan(s, q, cur)[i]
    decreases |s|
  {
    if |s| > 0 {
      if s[0] == '"' {
        ScanNoQuotes(s[1..], !q, cur);
      } else if s[0] == ',' && !q {
        ScanNoQuotes(s[1..], q, "");
        ConsNoQuotes(Field(cur), Scan(s[1..], q, ""));
      } else {
        ScanNoQuotes(s[1..], q, cur + [s[0]]);
      }
    }
  }

  /** The scan never puts a `"` into the field it accumulates, so every
      field it closes is the accumulated text trimmed. */
  lemma {:induction false} ScanTrimmed(s: string, q: bool, cur: string)
    requires '"' !in cur
    ensures forall i :: 0 <= i < |Scan(s, q, cur)| ==> IsTrimmed(Scan(s, q, cur)[i])
    decreases |s|
  {
    if |s| > 0 {
      if s[0] == '"' {
        ScanTrimmed(s[1..], !q, cur);
      } else if s[0] == ',' && !q {
        ScanTrimmed(s[1..], q, "");
        var rest := Scan(s[1..], q, "");
        forall i | 0 <= i < |[Field(cur)] + rest| ensures IsTrimmed(([Field(cur)] + rest)[i]) {
          if i > 0 {
            assert ([Field(cur)] + rest)[i] == rest[i - 1];
          }
        }
      } else {
        assert '"' !in cur + [s[0]];
        ScanTrimmed(s[1..], q, cur + [s[0]]);
      }
    }
  }

  lemma ConsNoQuotes(f: string, rest: seq<string>)
    requires '"' !in f
    requires forall i :: 0 <= i < |rest| ==> '"' !in rest[i]
    ensures forall i :: 0 <= i < |[f] + rest| ==> '"' !in ([f] + rest)[i]
  {
    forall i | 0 <= i < |[f] + rest| ensures '"' !in ([f] + rest)[i] {
      if i > 0 {
        assert ([f] + rest)[i] == rest[i - 1];
      }
    }
  }

  /** The fields of one data line. */
  function SplitLine(line: string): (fields: seq<string>)
    ensures |fields| == 1 + UnquotedCommas(line, false, |line|)
    ensures forall i :: 0 <= i < |fields| ==> '"' !in fields[i]
    ensures forall i :: 0 <= i < |fields| ==> IsTrimmed(fields[i])
  {
    ScanCount(line, false, "");
    ScanNoQuotes(line, false, "");
    ScanTrimmed(line, false, "");
    Scan(line, false, "")
  }

  /** Whether position `i` of `s` lies inside quotes when the scan of `s`
      starts with flag `q`: `q` flipped once per `"` before position `i`. */
  predicate InQuotesAt(s: string, q: bool, i: nat)
    requires i <= |s|
  {
    q != (Occurrences(s[..i], '"') % 2 == 1)
  }

  /** The number of commas among the first `n` characters of `s` that lie
      outside quotes, for a scan starting with flag `q`. */
  function UnquotedCommas(s: string, q: bool, n: nat): nat
    requires n <= |s|
  {
    if n == 0 then 0
    else UnquotedCommas(s, q, n - 1) + (if s[n - 1] == ',' && !InQuotesAt(s, q, n - 1) then 1 else 0)
  }

  /** Dropping the first character of `s` shifts the count by what that
      character contributes, with the flag it leaves behind. */
  lemma {:induction false} UnquotedCommasShift(s: string, q: bool, n: nat)
    requires 0 < |s| && n < |s|
    ensures UnquotedCommas(s, q, n + 1)
         == (if s[0] == ',' && !q then 1 else 0)
            + UnquotedCommas(s[1..], if s[0] == '"' then !q else q, n)
  {
    var q' := if s[0] == '"' then !q else q;
    if n == 0 {
      assert s[..0] == "";
    } else {
      UnquotedCommasShift(s, q, n - 1);
      assert s[..n][1..] == s[1..][..n - 1];
      assert s[1..][n - 1] == s[n];
      assert InQuotesAt(s, q, n) == InQuotesAt(s[1..], q', n - 1);
    }
  }

  /** The scan yields one field more than the commas it meets outside quotes. */
  lemma {:induction false} ScanCount(s: string, q: bool, cur: string)
    ensures |Scan(s, q, cur)| == 1 + UnquotedCommas(s, q, |s|)
    decreases |s|
  {
    if |s| > 0 {
      UnquotedCommasShift(s, q, |s| - 1);
      if s[0] == '"' {
        ScanCount(s[1..], !q, cur);
      } else if s[0] == ',' && !q {
        ScanCount(s[1..], q, "");
      } else {
        ScanCount(s[1..], q, cur + [s[0]]);
      }
    }
  }

  /** Inside quotes, every character but `"` is taken into the field,
      commas included. */
  lemma {:induction false} ScanQuotedRun(v: string, rest: string, cur: string)
    requires '"' !in v
    ensures Scan(v + rest, true, cur) == Scan(rest, true, cur + v)
  {
    if |v| == 0 {
      assert v + rest == rest && cur + v == cur;
    } else {
      assert (v + rest)[1..] == v[1..] + rest;
      assert cur + [v[0]] + v[1..] == cur + v;
      ScanQuotedRun(v[1..], rest, cur + [v[0]]);
    }
  }

  /** Outside quotes, a run free of `"` and `,` is taken into the field. */
  lemma {:induction false} ScanPlainRun(v: string, rest: string, cur: string)
    requires '"' !in v && ',' !in v
    ensures Scan(v + rest, false, cur) == Scan(rest, false, cur + v)
  {
    if |v| == 0 {
      assert v + rest == rest && cur + v == cur;
    } else {
      assert (v + rest)[1..] == v[1..] + rest;
      assert cur + [v[0]] + v[1..] == cur + v;
      ScanPlainRun(v[1..], rest, cur + [v[0]]);
    }
  }

  /** A value that survives `Field` unchanged. */
  predicate IsCleanValue(v: string)
  {
    '"' !in v && IsTrimmed(v)
  }

  lemma FieldOfClean(v: string)
    requires IsCleanValue(v)
    ensures Field(v) == v
  {
    TrimUnique("", v, "");
    assert "" + v + "" == v;
    RemoveAbsent(v, '"');
  }

  /** `"v"`: a value wrapped in double quotes. */
  function Quote(v: string): string
  {
    ['"'] + v + ['"']
  }

  function QuoteAll(vs: seq<string>): (qs: seq<string>)
    ensures |qs| == |vs|
  {
    if |vs| == 0 then [] else [Quote(vs[0])] + QuoteAll(vs[1..])
  }

  /** A data line with every value quoted. */
  function EncodeRow(vs: seq<string>): string
  {
    Join(QuoteAll(vs), ',')
  }

  /** A quoted value followed by a comma closes one field holding the value. */
  lemma ScanQuotedField(v: string, t: string)
    requires IsCleanValue(v)
    ensures Scan(Quote(v) + [','] + t, false, "") == [v] + Scan(t, false, "")
  {
    var rest := ['"', ','] + t;
    calc {
      Scan(Quote(v) + [','] + t, false, "");
    == { assert Quote(v) + [','] + t == ['"'] + (v + rest); }
      Scan(['"'] + (v + rest), false, "");
    == { assert (['"'] + (v + rest))[1..] == v + rest; }
      Scan(v + rest, true, "");
    == { ScanQuotedRun(v, rest, ""); assert "" + v == v; }
      Scan(rest, true, v);
    == { assert rest[1..] == [','] + t; }
      Scan([','] + t, false, v);
    == { assert ([','] + t)[1..] == t; }
      [Field(v)] + Scan(t, false, "");
    == { FieldOfClean(v); }
      [v] + Scan(t, false, "");
    }
  }

  /** A quoted value ending the line is the last field. */
  lemma ScanQuotedLast(v: string)
    requires IsCleanValue(v)
    ensures Scan(Quote(v), false, "") == [v]
  {
    assert Quote(v) == ['"'] + (v + ['"']);
    assert Scan(['"'] + (v + ['"']), false, "") == Scan(v + ['"'], true, "");
    ScanQuotedRun(v, ['"'], "");
    assert "" + v == v;
    assert Scan(['"'], true, v) == Scan("", false, v);
    FieldOfClean(v);
  }

  /** Quoting round trip: a line of quoted, trimmed, quote-free values (which
      may contain commas) splits back into exactly those values. */
  lemma {:induction false} SplitEncodedRow(vs: seq<string>)
    requires |vs| >= 1
    requires forall i :: 0 <= i < |vs| ==> IsCleanValue(vs[i])
    ensures SplitLine(EncodeRow(vs)) == vs
  {
    if |vs| == 1 {
      assert EncodeRow(vs) == Quote(vs[0]);
      ScanQuotedLast(vs[0]);
    } else {
      assert QuoteAll(vs)[1..] == QuoteAll(vs[1..]);
      assert EncodeRow(vs) == Quote(vs[0]) + [','] + EncodeRow(vs[1..]);
      ScanQuotedField(vs[0], EncodeRow(vs[1..]));
      SplitEncodedRow(vs[1..]);
      assert vs == [vs[0]] + vs[1..];
    }
  }

  /** An unquoted value followed by a comma closes one field. */
  lemma ScanPlainField(v: string, t: string)
    requires IsCleanValue(v) && ',' !in v
    ensures Scan(v + [','] + t, false, "") == [v] + Scan(t, false, "")
  {
    assert v + [','] + t == v + ([','] + t);
    ScanPlainRun(v, [','] + t, "");
    assert "" + v == v;
    assert ([','] + t)[1..] == t;
    assert Scan([','] + t, false, v) == [Field(v)] + Scan(t, false, "");
    FieldOfClean(v);
  }

  /** Unquoted round trip: values without quotes or commas joined by commas
      split back into themselves. */
  lemma {:induction false} SplitPlainRow(vs: seq<string>)
    requires |vs| >= 1
    requires forall i :: 0 <= i < |vs| ==> IsCleanValue(vs[i]) && ',' !in vs[i]
    ensures SplitLine(Join(vs, ',')) == vs
  {
    if |vs| == 1 {
      ScanPlainRun(vs[0], "", "");
      assert vs[0] + "" == vs[0] && "" + vs[0] == vs[0];
      FieldOfClean(vs[0]);
    } else {
      assert Join(vs, ',') == vs[0] + [','] + Join(vs[1..], ',');
      ScanPlainField(vs[0], Join(vs[1..], ','));
      SplitPlainRow(vs[1..]);
      assert vs == [vs[0]] + vs[1..];
    }
  }

  /** The header line is split on every comma, quoted or not; each name is
      trimmed and then stripped of quotes. */
  function ParseHeader(line: string): (headers: seq<string>)
    ensures |headers| == 1 + Occurrences(line, ',')
    ensures forall i :: 0 <= i < |headers| ==> '"' !in headers[i]
    ensures forall i :: 0 <= i < |headers| ==>
              headers[i] == RemoveAll(Trim(Split(line, ',')[i]), '"')
  {
    var parts := Split(line, ',');
    seq(|parts|, i requires 0 <= i < |parts| => RemoveAll(Trim(parts[i]), '"'))
  }

  /** `values[index] || ''`: the field at a position, or `''` past the end. */
  function ValueAt(values: seq<string>, i: nat): string
  {
    if i < |values| then values[i] else ""
  }

  /** Position `i` holds the last occurrence of its header name; a later
      duplicate overwrites an earlier one in the row object. */
  predicate LastOccurrence(headers: seq<string>, i: nat)
    requires i < |headers|
  {
    forall j :: i < j < |headers| ==> headers[j] != headers[i]
  }

  /** `headers.forEach((header, index) => row[header] = values[index] || '')`:
      the row has exactly the header names as keys, each bound to the value
      at its last position, extra values being dropped. */
  function MakeRow(headers: seq<string>, values: seq<string>): (row: Record)
    ensures forall h :: h in row <==> h in headers
    ensures forall i :: 0 <= i < |headers| && LastOccurrence(headers, i)
              ==> row[headers[i]] == ValueAt(values, i)
  {
    if |headers| == 0 then map[]
    else
      var n := |headers| - 1;
      var prev := MakeRow(headers[..n], values);
      AssignLastHeader(headers, values, prev);
      prev[headers[n] := ValueAt(values, n)]
  }

  /** One step of the `forEach`: assigning the last header keeps every key
      and the value of every header whose last occurrence came before. */
  lemma AssignLastHeader(headers: seq<string>, values: seq<string>, prev: Record)
    requires |headers| > 0
    requires forall h :: h in prev <==> h in headers[..|headers| - 1]
    requires forall i :: 0 <= i < |headers| - 1 && LastOccurrence(headers[..|headers| - 1], i)
               ==> prev[headers[..|headers| - 1][i]] == ValueAt(values, i)
    ensures var row := prev[headers[|headers| - 1] := ValueAt(values, |headers| - 1)];
            forall h :: h in row <==> h in headers
    ensures var row := prev[headers[|headers| - 1] := ValueAt(values, |headers| - 1)];
            forall i :: 0 <= i < |headers| && LastOccurrence(headers, i) ==> row[headers[i]] == ValueAt(values, i)
  {
    var n := |headers| - 1;
    var row := prev[headers[n] := ValueAt(values, n)];
    forall h ensures h in row <==> h in headers {
      assert h in headers <==> h in headers[..n] || h == headers[n] by {
        assert headers == headers[..n] + [headers[n]];
      }
    }
    forall i | 0 <= i < n && LastOccurrence(headers, i)
      ensures row[headers[i]] == ValueAt(values, i)
    {
      assert headers[..n][i] == headers[i];
      assert LastOccurrence(headers[..n], i);
      assert headers[n] != headers[i];
    }
  }

  /** The input trimmed and split on newlines; the first line is the header. */
  function Lines(text: string): (lines: seq<string>)
    ensures |lines| >= 1
  {
    Split(Trim(text), '\n')
  }

  function Headers(text: string): seq<string>
  {
    ParseHeader(Lines(text)[0])
  }

  /** `parseCSV`: one record per line after the header (so none for a blank
      input or a header alone), each shaped by the header. */
  function ParseCsv(text: string): (records: seq<Record>)
    ensures |records| == Occurrences(Trim(text), '\n')
    ensures IsBlank(text) ==> records == []
    ensures forall i :: 0 <= i < |records| ==> records[i].Keys == set h | h in Headers(text)
    ensures forall i, j :: 0 <= i < |records| && 0 <= j < |Headers(text)| && LastOccurrence(Headers(text), j)
              ==> records[i][Headers(text)[j]] == ValueAt(SplitLine(Lines(text)[i + 1]), j)
  {
    var lines := Lines(text);
    Rows(Headers(text), lines[1..])
  }

  /** One row per data line, each shaped by the same header. */
  function Rows(headers: seq<string>, lines: seq<string>): (records: seq<Record>)
    ensures |records| == |lines|
    ensures forall i :: 0 <= i < |records| ==> records[i].Keys == set h | h in headers
    ensures forall i, j :: 0 <= i < |records| && 0 <= j < |headers| && LastOccurrence(headers, j)
              ==> records[i][headers[j]] == ValueAt(SplitLine(lines[i]), j)
  {
    seq(|lines|, i requires 0 <= i < |lines| => MakeRow(headers, SplitLine(lines[i])))
  }

  /** The header line ignores quotes: a quoted `"a,b"` becomes the two header
      names `a` and `b`, while the same text on a data line is the one field
      `a,b`. */
  lemma HeaderSplitsQuotedComma(a: string, b: string)
    requires IsCleanHeader(a) && IsCleanHeader(b)
    ensures ParseHeader(Quote(a + [','] + b)) == [a, b]
    ensures SplitLine(Quote(a + [','] + b)) == [a + [','] + b]
  {
    var v := a + [','] + b;
    assert IsCleanValue(v) by {
      assert v[0] == a[0] && v[|v| - 1] == b[|b| - 1];
    }
    assert SplitLine(Quote(v)) == [v] by {
      assert Quote(v) == EncodeRow([v]);
      SplitEncodedRow([v]);
    }
    HeaderOfQuotedPair(a, b);
  }

  lemma HeaderOfQuotedPair(a: string, b: string)
    requires IsCleanHeader(a) && IsCleanHeader(b)
    ensures ParseHeader(Quote(a + [','] + b)) == [a, b]
  {
    var line := Quote(a + [','] + b);
    var parts := [['"'] + a, b + ['"']];
    assert Split(line, ',') == parts by {
      assert line == Join(parts, ',');
      SplitJoin(parts, ',');
    }
    HeaderOfParts(line, a, b);
  }

  lemma HeaderOfParts(line: string, a: string, b: string)
    requires IsCleanHeader(a) && IsCleanHeader(b)
    requires Split(line, ',') == [['"'] + a, b + ['"']]
    ensures ParseHeader(line) == [a, b]
  {
    var hs := ParseHeader(line);
    HeaderNameWithQuote(a, true);
    HeaderNameWithQuote(b, false);
    assert |hs| == 2;
    assert hs[0] == a;
    assert hs[1] == b;
    PairOf(hs, a, b);
  }

  lemma PairOf<T>(s: seq<T>, x: T, y: T)
    requires |s| == 2 && s[0] == x && s[1] == y
    ensures s == [x, y]
  {
  }

  /** A clean name with a stray quote in front of it (`leading`) or behind
      it reads as the name itself on the header line. */
  lemma HeaderNameWithQuote(a: string, leading: bool)
    requires IsCleanHeader(a)
    ensures leading ==> RemoveAll(Trim(['"'] + a), '"') == a
    ensures !leading ==> RemoveAll(Trim(a + ['"']), '"') == a
  {
    var p := if leading then ['"'] + a else a + ['"'];
    TrimUnique("", p, "");
    assert "" + p + "" == p;
    RemoveAbsent(a, '"');
    if !leading {
      RemoveTail(a, '"');
    }
  }

  lemma {:induction false} RemoveTail(s: string, c: char)
    ensures RemoveAll(s + [c], c) == RemoveAll(s, c)
  {
    if |s| > 0 {
      assert (s + [c])[1..] == s[1..] + [c];
      RemoveTail(s[1..], c);
    } else {
      assert s + [c] == [c];
    }
  }

  /** Every part nonempty: a join starts with the first part's first
      character and ends with the last part's last character. */
  lemma {:induction false} JoinEnds(parts: seq<string>, sep: char)
    requires |parts| >= 1
    requires forall i :: 0 <= i < |parts| ==> |parts[i]| > 0
    ensures |Join(parts, sep)| > 0
    ensures Join(parts, sep)[0] == parts[0][0]
    ensures Join(parts, sep)[|Join(parts, sep)| - 1] == parts[|parts| - 1][|parts[|parts| - 1]| - 1]
  {
    if |parts| > 1 {
      JoinEnds(parts[1..], sep);
    }
  }

  /** A character in neither the parts nor the separator is not in the join. */
  lemma {:induction false} JoinAvoids(parts: seq<string>, sep: char, c: char)
    requires c != sep
    requires forall i :: 0 <= i < |parts| ==> c !in parts[i]
    ensures c !in Join(parts, sep)
  {
    if |parts| > 1 {
      JoinAvoids(parts[1..], sep, c);
    }
  }

  function EncodeRows(rows: seq<seq<string>>): (lines: seq<string>)
    ensures |lines| == |rows|
    ensures forall i :: 0 <= i < |rows| ==> lines[i] == EncodeRow(rows[i])
  {
    if |rows| == 0 then [] else [EncodeRow(rows[0])] + EncodeRows(rows[1..])
  }

  /** A CSV text: the header names joined by commas, then one line per row
      with every value quoted. */
  function EncodeCsv(headers: seq<string>, rows: seq<seq<string>>): string
  {
    Join([Join(headers, ',')] + EncodeRows(rows), '\n')
  }

  /** A header name the header line reproduces. */
  predicate IsCleanHeader(h: string)
  {
    h != "" && IsCleanValue(h) && ',' !in h && '\n' !in h
  }

  lemma EncodedRowShape(vs: seq<string>)
    requires |vs| >= 1
    requires forall j :: 0 <= j < |vs| ==> '\n' !in vs[j]
    ensures |EncodeRow(vs)| > 0
    ensures EncodeRow(vs)[|EncodeRow(vs)| - 1] == '"'
    ensures '\n' !in EncodeRow(vs)
  {
    var qs := QuoteAll(vs);
    assert forall j :: 0 <= j < |vs| ==> qs[j] == Quote(vs[j]) by {
      QuoteAllAt(vs);
    }
    JoinEnds(qs, ',');
    JoinAvoids(qs, ',', '\n');
  }

  lemma {:induction false} QuoteAllAt(vs: seq<string>)
    ensures forall j :: 0 <= j < |vs| ==> QuoteAll(vs)[j] == Quote(vs[j])
  {
    if |vs| > 0 {
      QuoteAllAt(vs[1..]);
    }
  }

  /** The encoded text is already trimmed, so its lines are the header line
      followed by the encoded rows. */
  lemma EncodedLines(headers: seq<string>, rows: seq<seq<string>>)
    requires |headers| >= 1
    requires forall j :: 0 <= j < |headers| ==> IsCleanHeader(headers[j])
    requires forall i :: 0 <= i < |rows| ==> |rows[i]| >= 1
    requires forall i, j :: 0 <= i < |rows| && 0 <= j < |rows[i]| ==> '\n' !in rows[i][j]
    ensures Lines(EncodeCsv(headers, rows)) == [Join(headers, ',')] + EncodeRows(rows)
  {
    var text := EncodeCsv(headers, rows);
    var lines := [Join(headers, ',')] + EncodeRows(rows);
    assert forall k :: 0 <= k < |lines| ==> |lines[k]| > 0 && '\n' !in lines[k] by {
      JoinEnds(headers, ',');
      JoinAvoids(headers, ',', '\n');
      forall k | 1 <= k < |lines|
        ensures |lines[k]| > 0 && '\n' !in lines[k]
      {
        EncodedRowShape(rows[k - 1]);
      }
    }
    assert IsTrimmed(text) by {
      JoinEnds(lines, '\n');
      JoinEnds(headers, ',');
      if |rows| > 0 {
        EncodedRowShape(rows[|rows| - 1]);
      }
    }
    assert Trim(text) == text by {
      TrimUnique("", text, "");
      assert "" + text + "" == text;
    }
    SplitJoin(lines, '\n');
  }

  /** Clean header names joined by commas parse back into themselves. */
  lemma ParseJoinedHeader(headers: seq<string>)
    requires |headers| >= 1
    requires forall j :: 0 <= j < |headers| ==> IsCleanHeader(headers[j])
    ensures ParseHeader(Join(headers, ',')) == headers
  {
    SplitJoin(headers, ',');
    forall j | 0 <= j < |headers| ensures ParseHeader(Join(headers, ','))[j] == headers[j] {
      FieldOfClean(headers[j]);
    }
  }

  /** File round trip: parsing an encoded table gives back its header names,
      one record per row, and every named field's value. */
  lemma ParseEncodedCsv(headers: seq<string>, rows: seq<seq<string>>)
    requires |headers| >= 1
    requires forall j :: 0 <= j < |headers| ==> IsCleanHeader(headers[j])
    requires forall i :: 0 <= i < |rows| ==> |rows[i]| >= 1
    requires forall i, j :: 0 <= i < |rows| && 0 <= j < |rows[i]|
               ==> IsCleanValue(rows[i][j]) && '\n' !in rows[i][j]
    ensures Headers(EncodeCsv(headers, rows)) == headers
    ensures |ParseCsv(EncodeCsv(headers, rows))| == |rows|
    ensures forall i, j :: 0 <= i < |rows| && 0 <= j < |headers| && LastOccurrence(headers, j)
              ==> ParseCsv(EncodeCsv(headers, rows))[i][headers[j]] == ValueAt(rows[i], j)
  {
    var text := EncodeCsv(headers, rows);
    EncodedLines(headers, rows);
    ParseJoinedHeader(headers);
    var lines := Lines(text);
    forall i | 0 <= i < |rows| ensures SplitLine(lines[i + 1]) == rows[i] {
      SplitEncodedRow(rows[i]);
    }
  }
}
