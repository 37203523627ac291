/**
 * TripsLoader: the lines of trips.txt become Trip records.  Fields are split by a
 * small CSV scanner that honours double quotes (a lenient reading of rules 5 to 7 of
 * section 2 of RFC 4180); short or blank lines are skipped, missing trailing fields
 * read as empty.  Reading the resource is not part of this model.
 */
module TripsLoader {
  import opened Wrappers
  import opened Text
  import opened Gtfs

  /**
   * The scan of parseCsv from position i, with the fields completed so far, the field
   * being built and the quoting state: a quote inside quotes followed by another quote
   * is one literal quote, any other quote flips the state and is dropped, a comma
   * outside quotes ends the field, everything else is copied.
   */
  function CsvFrom(line: string, i: nat, fields: seq<string>, cur: string, inQuotes: bool): seq<string>
    decreases |line| - i
  {
    if i >= |line| then fields + [cur]
    else if line[i] == '"' then
      if inQuotes && i + 1 < |line| && line[i + 1] == '"' then CsvFrom(line, i + 2, fields, cur + ['"'], inQuotes)
      else CsvFrom(line, i + 1, fields, cur, !inQuotes)
    else if line[i] == ',' && !inQuotes then CsvFrom(line, i + 1, fields + [cur], "", inQuotes)
    else CsvFrom(line, i + 1, fields, cur + [line[i]], inQuotes)
  }

  /** The fields parseCsv returns for a line: one more than its commas outside quotes. */
  function CsvFields(line: string): (r: seq<string>)
    ensures |r| == UnquotedCommas(line) + 1
  {
    assert line[..0] == [];
    CsvCount(line, 0, [], "", false);
    CsvFrom(line, 0, [], "", false)
  }

  /** parseCsv. */
  method ParseCsv(line: string) returns (result: seq<string>)
    ensures result == CsvFields(line)
  {
    result := [];
    var current := "";
    var inQuotes := false;
    var i := 0;
    while i < |line|
      invariant 0 <= i <= |line|
      invariant CsvFrom(line, i, result, current, inQuotes) == CsvFields(line)
      decreases |line| - i
    {
      var c := line[i];
      if c == '"' {
        if inQuotes && i + 1 < |line| && line[i + 1] == '"' {
          current := current + ['"'];
          i := i + 1;
        } else {
          inQuotes := !inQuotes;
        }
      } else if c == ',' && !inQuotes {
        result := result + [current];
        current := "";
      } else {
        current := current + [c];
      }
      i := i + 1;
    }
    result := result + [current];
  }

  /**
   * The number of commas of `s` that stand outside quotes: those preceded by an even
   * number of quote characters.
   */
  function UnquotedCommas(s: string): nat
    decreases |s|
  {
    if s == [] then 0
    else
      var init := s[..|s| - 1];
      UnquotedCommas(init) + (if s[|s| - 1] == ',' && Count(init, '"') % 2 == 0 then 1 else 0)
  }

  lemma PrefixStep(line: string, i: nat)
    requires i < |line|
    ensures Count(line[..i + 1], '"') == Count(line[..i], '"') + (if line[i] == '"' then 1 else 0)
    ensures UnquotedCommas(line[..i + 1])
            == UnquotedCommas(line[..i]) + (if line[i] == ',' && Count(line[..i], '"') % 2 == 0 then 1 else 0)
  {
    assert line[..i + 1] == line[..i] + [line[i]];
    assert line[..i + 1][..i] == line[..i];
    CountAppend(line[..i], [line[i]], '"');
  }

  /**
   * The quoting state at position i is the parity of the quotes before it: an escaped
   * pair inside quotes keeps the state, as two flips would.
   */
  lemma {:induction false} CsvCount(line: string, i: nat, fields: seq<string>, cur: string, inQuotes: bool)
    requires i <= |line|
    requires inQuotes <==> Count(line[..i], '"') % 2 == 1
    ensures |CsvFrom(line, i, fields, cur, inQuotes)| + UnquotedCommas(line[..i])
            == |fields| + 1 + UnquotedCommas(line)
    decreases |line| - i
  {
    if i == |line| {
      assert line[..i] == line;
    } else {
      PrefixStep(line, i);
      if line[i] == '"' && inQuotes && i + 1 < |line| && line[i + 1] == '"' {
        PrefixStep(line, i + 1);
        CsvCount(line, i + 2, fields, cur + ['"'], inQuotes);
      } else if line[i] == '"' {
        CsvCount(line, i + 1, fields, cur, !inQuotes);
      } else if line[i] == ',' && !inQuotes {
        CsvCount(line, i + 1, fields + [cur], "", inQuotes);
      } else {
        CsvCount(line, i + 1, fields, cur + [line[i]], inQuotes);
      }
    }
  }

  /** Splitting a string that starts with a non-separator extends its first piece. */
  lemma SplitCons(c: char, s: string, sep: char)
    requires c != sep
    ensures Split([c] + s, sep) == [[c] + Split(s, sep)[0]] + Split(s, sep)[1..]
  {
    var t := [c] + s;
    assert t[1..] == s;
    var k := IndexOf(s, sep);
    assert IndexOf(t, sep) == (if k < 0 then -1 else k + 1);
    if k >= 0 {
      var rest := Split(s[k + 1..], sep);
      assert Split(s, sep) == [s[..k]] + rest;
      assert t[..k + 1] == [c] + s[..k];
      assert t[k + 2..] == s[k + 1..];
      assert Split(t, sep) == [[c] + s[..k]] + rest;
    } else {
      assert Split(t, sep) == [t];
      assert Split(s, sep) == [s];
    }
  }

  /** Splitting a string that starts with the separator gives an empty first piece. */
  lemma SplitSep(s: string, sep: char)
    ensures Split([sep] + s, sep) == [""] + Split(s, sep)
  {
    var t := [sep] + s;
    assert t[1..] == s;
  }

  /** The fields of an unquoted scan: `cur` heads the first piece of the split rest. */
  function UnquotedResult(fields: seq<string>, cur: string, rest: string): seq<string>
  {
    var parts := Split(rest, ',');
    fields + [cur + parts[0]] + parts[1..]
  }

  lemma UnquotedEnd(fields: seq<string>, cur: string)
    ensures UnquotedResult(fields, cur, "") == fields + [cur]
  {
    var parts := Split("", ',');
    assert parts == [[]];
    assert cur + parts[0] == cur && parts[1..] == [];
  }

  lemma UnquotedComma(fields: seq<string>, cur: string, s: string)
    ensures UnquotedResult(fields + [cur], "", s) == UnquotedResult(fields, cur, [','] + s)
  {
    SplitSep(s, ',');
    var tail := Split(s, ',');
    var parts := Split([','] + s, ',');
    assert "" + tail[0] == tail[0];
    assert tail == [tail[0]] + tail[1..];
    assert parts[0] == "" && parts[1..] == tail;
    assert cur + parts[0] == cur;
  }

  lemma UnquotedChar(fields: seq<string>, cur: string, c: char, s: string)
    requires c != ','
    ensures UnquotedResult(fields, cur + [c], s) == UnquotedResult(fields, cur, [c] + s)
  {
    SplitCons(c, s, ',');
    var tail := Split(s, ',');
    assert cur + [c] + tail[0] == cur + ([c] + tail[0]);
  }

  lemma {:induction false} CsvUnquoted(line: string, i: nat, fields: seq<string>, cur: string)
    requires i <= |line| && '"' !in line[i..]
    ensures CsvFrom(line, i, fields, cur, false) == UnquotedResult(fields, cur, line[i..])
    decreases |line| - i
  {
    if i == |line| {
      assert line[i..] == [];
      UnquotedEnd(fields, cur);
    } else {
      var rest := line[i..];
      assert rest == [line[i]] + line[i + 1..];
      assert '"' !in line[i + 1..] by {
        assert forall c :: c in line[i + 1..] ==> c in rest;
      }
      if line[i] == ',' {
        CsvUnquoted(line, i + 1, fields + [cur], "");
        UnquotedComma(fields, cur, line[i + 1..]);
      } else {
        CsvUnquoted(line, i + 1, fields, cur + [line[i]]);
        UnquotedChar(fields, cur, line[i], line[i + 1..]);
      }
    }
  }

  /** Without quote characters, parseCsv splits exactly like split(",", -1). */
  lemma CsvWithoutQuotes(line: string)
    requires '"' !in line
    ensures CsvFields(line) == Split(line, ',')
  {
    assert line[0..] == line;
    CsvUnquoted(line, 0, [], "");
    var parts := Split(line, ',');
    assert "" + parts[0] == parts[0];
    assert [] + [parts[0]] == [parts[0]];
    assert parts == [parts[0]] + parts[1..];
  }

  /** A field as a CSV writer quotes its content: every double quote doubled. */
  function Escape(f: string): (r: string)
    ensures |r| >= |f|
  {
    if f == [] then [] else (if f[0] == '"' then "\"\"" else [f[0]]) + Escape(f[1..])
  }

  /** A field between double quotes, its own quotes doubled. */
  function Quote(f: string): string
  {
    "\"" + Escape(f) + "\""
  }

  /** A non-empty list of fields, each quoted, joined by commas. */
  function QuotedLine(fs: seq<string>): string
    requires fs != []
    decreases |fs|
  {
    if |fs| == 1 then Quote(fs[0]) else Quote(fs[0]) + "," + QuotedLine(fs[1..])
  }

  /**
   * Inside quotes, the escaped text of a field followed by the closing quote (and no
   * second quote after it) adds exactly that field's content to the current field.
   */
  lemma {:induction false} CsvEscaped(line: string, i: nat, fields: seq<string>, cur: string, f: string)
    requires i + |Escape(f)| < |line|
    requires line[i..i + |Escape(f)|] == Escape(f)
    requires line[i + |Escape(f)|] == '"'
    requires i + |Escape(f)| + 1 < |line| ==> line[i + |Escape(f)| + 1] != '"'
    ensures CsvFrom(line, i, fields, cur, true) == CsvFrom(line, i + |Escape(f)| + 1, fields, cur + f, false)
    decreases |f|
  {
    var e := Escape(f);
    if f == [] {
      assert cur + f == cur;
    } else {
      var e' := Escape(f[1..]);
      var k := if f[0] == '"' then 2 else 1;
      assert e == e[..k] + e';
      assert line[i..i + k] == e[..k];
      assert line[i + k..i + k + |e'|] == e';
      assert cur + f == cur + f[..1] + f[1..];
      if f[0] == '"' {
        assert line[i] == '"' && line[i + 1] == '"';
        assert f[..1] == ['"'];
      } else {
        assert line[i] == f[0] && f[..1] == [line[i]];
      }
      assert CsvFrom(line, i, fields, cur, true) == CsvFrom(line, i + k, fields, cur + f[..1], true);
      assert i + k + |e'| == i + |e|;
      CsvEscaped(line, i + k, fields, cur + f[..1], f[1..]);
      assert cur + f[..1] + f[1..] == cur + f;
    }
  }

  /** Where a quoted field stands in a line: an opening quote, the escaped text, a closing quote. */
  lemma QuotedAt(line: string, i: nat, f: string)
    requires i + |Quote(f)| <= |line| && line[i..i + |Quote(f)|] == Quote(f)
    ensures line[i] == '"'
    ensures line[i + 1..i + 1 + |Escape(f)|] == Escape(f)
    ensures line[i + 1 + |Escape(f)|] == '"'
  {
    var q, e := Quote(f), Escape(f);
    assert q == ['"'] + e + ['"'];
    assert line[i..i + |q|][0] == line[i];
    forall k | 0 <= k < |e|
      ensures line[i + 1..i + 1 + |e|][k] == e[k]
    {
      assert line[i + 1 + k] == line[i..i + |q|][1 + k] == q[1 + k];
    }
    assert line[i..i + |q|][1 + |e|] == line[i + 1 + |e|];
  }

  /** A line of quoted fields from position i adds exactly those fields. */
  lemma {:induction false} CsvQuotedFrom(line: string, i: nat, fields: seq<string>, fs: seq<string>)
    requires fs != [] && i <= |line| && line[i..] == QuotedLine(fs)
    ensures CsvFrom(line, i, fields, "", false) == fields + fs
    decreases |fs|
  {
    var j := i + |Quote(fs[0])|;
    QuotedFieldAt(line, i, fs);
    QuotedAt(line, i, fs[0]);
    CsvEscaped(line, i + 1, fields, "", fs[0]);
    assert "" + fs[0] == fs[0];
    assert CsvFrom(line, i, fields, "", false) == CsvFrom(line, i + 1, fields, "", true);
    if |fs| > 1 {
      CsvQuotedFrom(line, j + 1, fields + [fs[0]], fs[1..]);
      assert fields + [fs[0]] + fs[1..] == fields + fs;
    }
  }

  /** The first quoted field of a line of quoted fields, and what follows it. */
  lemma QuotedFieldAt(line: string, i: nat, fs: seq<string>)
    requires fs != [] && i <= |line| && line[i..] == QuotedLine(fs)
    ensures i + |Quote(fs[0])| <= |line| && line[i..i + |Quote(fs[0])|] == Quote(fs[0])
    ensures |fs| == 1 ==> i + |Quote(fs[0])| == |line|
    ensures |fs| > 1 ==> line[i + |Quote(fs[0])|] == ','
    ensures |fs| > 1 ==> line[i + |Quote(fs[0])| + 1..] == QuotedLine(fs[1..])
  {
    var q := Quote(fs[0]);
    if |fs| == 1 {
      assert line[i..] == q;
      assert line[i..i + |q|] == line[i..][..|q|];
    } else {
      var rest := QuotedLine(fs[1..]);
      assert line[i..] == q + "," + rest;
      assert line[i..i + |q|] == line[i..][..|q|];
      assert line[i + |q|] == line[i..][|q|];
      assert line[i + |q| + 1..] == line[i..][|q| + 1..];
    }
  }

  /**
   * Quoting is undone: a line of quoted fields parses back to exactly those fields,
   * whatever commas and double quotes they contain.
   */
  lemma CsvQuoted(fs: seq<string>)
    requires fs != []
    ensures CsvFields(QuotedLine(fs)) == fs
  {
    var line := QuotedLine(fs);
    assert line[0..] == line;
    CsvQuotedFrom(line, 0, [], fs);
  }

  /** One quoted field parses back to that field. */
  lemma CsvQuotedField(f: string)
    ensures CsvFields(Quote(f)) == [f]
  {
    CsvQuoted([f]);
  }

  /** safeGet: the field at idx, or "" past the end of the list. */
  function SafeGet(fields: seq<string>, idx: nat): (r: string)
    ensures idx < |fields| ==> r == fields[idx]
    ensures idx >= |fields| ==> r == ""
  {
    if idx < |fields| then fields[idx] else ""
  }

  predicate IsNotQuote(c: char) { c != '"' }

  /** String.replace("\"", ""): every quote character removed, all else kept in order. */
  function DropQuotes(s: string): (r: string)
    ensures '"' !in r
    ensures forall c :: c != '"' ==> (c in r <==> c in s)
  {
    var r := Filter(s, IsNotQuote);
    assert !IsNotQuote('"');
    r
  }

  /** The direction field: 0 when empty or not an int, its value otherwise. */
  function DirectionOf(field: string): (r: int)
    ensures field == [] ==> r == 0
    ensures ParseInt(field).Some? ==> r == ParseInt(field).value
    ensures ParseInt(field).None? ==> r == 0
  {
    if field == [] then 0 else ParseInt(field).GetOr(0)
  }

  /**
   * The trip a line of trips.txt describes, or None when processLine adds nothing: a
   * line yields a trip exactly when it is not blank and has two commas outside quotes;
   * its headsign holds no double quote, and its shape id is empty when the line has
   * fewer than seven commas outside quotes.
   */
  function TripOfLine(line: string): (r: Option<Trip>)
    ensures r.Some? <==> Trim(line) != [] && UnquotedCommas(Trim(line)) >= 2
    ensures r.Some? ==> '"' !in r.value.tripHeadsign
    ensures r.Some? && UnquotedCommas(Trim(line)) < 7 ==> r.value.shapeId == ""
  {
    var t := Trim(line);
    if t == [] then None
    else
      var fields := CsvFields(t);
      if |fields| < 3 then None else Some(TripOfFields(fields))
  }

  /** The trip built from the fields of a line, each trimmed and the headsign unquoted. */
  function TripOfFields(fields: seq<string>): (r: Trip)
    ensures '"' !in r.tripHeadsign
    ensures |fields| < 8 ==> r.shapeId == ""
  {
    var headsign := Trim(DropQuotes(SafeGet(fields, 3)));
    TrimKeepsOut(DropQuotes(SafeGet(fields, 3)), '"');
    Trip(
      Trim(SafeGet(fields, 0)),
      Trim(SafeGet(fields, 1)),
      Trim(SafeGet(fields, 2)),
      headsign,
      Trim(SafeGet(fields, 4)),
      DirectionOf(Trim(SafeGet(fields, 5))),
      Trim(SafeGet(fields, 7)))
  }

  /**
   * Which column each field of a trip comes from: the ids are the trimmed fields 0-2 (the
   * service id kept as written, only trimmed), the headsign is field 3 without quotes,
   * the short name field 4, the direction field 5 read as an int (0 when missing or
   * malformed) and the shape id field 7; a missing field reads as empty.
   */
  lemma TripColumns(fields: seq<string>)
    requires |fields| >= 3
    ensures var r := TripOfFields(fields);
            r.routeId == Trim(fields[0]) && r.serviceId == Trim(fields[1]) && r.tripId == Trim(fields[2])
    ensures TripOfFields(fields).tripHeadsign == Trim(DropQuotes(SafeGet(fields, 3)))
    ensures TripOfFields(fields).tripShortName == Trim(SafeGet(fields, 4))
    ensures TripOfFields(fields).directionId == DirectionOf(Trim(SafeGet(fields, 5)))
    ensures TripOfFields(fields).shapeId == Trim(SafeGet(fields, 7))
  {
  }

  /** The first and last characters of a line of quoted fields are quotes. */
  lemma {:induction false} QuotedLineEdges(fs: seq<string>)
    requires fs != []
    ensures |QuotedLine(fs)| >= 2
    ensures QuotedLine(fs)[0] == '"' && QuotedLine(fs)[|QuotedLine(fs)| - 1] == '"'
    decreases |fs|
  {
    var q := Quote(fs[0]);
    assert q[0] == '"' && q[|q| - 1] == '"';
    if |fs| > 1 {
      QuotedLineEdges(fs[1..]);
      var tail := "," + QuotedLine(fs[1..]);
      var line := q + tail;
      assert QuotedLine(fs) == line;
      assert line[0] == q[0];
      assert line[|line| - 1] == tail[|tail| - 1];
    }
  }

  /**
   * A line of three or more quoted fields yields the trip of exactly those fields: ids,
   * headsign, short name, direction and shape come from their columns, whatever commas
   * and quotes the fields hold.
   */
  lemma QuotedTripLine(fs: seq<string>)
    requires |fs| >= 3
    ensures TripOfLine(QuotedLine(fs)) == Some(TripOfFields(fs))
  {
    var line := QuotedLine(fs);
    assert Trim(line) == line by {
      QuotedLineEdges(fs);
      TrimUnchanged(line);
    }
    assert CsvFields(line) == fs by {
      CsvQuoted(fs);
    }
    TripOfLineFields(line);
  }

  /** A non-blank line with at least three fields yields the trip of its fields. */
  lemma TripOfLineFields(line: string)
    requires Trim(line) != [] && |CsvFields(Trim(line))| >= 3
    ensures TripOfLine(line) == Some(TripOfFields(CsvFields(Trim(line))))
  {
  }

  /** The trip of a line of quoted fields, column by column. */
  lemma QuotedTripColumns(fs: seq<string>)
    requires |fs| >= 3
    ensures TripOfLine(QuotedLine(fs)).Some?
    ensures var r := TripOfLine(QuotedLine(fs)).value;
            r.routeId == Trim(fs[0]) && r.serviceId == Trim(fs[1]) && r.tripId == Trim(fs[2]) &&
            r.tripHeadsign == Trim(DropQuotes(SafeGet(fs, 3))) && r.tripShortName == Trim(SafeGet(fs, 4)) &&
            r.directionId == DirectionOf(Trim(SafeGet(fs, 5))) && r.shapeId == Trim(SafeGet(fs, 7))
  {
    QuotedTripLine(fs);
    TripColumns(fs);
  }

  function Opt(t: Option<Trip>): seq<Trip>
  {
    if t.Some? then [t.value] else []
  }

  /** processLine: appends the line's trip, if it describes one. */
  method ProcessLine(line: string, trips: seq<Trip>) returns (trips': seq<Trip>)
    ensures trips' == trips + Opt(TripOfLine(line))
  {
    trips' := trips;
    var t := Trim(line);
    if t == [] {
      return;
    }
    var fields := ParseCsv(t);
    if |fields| < 3 {
      return;
    }
    var routeId := Trim(SafeGet(fields, 0));
    var serviceId := Trim(SafeGet(fields, 1));
    var tripId := Trim(SafeGet(fields, 2));
    var tripHeadsign := Trim(DropQuotes(SafeGet(fields, 3)));
    var tripShortName := Trim(SafeGet(fields, 4));
    var directionId := 0;
    var dirField := Trim(SafeGet(fields, 5));
    if dirField != [] {
      var parsed := ParseInt(dirField);
      if parsed.Some? {
        directionId := parsed.value;
      }
    }
    var shapeId := Trim(SafeGet(fields, 7));
    trips' := trips' + [Trip(routeId, serviceId, tripId, tripHeadsign, tripShortName, directionId, shapeId)];
  }

  /** The header test of load: a lower-cased first line naming one of the id columns. */
  predicate IsHeader(line: string)
  {
    var lower := ToLower(line);
    StartsWith(lower, "route_id") || StartsWith(lower, "service_id") || Contains(lower, "trip_id")
  }

  /** The trips of the lines after the first, in order. */
  function TripsOf(lines: seq<string>): seq<Trip>
    decreases |lines|
  {
    if lines == [] then [] else Opt(TripOfLine(lines[0])) + TripsOf(lines[1..])
  }

  /** What load returns: the first line counts as data unless it looks like a header. */
  function LoadedTrips(lines: seq<string>): seq<Trip>
  {
    if lines == [] then []
    else if IsHeader(lines[0]) then TripsOf(lines[1..])
    else TripsOf(lines)
  }

  /** load over the lines of the file. */
  method Load(lines: seq<string>) returns (trips: seq<Trip>)
    ensures trips == LoadedTrips(lines)
  {
    trips := [];
    if lines == [] {
      return;
    }
    if IsHeader(lines[0]) {
      trips := ProcessLines(lines[1..]);
    } else {
      trips := ProcessLines(lines);
    }
  }

  /** The reading loop of load: processLine on every line, in order. */
  method ProcessLines(lines: seq<string>) returns (trips: seq<Trip>)
    ensures trips == TripsOf(lines)
  {
    trips := [];
    var i := 0;
    while i < |lines|
      invariant 0 <= i <= |lines|
      invariant trips == TripsOf(lines[..i])
    {
      TripsOfSnoc(lines, i);
      trips := ProcessLine(lines[i], trips);
      i := i + 1;
    }
    assert lines[..i] == lines;
  }

  lemma {:induction false} TripsOfAppend(a: seq<string>, b: seq<string>)
    ensures TripsOf(a + b) == TripsOf(a) + TripsOf(b)
    decreases |a|
  {
    if a == [] {
      assert a + b == b;
    } else {
      assert (a + b)[1..] == a[1..] + b;
      TripsOfAppend(a[1..], b);
    }
  }

  lemma TripsOfSnoc(lines: seq<string>, i: nat)
    requires i < |lines|
    ensures TripsOf(lines[..i + 1]) == TripsOf(lines[..i]) + Opt(TripOfLine(lines[i]))
  {
    assert lines[..i + 1] == lines[..i] + [lines[i]];
    TripsOfAppend(lines[..i], [lines[i]]);
    TripsOfOne(lines[i]);
  }

  lemma TripsOfOne(line: string)
    ensures TripsOf([line]) == Opt(TripOfLine(line))
  {
    assert [line][1..] == [];
  }

  /** Each line contributes at most one trip, so load never returns more trips than lines. */
  lemma {:induction false} TripsOfBound(lines: seq<string>)
    ensures |TripsOf(lines)| <= |lines|
    decreases |lines|
  {
    if lines != [] {
      TripsOfBound(lines[1..]);
    }
  }

  /** A first line that is not a header is parsed as data. */
  lemma FirstLineIsData(lines: seq<string>)
    requires lines != [] && !IsHeader(lines[0])
    ensures LoadedTrips(lines) == Opt(TripOfLine(lines[0])) + TripsOf(lines[1..])
  {
  }
}
