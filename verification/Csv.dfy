// The CSV reader of the Trello import (backend/scripts/import-trello-csv.ts), against section 2 of RFC 4180.
module Csv {

  /** The reader's variables. */
  datatype State = State(results: seq<seq<string>>, row: seq<string>, current: string, inQuotes: bool)

  const QUOTE := '\"'

  /** What reading `text` on from a state leads to. */
  function Scan(text: string, s: State): State
    decreases |text|
  {
    if text == [] then s
    else
      var c, rest := text[0], text[1..];
      if c == QUOTE then
        if s.inQuotes && rest != [] && rest[0] == QUOTE then Scan(rest[1..], s.(current := s.current + [QUOTE]))
        else Scan(rest, s.(inQuotes := !s.inQuotes))
      else if s.inQuotes then Scan(rest, s.(current := s.current + [c]))
      else if c == ',' then Scan(rest, s.(row := s.row + [s.current], current := ""))
      else if c == '\n' then Scan(rest, State(s.results + [s.row + [s.current]], [], "", false))
      else if c == '\r' then Scan(rest, s)
      else Scan(rest, s.(current := s.current + [c]))
  }

  function Finish(s: State): seq<seq<string>> {
    if s.current != "" || s.row != [] then s.results + [s.row + [s.current]] else s.results
  }

  function Start(): State {
    State([], [], "", false)
  }

  function Parsed(text: string): seq<seq<string>> {
    Finish(Scan(text, Start()))
  }

  /** Reads the characters one by one, looking one ahead for a doubled quote. */
  method ParseCSVFile(text: string) returns (results: seq<seq<string>>)
    ensures results == Parsed(text)
  {
    results := [];
    var row: seq<string>, current, inQuotes := [], "", false;
    var i := 0;
    while i < |text|
      invariant i <= |text|
      invariant Scan(text[i..], State(results, row, current, inQuotes)) == Scan(text, Start())
    {
      var c := text[i];
      assert text[i..][0] == c && text[i..][1..] == text[i + 1..];
      assert i + 1 < |text| ==> text[i + 1..][0] == text[i + 1] && text[i + 1..][1..] == text[i + 2..];
      if c == QUOTE {
        if inQuotes && i + 1 < |text| && text[i + 1] == QUOTE {
          current := current + [QUOTE];
          i := i + 1;
        } else {
          inQuotes := !inQuotes;
        }
      } else if c == ',' && !inQuotes {
        row := row + [current];
        current := "";
      } else if c == '\n' && !inQuotes {
        row := row + [current];
        if |row| > 0 { results := results + [row]; }
        row := [];
        current := "";
      } else if c == '\r' && !inQuotes {
      } else {
        current := current + [c];
      }
      i := i + 1;
    }
    if current != "" || |row| > 0 {
      row := row + [current];
      results := results + [row];
    }
  }

  // ---------------------------------------------------------------- RFC 4180

  /** A field, written in quotes or bare. */
  datatype Field = Quoted(value: string) | Bare(value: string)

  /** Only a field without quote, comma, CR and LF may be bare. */
  predicate Writable(f: Field) {
    f.Bare? ==> forall i :: 0 <= i < |f.value| ==>
      f.value[i] != QUOTE && f.value[i] != ',' && f.value[i] != '\r' && f.value[i] != '\n'
  }

  function Doubled(value: string): string {
    if value == [] then []
    else (if value[0] == QUOTE then [QUOTE, QUOTE] else [value[0]]) + Doubled(value[1..])
  }

  function PrintField(f: Field): string {
    if f.Quoted? then [QUOTE] + Doubled(f.value) + [QUOTE] else f.value
  }

  /** The fields of a record, with commas between them. */
  function PrintRecord(fields: seq<Field>): string {
    if fields == [] then []
    else if |fields| == 1 then PrintField(fields[0])
    else PrintField(fields[0]) + [','] + PrintRecord(fields[1..])
  }

  /** A record and whether its line break is CRLF or LF. */
  datatype Record = Record(fields: seq<Field>, crlf: bool)

  function LineBreak(crlf: bool): string {
    if crlf then ['\r', '\n'] else ['\n']
  }

  function PrintRecords(records: seq<Record>): string {
    if records == [] then []
    else PrintRecord(records[0].fields) + LineBreak(records[0].crlf) + PrintRecords(records[1..])
  }

  function Values(fields: seq<Field>): seq<string> {
    if fields == [] then [] else [fields[0].value] + Values(fields[1..])
  }

  function AllValues(records: seq<Record>): seq<seq<string>> {
    if records == [] then [] else [Values(records[0].fields)] + AllValues(records[1..])
  }

  predicate WritableRecord(fields: seq<Field>) {
    fields != [] && forall i :: 0 <= i < |fields| ==> Writable(fields[i])
  }

  // ---------------------------------------------------------------- reading back

  lemma {:induction false} ScanQuoted(value: string, rest: string, s: State)
    requires s.inQuotes && (rest != [] ==> rest[0] != QUOTE)
    ensures Scan(Doubled(value) + [QUOTE] + rest, s) == Scan(rest, s.(current := s.current + value, inQuotes := false))
  {
    var text := Doubled(value) + [QUOTE] + rest;
    if value == [] {
      assert text == [QUOTE] + rest && text[1..] == rest;
      assert s.current + value == s.current;
    } else {
      var tail := Doubled(value[1..]) + [QUOTE] + rest;
      var next := s.(current := s.current + [value[0]]);
      ScanQuoted(value[1..], rest, next);
      assert next.current + value[1..] == s.current + value;
      if value[0] == QUOTE {
        assert text == [QUOTE, QUOTE] + tail && text[1..] == [QUOTE] + tail && text[1..][1..] == tail;
      } else {
        assert text == [value[0]] + tail && text[1..] == tail;
      }
    }
  }

  lemma {:induction false} ScanBare(value: string, rest: string, s: State)
    requires !s.inQuotes && Writable(Bare(value))
    ensures Scan(value + rest, s) == Scan(rest, s.(current := s.current + value))
  {
    if value == [] {
      assert value + rest == rest && s.current + value == s.current;
    } else {
      var next := s.(current := s.current + [value[0]]);
      assert (value + rest)[1..] == value[1..] + rest && (value + rest)[0] == value[0];
      assert forall i :: 0 <= i < |value[1..]| ==> value[1..][i] == value[i + 1];
      ScanBare(value[1..], rest, next);
      assert next.current + value[1..] == s.current + value;
    }
  }

  lemma {:induction false} ScanField(f: Field, rest: string, s: State)
    requires Writable(f) && !s.inQuotes && s.current == "" && (rest != [] ==> rest[0] != QUOTE)
    ensures Scan(PrintField(f) + rest, s) == Scan(rest, s.(current := f.value))
  {
    assert "" + f.value == f.value;
    if f.Quoted? {
      var text := PrintField(f) + rest;
      assert text[0] == QUOTE && text[1..] == Doubled(f.value) + [QUOTE] + rest;
      assert Scan(text, s) == Scan(text[1..], s.(inQuotes := true));
      ScanQuoted(f.value, rest, s.(inQuotes := true));
    } else {
      ScanBare(f.value, rest, s);
    }
  }

  /** Reading a record leaves its last field in `current` and the others in `row`. */
  lemma {:induction false} ScanRecord(fields: seq<Field>, rest: string, s: State)
    requires WritableRecord(fields) && !s.inQuotes && s.current == "" && (rest != [] ==> rest[0] != QUOTE)
    ensures |Values(fields)| == |fields|
    ensures Scan(PrintRecord(fields) + rest, s) ==
              Scan(rest, s.(row := s.row + Values(fields)[..|fields| - 1], current := Values(fields)[|fields| - 1]))
  {
    hide Scan, PrintField, Writable, PrintRecord, Values;
    var f := fields[0];
    ValuesStart(fields);
    if |fields| == 1 {
      assert s.row + Values(fields)[..0] == s.row;
      ScanField(f, rest, s);
    } else {
      var tail := PrintRecord(fields[1..]) + rest;
      RegroupText(PrintField(f), [','], PrintRecord(fields[1..]), rest);
      ScanField(f, [','] + tail, s);
      ScanComma(tail, s.(current := f.value));
      var next := s.(row := s.row + [f.value]);
      assert forall i :: 0 <= i < |fields[1..]| ==> fields[1..][i] == fields[i + 1];
      ScanRecord(fields[1..], rest, next);
      ValuesEnd(s.row, f.value, Values(fields[1..]));
    }
  }

  lemma {:induction false} ValuesStart(fields: seq<Field>)
    requires fields != []
    ensures Values(fields) == [fields[0].value] + Values(fields[1..])
    ensures |fields| == 1 ==> Values(fields) == [fields[0].value] && PrintRecord(fields) == PrintField(fields[0])
    ensures |fields| > 1 ==> PrintRecord(fields) == PrintField(fields[0]) + [','] + PrintRecord(fields[1..])
  {
  }

  lemma {:induction false} ValuesEnd(row: seq<string>, first: string, others: seq<string>)
    requires others != []
    ensures var values := [first] + others;
            row + [first] + others[..|others| - 1] == row + values[..|values| - 1]
            && others[|others| - 1] == values[|values| - 1]
  {
  }

  lemma {:induction false} ScanComma(rest: string, s: State)
    requires !s.inQuotes
    ensures Scan([','] + rest, s) == Scan(rest, s.(row := s.row + [s.current], current := ""))
  {
    assert ([','] + rest)[1..] == rest;
  }

  lemma {:induction false} ScanBreak(crlf: bool, rest: string, s: State)
    requires !s.inQuotes
    ensures Scan(LineBreak(crlf) + rest, s) == Scan(rest, State(s.results + [s.row + [s.current]], [], "", false))
  {
    var tail := LineBreak(crlf) + rest;
    if crlf {
      assert tail[1..] == ['\n'] + rest && tail[1..][1..] == rest;
      assert Scan(tail, s) == Scan(tail[1..], s);
    } else {
      assert tail[1..] == rest;
    }
  }

  lemma {:induction false} ScanLine(record: Record, rest: string, results: seq<seq<string>>)
    requires WritableRecord(record.fields)
    ensures Scan(PrintRecord(record.fields) + (LineBreak(record.crlf) + rest), State(results, [], "", false)) ==
              Scan(rest, State(results + [Values(record.fields)], [], "", false))
  {
    hide Scan, PrintRecord, Values;
    var s := State(results, [], "", false);
    var fields, tail := record.fields, LineBreak(record.crlf) + rest;
    ScanRecord(fields, tail, s);
    var values := Values(fields);
    var end := s.(row := [] + values[..|fields| - 1], current := values[|fields| - 1]);
    assert end.row + [end.current] == values;
    ScanBreak(record.crlf, rest, end);
  }

  lemma {:induction false} ScanRecords(records: seq<Record>, rest: string, results: seq<seq<string>>)
    requires forall i :: 0 <= i < |records| ==> WritableRecord(records[i].fields)
    ensures Scan(PrintRecords(records) + rest, State(results, [], "", false)) ==
              Scan(rest, State(results + AllValues(records), [], "", false))
  {
    hide Scan, PrintRecord, Values, WritableRecord, LineBreak;
    if records == [] {
      assert PrintRecords(records) + rest == rest && results + AllValues(records) == results;
    } else {
      var first := records[0];
      var line, others := PrintRecord(first.fields) + LineBreak(first.crlf), PrintRecords(records[1..]);
      assert PrintRecords(records) == line + others;
      RegroupText(PrintRecord(first.fields), LineBreak(first.crlf), others, rest);
      ScanLine(first, others + rest, results);
      ScanRecords(records[1..], rest, results + [Values(first.fields)]);
      RegroupRows(results, Values(first.fields), AllValues(records[1..]));
    }
  }

  lemma {:induction false} RegroupText(a: string, b: string, c: string, d: string)
    ensures a + b + c + d == a + (b + (c + d))
  {
  }

  lemma {:induction false} RegroupRows(a: seq<seq<string>>, row: seq<string>, b: seq<seq<string>>)
    ensures a + [row] + b == a + ([row] + b)
  {
  }

  /** The reader gives back the rows of every text of RFC 4180 whose records all end in a line break, LF or
      CRLF, whichever fields are quoted and whatever the quoted ones contain. */
  lemma {:induction false} ReadsBack(records: seq<Record>)
    requires forall i :: 0 <= i < |records| ==> WritableRecord(records[i].fields)
    ensures Parsed(PrintRecords(records)) == AllValues(records)
  {
    ScanRecords(records, "", []);
    assert PrintRecords(records) + "" == PrintRecords(records);
    assert [] + AllValues(records) == AllValues(records);
  }

  /** The last record may lack its line break. It is then read back exactly unless it is one empty field,
      which the reader drops. */
  lemma {:induction false} ReadsBackUnterminated(records: seq<Record>, last: seq<Field>)
    requires forall i :: 0 <= i < |records| ==> WritableRecord(records[i].fields)
    requires WritableRecord(last)
    ensures Parsed(PrintRecords(records) + PrintRecord(last)) == AllValues(records) + [Values(last)] <==> Values(last) != [""]
  {
    hide Scan, PrintRecord, PrintRecords, Writable, Values, AllValues;
    ScanRecords(records, PrintRecord(last), []);
    var rows, values := AllValues(records), Values(last);
    assert [] + rows == rows && PrintRecord(last) + "" == PrintRecord(last);
    ScanRecord(last, "", State(rows, [], "", false));
    NothingLeft(State(rows, [] + values[..|last| - 1], values[|last| - 1], false));
    assert [] + values[..|last| - 1] == values[..|last| - 1];
    FinishRecord(rows, values);
  }

  lemma {:induction false} NothingLeft(s: State)
    ensures Scan("", s) == s
  {
  }

  lemma {:induction false} FinishRecord(rows: seq<seq<string>>, values: seq<string>)
    requires values != []
    ensures Finish(State(rows, values[..|values| - 1], values[|values| - 1], false)) == rows + [values] <==> values != [""]
  {
    assert values[..|values| - 1] + [values[|values| - 1]] == values;
    assert |rows + [values]| == |rows| + 1;
  }

  /** A last record of one empty bare field is dropped, and so is one of an empty quoted field: the reader forgets
      the quotes. */
  lemma {:induction false} EmptyLastRecordIsDropped(last: Field)
    requires last.value == ""
    ensures WritableRecord([last]) && Values([last]) == [""] && Parsed(PrintRecord([last])) == []
  {
    assert Values([last]) == [""] by { assert [last][1..] == []; }
    ReadsBackUnterminated([], [last]);
    var text := PrintRecord([last]);
    assert PrintRecords([]) + text == text;
    if last.Quoted? {
      assert Doubled("") == "" && text == [QUOTE, QUOTE];
      assert text[1..] == [QUOTE] && text[1..][1..] == [];
      assert Scan(text, Start()) == Scan([QUOTE], Start().(inQuotes := true));
    }
  }
}
