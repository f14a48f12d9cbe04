/**
 The reader of PostgreSQL `test_decoding` lines (forwarder/src/walcapture.rs):
 words separated by white space, a column per word that holds `[` and then `:`,
 and quoted values put back together from several words.
 */
module ChangeLine {
  import opened Options
  import opened Text

  datatype ParsedColumn = ParsedColumn(name: string, value: string, isOld: bool)

  /** What one line says: the command, the table it names and its columns. */
  datatype Change = Change(command: string, schema: string, table: string, columns: seq<ParsedColumn>)

  const OLD_KEY := "old-key:"
  const NEW_TUPLE := "new-tuple:"

  predicate IsMarker(part: string) {
    part == OLD_KEY || part == NEW_TUPLE
  }

  /** The closing-quote test: the text ends in one quote and not in two. */
  predicate Closes(value: string) {
    EndsWithQuote(value) && !EndsWithQuote(value[..|value| - 1])
  }

  /** The name and the text after the colon, for a word that starts a column. */
  function ColumnHead(part: string): (r: Option<(string, string)>)
    ensures r.Some? ==> |r.value.0| < |part|
  {
    match IndexOf(part, '[')
    case None => None
    case Some(bracket) =>
      match IndexOf(part[bracket..], ':')
      case None => None
      case Some(colon) => Some((part[..bracket], part[bracket..][colon + 1..]))
  }

  /** The quoted text, still doubled, that starts with `value`; and the words after it. */
  function ReadQuoted(value: string, parts: seq<string>): (r: (string, seq<string>))
    ensures |r.1| <= |parts|
    ensures !EndsWithQuote(r.0)
    decreases |parts|
  {
    if Closes(value) then (value[..|value| - 1], parts)
    else if parts == [] then (TrimEndQuotes(value), [])
    else ReadQuoted(value + " " + parts[0], parts[1..])
  }

  /** What one turn of the outer loop does: the columns it adds, the words left, the section. */
  datatype Turn = Turn(added: seq<ParsedColumn>, rest: seq<string>, isOld: bool)

  function ReadOne(parts: seq<string>, isOld: bool): (r: Turn)
    requires parts != []
    ensures |r.added| + |r.rest| <= |parts| && |r.rest| < |parts|
  {
    var rest := parts[1..];
    if parts[0] == OLD_KEY then Turn([], rest, true)
    else if parts[0] == NEW_TUPLE then Turn([], rest, false)
    else
      match ColumnHead(parts[0])
      case None => Turn([], rest, isOld)
      case Some((name, value)) =>
        if value != "" && value[0] == '\'' then
          var (raw, rest') := ReadQuoted(value[1..], rest);
          Turn([ParsedColumn(name, UndoubleQuotes(raw), isOld)], rest', isOld)
        else
          Turn([ParsedColumn(name, value, isOld)], rest, isOld)
  }

  /** The columns the words `parts` hold when the section is old (`isOld`) or new. */
  function ReadColumns(parts: seq<string>, isOld: bool): (r: seq<ParsedColumn>)
    ensures |r| <= |parts|
    decreases |parts|
  {
    if parts == [] then []
    else
      var turn := ReadOne(parts, isOld);
      turn.added + ReadColumns(turn.rest, turn.isOld)
  }

  lemma OneTurn(before: seq<ParsedColumn>, parts: seq<string>, isOld: bool, turn: Turn)
    requires parts != [] && turn == ReadOne(parts, isOld)
    ensures before + ReadColumns(parts, isOld) == before + turn.added + ReadColumns(turn.rest, turn.isOld)
  {
  }

  /**
   The inner loop of `parse_column_values`: `value` is the text after the opening
   quote and `start` the word it stands in; more words are appended, one blank
   each, until the closing-quote test holds or the words run out.
   */
  method ScanQuoted(value: string, parts: seq<string>, start: nat) returns (text: string, i: nat)
    requires start < |parts|
    ensures start <= i < |parts|
    ensures ReadQuoted(value, parts[start + 1..]) == (text, parts[i + 1..])
  {
    text, i := value, start;
    while true
      invariant start <= i < |parts|
      invariant ReadQuoted(text, parts[i + 1..]) == ReadQuoted(value, parts[start + 1..])
      decreases |parts| - i
    {
      if EndsWithQuote(text) {
        var trimmed := text[..|text| - 1];
        if !EndsWithQuote(trimmed) {
          text := trimmed;
          return;
        }
      }
      if i + 1 >= |parts| {
        text := TrimEndQuotes(text);
        return;
      }
      i := i + 1;
      assert parts[i..][0] == parts[i] && parts[i..][1..] == parts[i + 1..];
      text := text + " ";
      text := text + parts[i];
    }
  }

  /** The body of the outer loop for a word that is not a section marker. */
  method ColumnAt(parts: seq<string>, start: nat, isOld: bool) returns (added: seq<ParsedColumn>, i: nat)
    requires start < |parts| && !IsMarker(parts[start])
    ensures start <= i < |parts|
    ensures ReadOne(parts[start..], isOld) == Turn(added, parts[i + 1..], isOld)
  {
    added, i := [], start;
    var part := parts[i];
    assert parts[i..][0] == part && parts[i..][1..] == parts[i + 1..];
    var bracket := IndexOf(part, '[');
    if bracket.Some? {
      var name := part[..bracket.value];
      var restOfCol := part[bracket.value..];
      var colon := IndexOf(restOfCol, ':');
      if colon.Some? {
        var value := restOfCol[colon.value + 1..];
        if value != "" && value[0] == '\'' {
          value, i := ScanQuoted(value[1..], parts, i);
          value := UndoubleQuotes(value);
        }
        added := [ParsedColumn(name, value, isOld)];
      }
    }
  }

  /**
   `parse_column_values`: two nested loops over one index. The loops end on any
   text, and the result holds no more columns than the text has words.
   */
  method ParseColumnValues(data: string) returns (columns: seq<ParsedColumn>)
    ensures columns == ReadColumns(SplitWhitespace(data), false)
    ensures |columns| <= |SplitWhitespace(data)|
  {
    columns := [];
    var isOld := false;
    var parts := SplitWhitespace(data);
    var i := 0;
    ghost var all := ReadColumns(parts, false);
    while i < |parts|
      invariant 0 <= i <= |parts|
      invariant columns + ReadColumns(parts[i..], isOld) == all
    {
      ghost var before, here, wasOld := columns, parts[i..], isOld;
      var added := [];
      if parts[i] == OLD_KEY {
        isOld := true;
      } else if parts[i] == NEW_TUPLE {
        isOld := false;
      } else {
        added, i := ColumnAt(parts, i, isOld);
      }
      columns := columns + added;
      i := i + 1;
      assert ReadOne(here, wasOld) == Turn(added, parts[i..], isOld);
      OneTurn(before, here, wasOld, Turn(added, parts[i..], isOld));
    }
  }

  /** What `parse_change_line` makes of a line. */
  function ParseChangeLine(line: string): Option<Change> {
    var data := Trim(line);
    if "table " <= data then ParseTable(data[6..]) else None
  }

  /** The part after `table `: the table up to the first colon. */
  function ParseTable(afterTable: string): Option<Change> {
    match IndexOf(afterTable, ':')
    case None => None
    case Some(first) => ParseCommand(Trim(afterTable[..first]), Trim(afterTable[first + 1..]))
  }

  /** The part after the table: the command up to the next colon, then the columns. */
  function ParseCommand(fullTable: string, afterFirst: string): Option<Change> {
    match IndexOf(afterFirst, ':')
    case None => None
    case Some(second) =>
      var command := Trim(afterFirst[..second]);
      var columns := ReadColumns(SplitWhitespace(Trim(afterFirst[second + 1..])), false);
      match IndexOf(fullTable, '.')
      case Some(dot) => Some(Change(command, fullTable[..dot], fullTable[dot + 1..], columns))
      case None => Some(Change(command, "public", fullTable, columns))
  }

  /** `parse_change_line`: the table up to the first colon, then the rest. */
  method ReadChangeLine(line: string) returns (change: Option<Change>)
    ensures change == ParseChangeLine(line)
  {
    var data := Trim(line);
    if !("table " <= data) {
      return None;
    }
    var afterTable := data[6..];
    var firstColon := IndexOf(afterTable, ':');
    if firstColon.None? {
      return None;
    }
    var fullTable := Trim(afterTable[..firstColon.value]);
    var afterFirstColon := Trim(afterTable[firstColon.value + 1..]);
    change := ReadCommand(fullTable, afterFirstColon);
  }

  /** The second half of `parse_change_line`: the command, the two names and the columns. */
  method ReadCommand(fullTable: string, afterFirstColon: string) returns (change: Option<Change>)
    ensures change == ParseCommand(fullTable, afterFirstColon)
  {
    var secondColon := IndexOf(afterFirstColon, ':');
    if secondColon.None? {
      return None;
    }
    var command := Trim(afterFirstColon[..secondColon.value]);
    var colData := Trim(afterFirstColon[secondColon.value + 1..]);
    var schema, table := "public", fullTable;
    var dot := IndexOf(fullTable, '.');
    if dot.Some? {
      schema, table := fullTable[..dot.value], fullTable[dot.value + 1..];
    }
    var columns := ParseColumnValues(colData);
    change := Some(Change(command, schema, table, columns));
  }

  /** The two markers set the section, whatever it was. */
  lemma MarkersSetSection(rest: seq<string>, isOld: bool)
    ensures ReadColumns(["old-key:"] + rest, isOld) == ReadColumns(rest, true)
    ensures ReadColumns(["new-tuple:"] + rest, isOld) == ReadColumns(rest, false)
  {
    assert (["old-key:"] + rest)[1..] == rest && (["new-tuple:"] + rest)[1..] == rest;
    assert "old-key:"[0] == 'o' && "new-tuple:"[0] == 'n';
  }

  /** `split_old_new_columns`: the columns of one section, in order. */
  function Section(columns: seq<ParsedColumn>, isOld: bool): seq<ParsedColumn> {
    if columns == [] then []
    else (if columns[0].isOld == isOld then [columns[0]] else []) + Section(columns[1..], isOld)
  }

  /** Every column the reader makes out of a quoted text has a value that does not end in a quote. */
  lemma QuotedValueNeverEndsInQuote(parts: seq<string>, isOld: bool)
    requires parts != [] && !IsMarker(parts[0])
    requires ColumnHead(parts[0]).Some? && "'" <= ColumnHead(parts[0]).value.1
    ensures ReadColumns(parts, isOld) != []
    ensures !EndsWithQuote(ReadColumns(parts, isOld)[0].value)
  {
    var value := ColumnHead(parts[0]).value.1;
    UndoubleEndsWithQuote(ReadQuoted(value[1..], parts[1..]).0);
  }
}
