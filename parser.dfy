/** The line parser: ParseLogWithAWK pipes one log line through
    `awk '{print $2,$4,$6,$8,$10,$12,$13}'`, splits what awk prints with
    strings.Fields and maps the first seven fields onto a LogEntry. */
module Parser {
  import opened Wrappers
  import opened Text

  /** One row of the log table. */
  datatype LogEntry = LogEntry(
    server: string,
    program: string,
    date: string,
    time: string,
    statusCode: string,
    duration: string,
    ip: string,
    httpMethod: string,
    apiPath: string)

  /** The error ParseLogWithAWK returns for a line with too few fields. */
  datatype ParseError = MalformedLine(line: string)

  /** awk's default field separators: blanks (space, tab) and newline. */
  const AwkBlanks: set<char> := {' ', '\t', '\n'}

  /** The 1-based awk columns the print statement writes, in order. */
  const AwkColumns: seq<nat> := [2, 4, 6, 8, 10, 12, 13]

  /** The number of fields a record needs. */
  const MinFields := 7

  /** The quote character stripped from both ends of the request path. */
  const Quote: set<char> := {'"'}

  /** awk's `$n`: the n-th field of the record, or "" past the last one. */
  function Column(tokens: seq<string>, n: nat): string {
    if 1 <= n <= |tokens| then tokens[n - 1] else ""
  }

  /** The values the print statement writes for one record. */
  function Selected(tokens: seq<string>): seq<string> {
    seq(|AwkColumns|, k requires 0 <= k < |AwkColumns| => Column(tokens, AwkColumns[k]))
  }

  /** What awk prints for one record: the selected columns separated by
      the output field separator " " and ended by "\n". */
  function AwkPrint(record: string): string {
    Join(Selected(Fields(record, AwkBlanks)), " ") + "\n"
  }

  /** awk's records: the input split at each "\n"; a final "\n" does not
      open another record. */
  function Records(text: string): seq<string>
    decreases |text|
  {
    if text == [] then []
    else
      var i := IndexOf(text, '\n');
      if i == |text| then [text] else [text[..i]] + Records(text[i + 1..])
  }

  function AwkPrintAll(records: seq<string>): string {
    if records == [] then "" else AwkPrint(records[0]) + AwkPrintAll(records[1..])
  }

  /** The whole output of the awk program on `text`. */
  function AwkOutput(text: string): string {
    AwkPrintAll(Records(text))
  }

  /** The in-process half of ParseLogWithAWK: at least seven fields give a
      LogEntry whose Date..Method are fields 0..5 and whose APIPath is
      field 6 with every leading and trailing quote removed; fewer give an
      error and no entry. */
  function MapFields(fields: seq<string>, line: string, server: string, program: string): (r: Result<LogEntry, ParseError>)
    ensures r.Success? <==> |fields| >= MinFields
    ensures r.Failure? ==> r.error == MalformedLine(line)
    ensures r.Success? ==>
      && r.value.server == server && r.value.program == program
      && r.value.date == fields[0] && r.value.time == fields[1]
      && r.value.statusCode == fields[2] && r.value.duration == fields[3]
      && r.value.ip == fields[4] && r.value.httpMethod == fields[5]
      && r.value.apiPath == Trim(fields[6], Quote)
  {
    if |fields| >= MinFields then
      Success(LogEntry(
        server := server,
        program := program,
        date := fields[0],
        time := fields[1],
        statusCode := fields[2],
        duration := fields[3],
        ip := fields[4],
        httpMethod := fields[5],
        apiPath := Trim(fields[6], Quote)))
    else
      Failure(MalformedLine(line))
  }

  /** ParseLogWithAWK: `echo` writes the line and a newline into awk, and
      Go splits awk's output on white space. */
  function ParseLogWithAwk(line: string, server: string, program: string): Result<LogEntry, ParseError> {
    MapFields(Fields(AwkOutput(line + "\n"), GoSpace), line, server, program)
  }

  // ---------------------------------------------------------------------
  // What ParseLogWithAWK does to a line read from the stream

  lemma RecordsOfLine(content: string)
    requires '\n' !in content
    ensures Records(content + "\n\n") == [content, ""]
  {
    var text := content + "\n\n";
    var i := IndexOf(text, '\n');
    assert text[|content|] == '\n';
    assert text[..i] == content;
    assert text[i + 1..] == "\n";
    assert IndexOf("\n", '\n') == 0;
    assert "\n"[1..] == "";
  }

  lemma AwkOutputOfLine(content: string)
    requires '\n' !in content
    ensures AwkOutput(content + "\n\n") == AwkPrint(content) + AwkPrint("")
  {
    RecordsOfLine(content);
    var records := [content, ""];
    assert records[1..] == [""];
    assert [""][1..] == [];
    assert AwkPrintAll([""]) == AwkPrint("") + "";
  }

  /** A record with no tokens prints only separators. */
  lemma FieldsOfBlankPrint()
    ensures Fields(AwkPrint(""), GoSpace) == []
  {
    var parts := Selected(Fields("", AwkBlanks));
    FieldsOfJoin(parts, " ", "\n", GoSpace);
    FlatFieldsOfTokens(parts, GoSpace);
    assert forall k :: 0 <= k < |parts| ==> parts[k] == "";
    NonEmptyOfBlanks(parts);
  }

  lemma {:induction false} NonEmptyOfBlanks(parts: seq<string>)
    requires forall k :: 0 <= k < |parts| ==> parts[k] == ""
    ensures NonEmpty(parts) == []
    decreases |parts|
  {
    if parts != [] {
      NonEmptyOfBlanks(parts[1..]);
    }
  }

  /** For a line as the stream reader returns it (its text and one "\n"),
      Go sees exactly the pieces of the selected awk columns. */
  lemma FieldsSeenByGo(content: string)
    requires '\n' !in content
    ensures Fields(AwkOutput(content + "\n" + "\n"), GoSpace)
         == FlatFields(Selected(Fields(content, AwkBlanks)), GoSpace)
  {
    assert content + "\n" + "\n" == content + "\n\n";
    AwkOutputOfLine(content);
    var first := AwkPrint(content);
    assert first[|first| - 1] == '\n';
    FieldsAppend(first, AwkPrint(""), GoSpace);
    FieldsOfBlankPrint();
    FieldsOfJoin(Selected(Fields(content, AwkBlanks)), " ", "\n", GoSpace);
  }

  /** The tokens awk finds in a line that Go would split no further. */
  predicate CleanTokens(tokens: seq<string>) {
    forall k :: 0 <= k < |tokens| ==> NoneIn(tokens[k], GoSpace)
  }

  /** The awk columns exist exactly for the first |tokens| positions, so
      Go sees seven fields exactly when awk saw at least thirteen tokens. */
  lemma SelectedOfClean(tokens: seq<string>)
    requires CleanTokens(tokens)
    requires forall k :: 0 <= k < |tokens| ==> tokens[k] != []
    ensures |tokens| >= 13 ==> FlatFields(Selected(tokens), GoSpace) == Selected(tokens)
    ensures |tokens| < 13 ==> |FlatFields(Selected(tokens), GoSpace)| < MinFields
  {
    var sel := Selected(tokens);
    forall k | 0 <= k < |sel| ensures NoneIn(sel[k], GoSpace) {
      if 1 <= AwkColumns[k] <= |tokens| {
        assert sel[k] == tokens[AwkColumns[k] - 1];
      }
    }
    FlatFieldsOfTokens(sel, GoSpace);
    if |tokens| >= 13 {
      NonEmptyOfNonEmpty(sel);
    } else {
      assert sel[6] == "";
      NonEmptyDropsEmpty(sel, 6);
    }
  }

  /** ParseLogWithAWK on a line of the stream maps the pieces of the
      selected awk columns. */
  lemma ParseLogWithAwkOfLine(content: string, server: string, program: string)
    requires '\n' !in content
    ensures ParseLogWithAwk(content + "\n", server, program)
         == MapFields(FlatFields(Selected(Fields(content, AwkBlanks)), GoSpace), content + "\n", server, program)
  {
    FieldsSeenByGo(content);
  }

  /** ParseLogWithAWK on a line of the stream whose awk tokens hold no other
      Go white space: it succeeds exactly when the line has at least
      thirteen tokens, and then the entry holds tokens 2, 4, 6, 8, 10 and 12
      (1-based) and token 13 with its quotes stripped. */
  lemma ParseLogWithAwkTokens(content: string, server: string, program: string)
    requires '\n' !in content
    requires CleanTokens(Fields(content, AwkBlanks))
    ensures var tokens := Fields(content, AwkBlanks);
            var r := ParseLogWithAwk(content + "\n", server, program);
            && (r.Success? <==> |tokens| >= 13)
            && (r.Success? ==> r.value == LogEntry(server, program, tokens[1], tokens[3],
                  tokens[5], tokens[7], tokens[9], tokens[11], Trim(tokens[12], Quote)))
  {
    var tokens := Fields(content, AwkBlanks);
    var sel := Selected(tokens);
    ParseLogWithAwkOfLine(content, server, program);
    SelectedOfClean(tokens);
    if |tokens| >= 13 {
      SelectedOfLong(tokens);
    }
  }

  /** With at least thirteen tokens every printed column exists. */
  lemma SelectedOfLong(tokens: seq<string>)
    requires |tokens| >= 13
    ensures Selected(tokens) == [tokens[1], tokens[3], tokens[5], tokens[7], tokens[9], tokens[11], tokens[12]]
  {
    var sel := Selected(tokens);
    assert |sel| == 7;
    assert sel[0] == tokens[1] && sel[1] == tokens[3] && sel[2] == tokens[5];
    assert sel[3] == tokens[7] && sel[4] == tokens[9] && sel[5] == tokens[11];
    assert sel[6] == tokens[12];
  }
}
