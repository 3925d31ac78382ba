/** The stream monitor: monitorLogs reads the tailed log of one program
    line by line, keeps the lines carrying the GIN marker, parses them,
    matches their request path against the API list, rewrites the path to
    the matched prefix and inserts the entries in batches of 100. */
module Monitor {
  import opened Wrappers
  import opened Text
  import opened Parser
  import opened Matcher
  import opened Batch
  import opened Sink

  /** The batch size of monitorLogs. */
  const BatchSize: nat := 100

  /** The marker that identifies the lines worth parsing. */
  const Marker := "GIN"

  // ---------------------------------------------------------------------
  // Reading the stream

  /** What bufio.Reader.ReadString('\n') returns: a line up to and
      including the delimiter, or at end of input the unterminated rest
      together with io.EOF. */
  datatype ReadResult = Line(text: string, rest: string) | Eof(partial: string)

  /** A complete line: it ends with the one "\n" it contains. */
  predicate IsLine(l: string) {
    l != [] && l[|l| - 1] == '\n' && '\n' !in l[..|l| - 1]
  }

  function ReadString(s: string): (r: ReadResult)
    ensures r.Line? ==> IsLine(r.text) && s == r.text + r.rest
    ensures r.Eof? <==> '\n' !in s
    ensures r.Eof? ==> r.partial == s
  {
    var i := IndexOf(s, '\n');
    if i < |s| then
      assert s[..i + 1][..i] == s[..i];
      Line(s[..i + 1], s[i + 1..])
    else
      assert s[..i] == s;
      Eof(s)
  }

  /** The lines the read loop of monitorLogs handles before it stops at
      io.EOF; an unterminated last line is returned with io.EOF and is
      never processed. */
  function ReadLines(s: string): seq<string>
    decreases |s|
  {
    match ReadString(s)
    case Line(text, rest) => [text] + ReadLines(rest)
    case Eof(_) => []
  }

  /** The lines handled are complete lines, and together they are the
      stream up to its last "\n": only an unterminated tail is dropped. */
  lemma {:induction false} ReadLinesSplit(s: string)
    ensures forall k :: 0 <= k < |ReadLines(s)| ==> IsLine(ReadLines(s)[k])
    ensures Flatten(ReadLines(s)) <= s
    ensures '\n' !in s[|Flatten(ReadLines(s))|..]
    decreases |s|
  {
    match ReadString(s)
    case Line(text, rest) =>
      ReadLinesSplit(rest);
      var lines := ReadLines(s);
      assert lines[1..] == ReadLines(rest);
      assert Flatten(lines) == text + Flatten(ReadLines(rest));
      assert s[|Flatten(lines)|..] == rest[|Flatten(ReadLines(rest))|..];
      forall k | 0 <= k < |lines| ensures IsLine(lines[k]) {
        if k > 0 { assert lines[k] == ReadLines(rest)[k - 1]; }
      }
    case Eof(_) =>
      assert s[0..] == s;
  }

  // ---------------------------------------------------------------------
  // Routing one line

  /** The entry a line contributes to the batch, if any. */
  function Route(line: string, apiList: set<string>, server: string, program: string): Option<LogEntry> {
    if !Contains(line, Marker) then None
    else
      match ParseLogWithAwk(line, server, program)
      case Failure(_) => None
      case Success(entry) =>
        var matched := LongestPrefix(entry.apiPath, apiList);
        if matched == "" then None else Some(entry.(apiPath := matched))
  }

  /** A line contributes an entry exactly when it carries the marker, it
      parses, and some non-empty configured prefix matches its request
      path; the entry is the parsed one with the path replaced by the
      longest such prefix, every other field kept. */
  lemma RouteSpec(line: string, apiList: set<string>, server: string, program: string)
    ensures var r := Route(line, apiList, server, program);
            var parsed := ParseLogWithAwk(line, server, program);
            && (r.Some? <==>
                 && Contains(line, Marker)
                 && parsed.Success?
                 && exists api :: api in apiList && api != "" && api <= parsed.value.apiPath)
            && (r.Some? ==>
                 && r.value == parsed.value.(apiPath := r.value.apiPath)
                 && r.value.apiPath in apiList && r.value.apiPath != ""
                 && IsLongestMatch(parsed.value.apiPath, apiList, r.value.apiPath))
  {
    var parsed := ParseLogWithAwk(line, server, program);
    if parsed.Success? {
      NoMatch(parsed.value.apiPath, apiList);
    }
  }

  /** The values `route` gives the lines, in order, skipping the lines it
      gives nothing for. */
  function Collect<T>(lines: seq<string>, route: string -> Option<T>): seq<T>
    decreases |lines|
  {
    if lines == [] then []
    else
      Collect(lines[..|lines| - 1], route)
        + match route(lines[|lines| - 1])
          case Some(e) => [e]
          case None => []
  }

  /** Route, for one configuration. */
  function Router(apiList: set<string>, server: string, program: string): string -> Option<LogEntry> {
    line => Route(line, apiList, server, program)
  }

  /** The entries the monitor accepts from `lines`, in order. */
  function Accepted(lines: seq<string>, apiList: set<string>, server: string, program: string): seq<LogEntry> {
    Collect(lines, Router(apiList, server, program))
  }

  /** Every collected value comes from one of the lines, and there are no
      more values than lines. */
  lemma {:induction false} CollectFromLines<T>(lines: seq<string>, route: string -> Option<T>)
    ensures |Collect(lines, route)| <= |lines|
    ensures forall e :: e in Collect(lines, route) ==> exists l :: l in lines && route(l) == Some(e)
    decreases |lines|
  {
    if lines != [] {
      var init := lines[..|lines| - 1];
      var last := lines[|lines| - 1];
      CollectFromLines(init, route);
      forall e | e in Collect(lines, route)
        ensures exists l :: l in lines && route(l) == Some(e)
      {
        if e in Collect(init, route) {
          var l :| l in init && route(l) == Some(e);
          assert l in lines;
        } else {
          assert route(last) == Some(e);
          assert last in lines;
        }
      }
    }
  }

  /** Lines are handled one at a time: the values of two stretches of the
      stream are the values of each, one after the other. */
  lemma {:induction false} CollectConcat<T>(a: seq<string>, b: seq<string>, route: string -> Option<T>)
    ensures Collect(a + b, route) == Collect(a, route) + Collect(b, route)
    decreases |b|
  {
    if b == [] {
      assert a + b == a;
    } else {
      var init := b[..|b| - 1];
      CollectConcat(a, init, route);
      assert (a + b)[..|a + b| - 1] == a + init;
    }
  }

  /** Every accepted entry comes from a line through Route: its path is a
      non-empty configured prefix, and there are no more entries than
      lines. */
  lemma AcceptedFromLines(lines: seq<string>, apiList: set<string>, server: string, program: string)
    ensures |Accepted(lines, apiList, server, program)| <= |lines|
    ensures forall e :: e in Accepted(lines, apiList, server, program) ==>
              && e.apiPath in apiList && e.apiPath != ""
              && e.server == server && e.program == program
              && exists l :: l in lines && Route(l, apiList, server, program) == Some(e)
  {
    CollectFromLines(lines, Router(apiList, server, program));
    forall e | e in Accepted(lines, apiList, server, program)
      ensures e.apiPath in apiList && e.apiPath != "" && e.server == server && e.program == program
    {
      var l :| l in lines && Route(l, apiList, server, program) == Some(e);
      RouteSpec(l, apiList, server, program);
      var parsed := ParseLogWithAwk(l, server, program);
      assert parsed.value.server == server && parsed.value.program == program;
    }
  }

  lemma AcceptedSnoc(lines: seq<string>, line: string, apiList: set<string>, server: string, program: string)
    ensures Accepted(lines + [line], apiList, server, program)
         == Accepted(lines, apiList, server, program)
            + match Route(line, apiList, server, program)
              case Some(e) => [e]
              case None => []
  {
    assert (lines + [line])[..|lines|] == lines;
  }

  // ---------------------------------------------------------------------
  // The monitor loop

  /** The part of the loop body of monitorLogs that handles one line:
      check the marker, parse, match, and rewrite the path. */
  method RouteLine(line: string, apiList: set<string>, server: string, program: string) returns (routed: Option<LogEntry>)
    ensures routed == Route(line, apiList, server, program)
  {
    routed := None;
    if Contains(line, Marker) {
      var parsed := ParseLogWithAwk(line, server, program);
      if parsed.Success? {
        var entry := parsed.value;
        var matchedApiPath := LongestMatch(entry.apiPath, apiList);
        if matchedApiPath != "" {
          entry := entry.(apiPath := matchedApiPath);
          routed := Some(entry);
        }
      }
    }
  }

  /** The state of the buffer and the database while monitorLogs runs:
      `flushed` are the full batches handed to InsertLogEntry so far,
      starting from the database `start`, and `entries` the buffer, always
      shorter than a batch. */
  ghost predicate Buffered(db: Database, start: Delivery, batches0: seq<seq<LogEntry>>,
                           flushed: seq<seq<LogEntry>>, entries: seq<LogEntry>)
    reads db
  {
    && (forall k :: 0 <= k < |flushed| ==> |flushed[k]| == BatchSize)
    && |entries| < BatchSize
    && db.batches == batches0 + flushed
    && Delivery(db.rows, db.calls) == Deliver(db.execOk, start, flushed)
  }

  /** Appending one entry to the buffer: when the buffer reaches BatchSize
      it goes to InsertLogEntry and is emptied, whatever the insert
      returned. */
  method Push(db: Database, entries: seq<LogEntry>, e: LogEntry,
              ghost start: Delivery, ghost batches0: seq<seq<LogEntry>>, ghost flushed: seq<seq<LogEntry>>)
    returns (entries': seq<LogEntry>, ghost flushed': seq<seq<LogEntry>>)
    requires Buffered(db, start, batches0, flushed, entries)
    modifies db
    ensures Buffered(db, start, batches0, flushed', entries')
    ensures Flatten(flushed') + entries' == Flatten(flushed) + entries + [e]
    ensures flushed' == flushed || flushed' == flushed + [entries + [e]]
  {
    var buffer := entries + [e];
    if |buffer| >= BatchSize {
      var ok := InsertLogEntry(db, buffer);
      DeliverSnoc(db.execOk, start, flushed, buffer);
      FlattenConcat(flushed, [buffer]);
      assert Flatten([buffer]) == buffer;
      entries', flushed' := [], flushed + [buffer];
    } else {
      entries', flushed' := buffer, flushed;
    }
  }

  /** The body of the read loop of monitorLogs for one line: route it and
      push the entry, if any, into the buffer. */
  method HandleLine(db: Database, line: string, apiList: set<string>, server: string, program: string,
                    entries: seq<LogEntry>, ghost consumed: seq<string>,
                    ghost start: Delivery, ghost batches0: seq<seq<LogEntry>>, ghost flushed: seq<seq<LogEntry>>)
    returns (entries': seq<LogEntry>, ghost flushed': seq<seq<LogEntry>>)
    requires Buffered(db, start, batches0, flushed, entries)
    requires Accepted(consumed, apiList, server, program) == Flatten(flushed) + entries
    modifies db
    ensures Buffered(db, start, batches0, flushed', entries')
    ensures Accepted(consumed + [line], apiList, server, program) == Flatten(flushed') + entries'
  {
    var routed := RouteLine(line, apiList, server, program);
    AcceptedSnoc(consumed, line, apiList, server, program);
    if routed.Some? {
      entries', flushed' := Push(db, entries, routed.value, start, batches0, flushed);
    } else {
      entries', flushed' := entries, flushed;
    }
  }

  /** Reading one more line moves it from the unread rest to the lines
      read; at io.EOF every line of the stream has been read. */
  lemma ReadStep(stream: string, consumed: seq<string>, rest: string)
    requires ReadLines(stream) == consumed + ReadLines(rest)
    ensures var read := ReadString(rest);
            && (read.Eof? ==> consumed == ReadLines(stream))
            && (read.Line? ==> ReadLines(stream) == (consumed + [read.text]) + ReadLines(read.rest)
                               && |read.rest| < |rest|)
  {
    var read := ReadString(rest);
    if read.Eof? {
      assert consumed + [] == consumed;
    } else {
      assert consumed + ([read.text] + ReadLines(read.rest)) == (consumed + [read.text]) + ReadLines(read.rest);
    }
  }

  /** The invariant of the read loop of monitorLogs: the lines read so far
      and the unread rest make up the stream's lines, and every entry
      accepted from the lines read so far has been flushed or is buffered. */
  ghost predicate Monitoring(db: Database, stream: string, apiList: set<string>, server: string, program: string,
                             rest: string, entries: seq<LogEntry>, consumed: seq<string>,
                             start: Delivery, batches0: seq<seq<LogEntry>>, flushed: seq<seq<LogEntry>>)
    reads db
  {
    && ReadLines(stream) == consumed + ReadLines(rest)
    && Accepted(consumed, apiList, server, program) == Flatten(flushed) + entries
    && Buffered(db, start, batches0, flushed, entries)
  }

  /** One turn of the read loop of monitorLogs: read a line with
      ReadString; stop at io.EOF, otherwise handle the line. */
  method Step(db: Database, stream: string, apiList: set<string>, server: string, program: string,
              rest: string, entries: seq<LogEntry>, ghost consumed: seq<string>,
              ghost start: Delivery, ghost batches0: seq<seq<LogEntry>>, ghost flushed: seq<seq<LogEntry>>)
    returns (eof: bool, rest': string, entries': seq<LogEntry>, ghost consumed': seq<string>, ghost flushed': seq<seq<LogEntry>>)
    requires Monitoring(db, stream, apiList, server, program, rest, entries, consumed, start, batches0, flushed)
    modifies db
    ensures Monitoring(db, stream, apiList, server, program, rest', entries', consumed', start, batches0, flushed')
    ensures eof ==> consumed' == ReadLines(stream)
    ensures !eof ==> |rest'| < |rest|
  {
    ReadStep(stream, consumed, rest);
    var read := ReadString(rest);
    if read.Eof? {
      return true, rest, entries, consumed, flushed;
    }
    var line := read.text;
    entries', flushed' := HandleLine(db, line, apiList, server, program, entries, consumed, start, batches0, flushed);
    return false, read.rest, entries', consumed + [line], flushed';
  }

  /** monitorLogs over the output of `supervisorctl tail -f` for one
      program, given as the string `stream`. The buffer is flushed through
      InsertLogEntry when it reaches BatchSize and emptied whether or not
      the insert failed; at end of stream a non-empty rest is flushed. */
  method MonitorLogs(program: string, db: Database, apiList: set<string>, server: string, stream: string)
    modifies db
    ensures db.batches == old(db.batches)
              + Batches(Accepted(ReadLines(stream), apiList, server, program), BatchSize)
    ensures Delivery(db.rows, db.calls)
         == Deliver(db.execOk, Delivery(old(db.rows), old(db.calls)),
                    Batches(Accepted(ReadLines(stream), apiList, server, program), BatchSize))
  {
    ghost var start, batches0 := Delivery(db.rows, db.calls), db.batches;
    var rest := stream;
    var entries: seq<LogEntry> := [];
    ghost var consumed: seq<string> := [];
    ghost var flushed: seq<seq<LogEntry>> := [];
    var eof := false;
    while !eof
      invariant Monitoring(db, stream, apiList, server, program, rest, entries, consumed, start, batches0, flushed)
      invariant eof ==> consumed == ReadLines(stream)
      decreases !eof, |rest|
    {
      eof, rest, entries, consumed, flushed := Step(db, stream, apiList, server, program, rest, entries, consumed, start, batches0, flushed);
    }
    Drain(db, entries, start, batches0, flushed);
  }

  /** The end of the stream: a non-empty buffer goes to InsertLogEntry as
      one last, short batch; an empty one is not flushed. */
  method Drain(db: Database, entries: seq<LogEntry>,
               ghost start: Delivery, ghost batches0: seq<seq<LogEntry>>, ghost flushed: seq<seq<LogEntry>>)
    requires Buffered(db, start, batches0, flushed, entries)
    modifies db
    ensures db.batches == batches0 + Batches(Flatten(flushed) + entries, BatchSize)
    ensures Delivery(db.rows, db.calls) == Deliver(db.execOk, start, Batches(Flatten(flushed) + entries, BatchSize))
  {
    BatchesOfFull(flushed, entries, BatchSize);
    if |entries| > 0 {
      var ok := InsertLogEntry(db, entries);
      DeliverSnoc(db.execOk, start, flushed, entries);
    } else {
      assert Batches(Flatten(flushed) + entries, BatchSize) == flushed;
    }
  }

  // ---------------------------------------------------------------------
  // What a whole run hands to the database

  /** A whole run of monitorLogs, as its contract describes it: the
      flushed batches pass every accepted entry once and in order, every
      batch but the last holds exactly BatchSize entries, no batch is
      empty, and there are ceil(N / BatchSize) of them for N entries. */
  lemma RunFlushes(stream: string, apiList: set<string>, server: string, program: string)
    ensures var xs := Accepted(ReadLines(stream), apiList, server, program);
            var bs := Batches(xs, BatchSize);
            && Flatten(bs) == xs
            && |bs| == (|xs| + BatchSize - 1) / BatchSize
            && forall k :: 0 <= k < |bs| ==>
                 0 < |bs[k]| <= BatchSize && (k < |bs| - 1 ==> |bs[k]| == BatchSize)
  {
    var xs := Accepted(ReadLines(stream), apiList, server, program);
    FlattenBatches(xs, BatchSize);
    BatchCount(xs, BatchSize);
    BatchSizes(xs, BatchSize);
  }

  /** The table keeps its rows and gains only accepted entries, none
      more often than it was accepted; with a database that never fails,
      it gains all of them, in order. */
  lemma RunRows(execOk: nat -> bool, d: Delivery, stream: string, apiList: set<string>, server: string, program: string)
    ensures var xs := Accepted(ReadLines(stream), apiList, server, program);
            var e := Deliver(execOk, d, Batches(xs, BatchSize));
            && d.rows <= e.rows
            && |e.rows| <= |d.rows| + |xs|
            && multiset(e.rows[|d.rows|..]) <= multiset(xs)
            && ((forall c :: execOk(c)) ==> e.rows == d.rows + xs)
  {
    var xs := Accepted(ReadLines(stream), apiList, server, program);
    var bs := Batches(xs, BatchSize);
    FlattenBatches(xs, BatchSize);
    DeliverBounded(execOk, d, bs);
    if forall c :: execOk(c) {
      DeliverReliable(execOk, d, bs);
    }
  }

  /** Two hundred and fifty accepted entries are flushed as three batches
      of 100, 100 and 50. */
  lemma TwoHundredFifty(xs: seq<LogEntry>)
    requires |xs| == 250
    ensures var bs := Batches(xs, BatchSize);
            |bs| == 3 && |bs[0]| == 100 && |bs[1]| == 100 && |bs[2]| == 50
  {
    var bs := Batches(xs, BatchSize);
    var ys := xs[100..];
    assert bs == [xs[..100]] + Batches(ys, BatchSize);
    assert Batches(ys, BatchSize) == [ys[..100]] + Batches(ys[100..], BatchSize);
    assert Batches(ys[100..], BatchSize) == [ys[100..]];
  }
}
