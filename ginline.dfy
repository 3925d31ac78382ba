/** A line of Gin's access log followed from the stream to the entry the
    monitor buffers for it. Gin writes
    `[GIN] <date> - <time> | <status> | <duration> | <ip> | <method> "<path>"`,
    and the awk columns 2, 4, 6, 8, 10, 12 and 13 pick exactly the date,
    time, status, duration, client address, method and quoted path. */
module GinLine {
  import opened Wrappers
  import opened Text
  import opened Parser
  import opened Matcher
  import opened Monitor

  /** A value Gin writes as one token: not empty, no white space. */
  predicate Token(s: string) {
    s != [] && NoneIn(s, GoSpace)
  }

  /** The awk tokens of a Gin access-log line. */
  function GinTokens(date: string, time: string, status: string, duration: string,
                     ip: string, httpMethod: string, path: string): seq<string> {
    ["[GIN]", date, "-", time, "|", status, "|", duration, "|", ip, "|", httpMethod, "\"" + path + "\""]
  }

  /** The line as the stream reader returns it. */
  function GinText(date: string, time: string, status: string, duration: string,
                   ip: string, httpMethod: string, path: string): string {
    Join(GinTokens(date, time, status, duration, ip, httpMethod, path), " ") + "\n"
  }

  lemma GinTokensClean(date: string, time: string, status: string, duration: string,
                       ip: string, httpMethod: string, path: string)
    requires Token(date) && Token(time) && Token(status) && Token(duration)
    requires Token(ip) && Token(httpMethod) && NoneIn(path, GoSpace)
    ensures var tokens := GinTokens(date, time, status, duration, ip, httpMethod, path);
            forall k :: 0 <= k < |tokens| ==> tokens[k] != [] && NoneIn(tokens[k], GoSpace)
  {
    var quoted := "\"" + path + "\"";
    forall i | 0 <= i < |quoted| ensures quoted[i] !in GoSpace {
      if 0 < i < |quoted| - 1 { assert quoted[i] == path[i - 1]; }
    }
  }

  /** The quotes around the path are removed, and nothing else. */
  lemma UnquotePath(path: string)
    requires path == [] || (path[0] != '"' && path[|path| - 1] != '"')
    ensures Trim("\"" + path + "\"", Quote) == path
  {
    var quoted := "\"" + path + "\"";
    assert quoted[..1] == "\"" && quoted[|quoted| - 1..] == "\"";
    assert TrimmedAt(quoted, Quote, 1, |quoted| - 1);
    TrimmedAtIsTrim(quoted, Quote, 1, |quoted| - 1);
    assert quoted[1..|quoted| - 1] == path;
  }

  /** A character in no part and not in the separator is not in the join. */
  lemma {:induction false} JoinNoneIn(parts: seq<string>, sep: string, c: char)
    requires c !in sep && forall k :: 0 <= k < |parts| ==> c !in parts[k]
    ensures c !in Join(parts, sep)
    decreases |parts|
  {
    if |parts| > 1 {
      JoinNoneIn(parts[1..], sep, c);
    }
  }

  /** ParseLogWithAWK reads the Gin fields off the line. */
  lemma GinParses(date: string, time: string, status: string, duration: string,
                  ip: string, httpMethod: string, path: string, server: string, program: string)
    requires Token(date) && Token(time) && Token(status) && Token(duration)
    requires Token(ip) && Token(httpMethod) && NoneIn(path, GoSpace)
    requires path == [] || (path[0] != '"' && path[|path| - 1] != '"')
    ensures ParseLogWithAwk(GinText(date, time, status, duration, ip, httpMethod, path), server, program)
         == Success(LogEntry(server, program, date, time, status, duration, ip, httpMethod, path))
  {
    var tokens := GinTokens(date, time, status, duration, ip, httpMethod, path);
    var content := Join(tokens, " ");
    GinTokensClean(date, time, status, duration, ip, httpMethod, path);
    FieldsJoinRoundTrip(tokens, AwkBlanks);
    JoinNoneIn(tokens, " ", '\n');
    ParseLogWithAwkTokens(content, server, program);
    UnquotePath(path);
  }

  /** The line carries the GIN marker. */
  lemma GinHasMarker(date: string, time: string, status: string, duration: string,
                     ip: string, httpMethod: string, path: string)
    ensures Contains(GinText(date, time, status, duration, ip, httpMethod, path), Marker)
  {
    var line := GinText(date, time, status, duration, ip, httpMethod, path);
    var tokens := GinTokens(date, time, status, duration, ip, httpMethod, path);
    assert Join(tokens, " ") == "[GIN]" + " " + Join(tokens[1..], " ");
    assert line[1..4] == "GIN";
    assert Marker <= line[1..];
    ContainsSpec(line, Marker);
  }

  /** A Gin access-log line contributes an entry exactly when some
      configured prefix matches its path; the entry holds the line's fields
      and the longest such prefix as its path. */
  lemma GinRoute(date: string, time: string, status: string, duration: string,
                 ip: string, httpMethod: string, path: string,
                 apiList: set<string>, server: string, program: string)
    requires Token(date) && Token(time) && Token(status) && Token(duration)
    requires Token(ip) && Token(httpMethod) && NoneIn(path, GoSpace)
    requires path == [] || (path[0] != '"' && path[|path| - 1] != '"')
    ensures var matched := LongestPrefix(path, apiList);
            Route(GinText(date, time, status, duration, ip, httpMethod, path), apiList, server, program)
              == if matched == "" then None
                 else Some(LogEntry(server, program, date, time, status, duration, ip, httpMethod, matched))
  {
    GinParses(date, time, status, duration, ip, httpMethod, path, server, program);
    GinHasMarker(date, time, status, duration, ip, httpMethod, path);
  }

  /** For instance `[GIN] 2024/01/02 - 15:04:05 | 200 | 1.2ms | 10.0.0.1 |
      GET "/api/v1/users/42"` with the list {"/api", "/api/v1/users"} is
      stored under "/api/v1/users" (by GinRoute), and with the list
      {"/api/v2"} it is dropped. */
  lemma SampleMatches()
    ensures LongestPrefix("/api/v1/users/42", {"/api", "/api/v1/users"}) == "/api/v1/users"
    ensures LongestPrefix("/api/v1/users/42", {"/api/v2"}) == ""
  {
    MostSpecificWins("/api/v1/users/42", {"/api", "/api/v1/users"}, "/api/v1/users");
    assert "/api/v2"[6] != "/api/v1/users/42"[6];
    NoMatch("/api/v1/users/42", {"/api/v2"});
  }
}
