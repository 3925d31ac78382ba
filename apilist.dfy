/** The API list: LoadAPIList reads the configured path prefixes, one per
    line, into a set. Lines are trimmed of white space and blank lines are
    skipped. */
module ApiList {
  import opened Text

  /** A line as bufio.ScanLines returns it: without its "\n" and without
      one "\r" just before it. */
  function DropCR(s: string): (r: string)
    ensures s != [] && s[|s| - 1] == '\r' ==> s == r + "\r"
    ensures (s == [] || s[|s| - 1] != '\r') ==> r == s
  {
    if s != [] && s[|s| - 1] == '\r' then s[..|s| - 1] else s
  }

  /** The lines bufio.Scanner yields with ScanLines: the text split at
      each "\n", each line without a trailing "\r"; a last line without
      "\n" is yielded too, but nothing follows a final "\n". */
  function ScanLines(text: string): (lines: seq<string>)
    ensures forall k :: 0 <= k < |lines| ==> '\n' !in lines[k]
    decreases |text|
  {
    if text == [] then []
    else
      var i := IndexOf(text, '\n');
      if i == |text| then [DropCR(text)] else [DropCR(text[..i])] + ScanLines(text[i + 1..])
  }

  /** A file made of `lines`, each ended by "\n". */
  function Unlines(lines: seq<string>): string {
    if lines == [] then "" else lines[0] + "\n" + Unlines(lines[1..])
  }

  lemma {:induction false} IndexOfFirst(a: string, b: string, c: char)
    requires c !in a
    ensures IndexOf(a + [c] + b, c) == |a|
    decreases |a|
  {
    if a != [] {
      assert (a + [c] + b)[1..] == a[1..] + [c] + b;
      IndexOfFirst(a[1..], b, c);
    }
  }

  /** Scanning a file written line by line gives the lines back, as long
      as no line holds "\n" or ends with "\r". */
  lemma {:induction false} ScanUnlines(lines: seq<string>)
    requires forall k :: 0 <= k < |lines| ==> '\n' !in lines[k] && (lines[k] == [] || lines[k][|lines[k]| - 1] != '\r')
    ensures ScanLines(Unlines(lines)) == lines
    decreases |lines|
  {
    if lines != [] {
      var text := Unlines(lines);
      var first := lines[0];
      IndexOfFirst(first, Unlines(lines[1..]), '\n');
      assert text == first + ['\n'] + Unlines(lines[1..]);
      assert text[..|first|] == first;
      assert text[|first| + 1..] == Unlines(lines[1..]);
      ScanUnlines(lines[1..]);
      assert lines == [first] + lines[1..];
    }
  }

  /** A file made of `lines`, each ended by "\r\n". */
  function UnlinesCRLF(lines: seq<string>): string {
    if lines == [] then "" else lines[0] + "\r\n" + UnlinesCRLF(lines[1..])
  }

  /** Scanning a file with Windows line ends gives the lines back without
      their "\r", as long as no line holds "\n". */
  lemma {:induction false} ScanUnlinesCRLF(lines: seq<string>)
    requires forall k :: 0 <= k < |lines| ==> '\n' !in lines[k]
    ensures ScanLines(UnlinesCRLF(lines)) == lines
    decreases |lines|
  {
    if lines != [] {
      var text := UnlinesCRLF(lines);
      var first := lines[0];
      var firstCR := first + "\r";
      assert '\n' !in firstCR;
      IndexOfFirst(firstCR, UnlinesCRLF(lines[1..]), '\n');
      assert text == firstCR + ['\n'] + UnlinesCRLF(lines[1..]);
      assert text[..|firstCR|] == firstCR;
      assert text[|firstCR| + 1..] == UnlinesCRLF(lines[1..]);
      assert DropCR(firstCR) == first;
      ScanUnlinesCRLF(lines[1..]);
      assert lines == [first] + lines[1..];
    }
  }

  /** The keys LoadAPIList puts in its map for `lines`: every trimmed line
      that is not empty. */
  function ApiSet(lines: seq<string>): set<string> {
    set l | l in lines && TrimSpace(l) != "" :: TrimSpace(l)
  }

  /** LoadAPIList, once the file is open: scan it line by line, trim each
      line and add it to the set unless it is empty. */
  method LoadApiList(text: string) returns (apiList: set<string>)
    ensures apiList == ApiSet(ScanLines(text))
  {
    var lines := ScanLines(text);
    apiList := {};
    var i := 0;
    while i < |lines|
      invariant 0 <= i <= |lines|
      invariant apiList == ApiSet(lines[..i])
    {
      var line := TrimSpace(lines[i]);
      ApiSetSnoc(lines[..i], lines[i]);
      assert lines[..i + 1] == lines[..i] + [lines[i]];
      if line != "" {
        apiList := apiList + {line};
      }
      i := i + 1;
    }
    assert lines[..i] == lines;
  }

  /** One more line adds its trimmed text, unless that is empty. */
  lemma ApiSetSnoc(lines: seq<string>, l: string)
    ensures ApiSet(lines + [l]) == ApiSet(lines) + (if TrimSpace(l) != "" then {TrimSpace(l)} else {})
  {
    var both := lines + [l];
    forall s | s in ApiSet(both)
      ensures s in ApiSet(lines) + (if TrimSpace(l) != "" then {TrimSpace(l)} else {})
    {
      var m :| m in both && TrimSpace(m) != "" && TrimSpace(m) == s;
      if m != l {
        assert m in lines;
      }
    }
    forall s | s in ApiSet(lines) ensures s in ApiSet(both) {
      var m :| m in lines && TrimSpace(m) != "" && TrimSpace(m) == s;
      assert m in both;
    }
    assert l in both;
  }

  /** A key is in the set exactly when it is not empty and some line
      trims to it; duplicate lines give one key. */
  lemma ApiSetMembers(lines: seq<string>, s: string)
    ensures s in ApiSet(lines) <==> s != "" && exists k :: 0 <= k < |lines| && TrimSpace(lines[k]) == s
  {
    if s in ApiSet(lines) {
      var l :| l in lines && TrimSpace(l) != "" && TrimSpace(l) == s;
      var k :| 0 <= k < |lines| && lines[k] == l;
    }
    if s != "" && exists k :: 0 <= k < |lines| && TrimSpace(lines[k]) == s {
      var k :| 0 <= k < |lines| && TrimSpace(lines[k]) == s;
      assert lines[k] in lines;
    }
  }

  /** Every key is already trimmed, so the empty key never appears and
      trimming a key again changes nothing. */
  lemma ApiSetTrimmed(lines: seq<string>)
    ensures "" !in ApiSet(lines)
    ensures forall s :: s in ApiSet(lines) ==> TrimSpace(s) == s
  {
    forall s | s in ApiSet(lines) ensures TrimSpace(s) == s {
      var l :| l in lines && TrimSpace(l) != "" && TrimSpace(l) == s;
      TrimIdempotent(l, GoSpace);
    }
  }

  /** There are never more keys than lines. */
  lemma {:induction false} ApiSetSize(lines: seq<string>)
    ensures |ApiSet(lines)| <= |lines|
    decreases |lines|
  {
    if lines != [] {
      var init := lines[..|lines| - 1];
      var l := lines[|lines| - 1];
      ApiSetSize(init);
      ApiSetSnoc(init, l);
      assert lines == init + [l];
    } else {
      assert ApiSet(lines) == {};
    }
  }
}
