/** The Go standard-library string operations the log monitor relies on:
    strings.Contains, strings.Trim, strings.TrimSpace, strings.Fields, the
    search for a newline inside bufio's line readers, and the joining of
    printed values with a separator.
    Strings are sequences of Unicode scalar values (Go works on UTF-8 bytes;
    the two agree on valid UTF-8 text). */
module Text {

  /** The characters Go's unicode.IsSpace reports as white space: the six
      ASCII ones, NEL, NO-BREAK SPACE and the other Unicode White_Space
      code points. strings.Fields and strings.TrimSpace split and trim on
      exactly these. */
  const GoSpace: set<char> := {
    '\t', '\n', '\U{B}', '\U{C}', '\r', ' ', '\U{85}', '\U{A0}', '\U{1680}',
    '\U{2000}', '\U{2001}', '\U{2002}', '\U{2003}', '\U{2004}', '\U{2005}',
    '\U{2006}', '\U{2007}', '\U{2008}', '\U{2009}', '\U{200A}',
    '\U{2028}', '\U{2029}', '\U{202F}', '\U{205F}', '\U{3000}'
  }

  predicate AllIn(s: string, cut: set<char>) {
    forall i :: 0 <= i < |s| ==> s[i] in cut
  }

  predicate NoneIn(s: string, cut: set<char>) {
    forall i :: 0 <= i < |s| ==> s[i] !in cut
  }

  // ---------------------------------------------------------------------
  // Searching

  /** strings.Contains: does `sub` occur somewhere in `s`? */
  function Contains(s: string, sub: string): bool
    decreases |s|
  {
    if sub <= s then true
    else if s == [] then false
    else Contains(s[1..], sub)
  }

  /** Contains finds `sub` exactly when `sub` starts at some position of `s`. */
  lemma {:induction false} ContainsSpec(s: string, sub: string)
    ensures Contains(s, sub) <==> exists i :: 0 <= i <= |s| && sub <= s[i..]
    decreases |s|
  {
    if sub <= s {
      assert s[0..] == s;
    } else if s != [] {
      ContainsSpec(s[1..], sub);
      assert forall i :: 1 <= i <= |s| ==> s[1..][i - 1..] == s[i..];
      if exists i :: 0 <= i <= |s| && sub <= s[i..] {
        var i :| 0 <= i <= |s| && sub <= s[i..];
        assert i != 0;
        assert sub <= s[1..][i - 1..];
      }
    }
  }

  /** The index of the first `c` in `s`, or |s| when there is none: the
      newline search that bufio.Reader.ReadString and bufio.ScanLines do,
      and awk's search for the end of a record. */
  function IndexOf(s: string, c: char): (i: nat)
    ensures i <= |s|
    ensures c !in s[..i]
    ensures i < |s| ==> s[i] == c
  {
    if s == [] || s[0] == c then 0 else 1 + IndexOf(s[1..], c)
  }

  // ---------------------------------------------------------------------
  // Trimming

  /** strings.TrimLeft with a cutset: drop every leading character in `cut`. */
  function TrimLeft(s: string, cut: set<char>): string
    decreases |s|
  {
    if s != [] && s[0] in cut then TrimLeft(s[1..], cut) else s
  }

  /** strings.TrimRight with a cutset: drop every trailing character in `cut`. */
  function TrimRight(s: string, cut: set<char>): string
    decreases |s|
  {
    if s != [] && s[|s| - 1] in cut then TrimRight(s[..|s| - 1], cut) else s
  }

  /** TrimLeft removes a leading run of `cut` characters and stops at the
      first character outside `cut`. */
  lemma {:induction false} TrimLeftSpec(s: string, cut: set<char>)
    ensures var r := TrimLeft(s, cut);
            && |r| <= |s| && r == s[|s| - |r|..]
            && AllIn(s[..|s| - |r|], cut)
            && (r == [] || r[0] !in cut)
    decreases |s|
  {
    if s != [] && s[0] in cut {
      TrimLeftSpec(s[1..], cut);
      var r := TrimLeft(s, cut);
      assert s[1..][|s| - 1 - |r|..] == s[|s| - |r|..];
      forall i | 1 <= i < |s| - |r| ensures s[i] in cut {
        assert s[i] == s[1..][..|s| - 1 - |r|][i - 1];
      }
    } else {
      assert s[|s| - |s|..] == s;
    }
  }

  /** TrimRight removes a trailing run of `cut` characters and stops at the
      last character outside `cut`. */
  lemma {:induction false} TrimRightSpec(s: string, cut: set<char>)
    ensures var r := TrimRight(s, cut);
            && |r| <= |s| && r == s[..|r|]
            && AllIn(s[|r|..], cut)
            && (r == [] || r[|r| - 1] !in cut)
    decreases |s|
  {
    if s != [] && s[|s| - 1] in cut {
      var t := s[..|s| - 1];
      TrimRightSpec(t, cut);
      var r := TrimRight(s, cut);
      assert t[..|r|] == s[..|r|];
      forall i | |r| <= i < |s| ensures s[i] in cut {
        if i < |s| - 1 { assert s[i] == t[|r|..][i - |r|]; }
      }
      assert forall i :: 0 <= i < |s| - |r| ==> s[|r|..][i] == s[|r| + i];
    } else {
      assert s[..|s|] == s;
    }
  }

  /** s[i..j] is what is left of `s` once the maximal runs of `cut`
      characters at either end are removed. */
  ghost predicate TrimmedAt(s: string, cut: set<char>, i: int, j: int) {
    && 0 <= i <= j <= |s|
    && AllIn(s[..i], cut) && AllIn(s[j..], cut)
    && (i == j || (s[i] !in cut && s[j - 1] !in cut))
  }

  /** `r` is `s` with a maximal run of `cut` characters removed from each end. */
  ghost predicate IsTrimmed(s: string, cut: set<char>, r: string) {
    exists i, j :: TrimmedAt(s, cut, i, j) && r == s[i..j]
  }

  /** strings.Trim(s, cutset): TrimLeft, then TrimRight. */
  function Trim(s: string, cut: set<char>): string {
    TrimRight(TrimLeft(s, cut), cut)
  }

  /** Trim removes a maximal run of `cut` characters from each end. */
  lemma TrimSpec(s: string, cut: set<char>)
    ensures IsTrimmed(s, cut, Trim(s, cut))
  {
    var left := TrimLeft(s, cut);
    var r := TrimRight(left, cut);
    TrimLeftSpec(s, cut);
    TrimRightSpec(left, cut);
    var i := |s| - |left|;
    assert r == s[i..i + |r|];
    assert s[i + |r|..] == left[|r|..];
    assert TrimmedAt(s, cut, i, i + |r|);
  }

  /** strings.TrimSpace. */
  function TrimSpace(s: string): string {
    Trim(s, GoSpace)
  }

  lemma {:induction false} TrimLeftAt(s: string, cut: set<char>, i: nat)
    requires i <= |s| && AllIn(s[..i], cut) && (i == |s| || s[i] !in cut)
    ensures TrimLeft(s, cut) == s[i..]
    decreases i
  {
    if i > 0 {
      assert s[..i][0] == s[0];
      assert s[1..][..i - 1] == s[..i][1..];
      TrimLeftAt(s[1..], cut, i - 1);
      assert s[1..][i - 1..] == s[i..];
    }
  }

  lemma {:induction false} TrimRightAt(s: string, cut: set<char>, j: nat)
    requires j <= |s| && AllIn(s[j..], cut) && (j == 0 || s[j - 1] !in cut)
    ensures TrimRight(s, cut) == s[..j]
    decreases |s| - j
  {
    if j < |s| {
      assert s[j..][|s| - 1 - j] == s[|s| - 1];
      var t := s[..|s| - 1];
      assert t[j..] == s[j..][..|s| - 1 - j];
      TrimRightAt(t, cut, j);
      assert t[..j] == s[..j];
    }
  }

  lemma TrimAllCut(s: string, cut: set<char>)
    requires AllIn(s, cut)
    ensures Trim(s, cut) == []
  {
    assert s[..|s|] == s;
    TrimLeftAt(s, cut, |s|);
  }

  /** Trim's result is the slice its characterisation names. */
  lemma TrimmedAtIsTrim(s: string, cut: set<char>, i: int, j: int)
    requires TrimmedAt(s, cut, i, j)
    ensures Trim(s, cut) == s[i..j]
  {
    if i == j {
      forall k | 0 <= k < |s| ensures s[k] in cut {
        if k < i { assert s[k] == s[..i][k]; } else { assert s[k] == s[j..][k - j]; }
      }
      TrimAllCut(s, cut);
    } else {
      TrimLeftAt(s, cut, i);
      var left := s[i..];
      assert left[j - i..] == s[j..];
      TrimRightAt(left, cut, j - i);
      assert left[..j - i] == s[i..j];
    }
  }

  /** Trimming is fully determined by its characterisation: nothing but
      Trim's result is a maximal trim. */
  lemma TrimUnique(s: string, cut: set<char>, r: string)
    requires IsTrimmed(s, cut, r)
    ensures r == Trim(s, cut)
  {
    var i, j :| TrimmedAt(s, cut, i, j) && r == s[i..j];
    TrimmedAtIsTrim(s, cut, i, j);
  }

  /** Trimming twice is trimming once. */
  lemma TrimIdempotent(s: string, cut: set<char>)
    ensures Trim(Trim(s, cut), cut) == Trim(s, cut)
  {
    var t := Trim(s, cut);
    TrimSpec(s, cut);
    assert t[0..|t|] == t && t[..0] == [] && t[|t|..] == [];
    assert TrimmedAt(t, cut, 0, |t|);
    TrimUnique(t, cut, t);
  }

  // ---------------------------------------------------------------------
  // Splitting and joining

  /** The length of the leading run of characters outside `ws`. */
  function TokenLen(s: string, ws: set<char>): (n: nat)
    ensures n <= |s|
    ensures NoneIn(s[..n], ws)
    ensures n < |s| ==> s[n] in ws
  {
    if s == [] || s[0] in ws then 0 else 1 + TokenLen(s[1..], ws)
  }

  /** strings.Fields, with the separator set as a parameter: the maximal
      runs of characters outside `ws`, in order. The contract gives the
      shape of each field; which fields come out is pinned down by
      FieldsOfSpaces, FieldsOfToken and FieldsAppend below. */
  function Fields(s: string, ws: set<char>): (r: seq<string>)
    ensures forall k :: 0 <= k < |r| ==> r[k] != [] && NoneIn(r[k], ws)
    decreases |s|
  {
    if s == [] then []
    else if s[0] in ws then Fields(s[1..], ws)
    else
      var n := TokenLen(s, ws);
      [s[..n]] + Fields(s[n..], ws)
  }

  /** The parts separated by `sep` (what a print statement with several
      arguments and an output separator writes). */
  function Join(parts: seq<string>, sep: string): string {
    if |parts| == 0 then ""
    else if |parts| == 1 then parts[0]
    else parts[0] + sep + Join(parts[1..], sep)
  }

  /** The fields of every part, concatenated. */
  function FlatFields(parts: seq<string>, ws: set<char>): seq<string> {
    if parts == [] then [] else Fields(parts[0], ws) + FlatFields(parts[1..], ws)
  }

  /** The non-empty parts, in order. */
  function NonEmpty(parts: seq<string>): (r: seq<string>)
    ensures |r| <= |parts|
    ensures forall k :: 0 <= k < |r| ==> r[k] != []
  {
    if parts == [] then []
    else if parts[0] == [] then NonEmpty(parts[1..])
    else [parts[0]] + NonEmpty(parts[1..])
  }

  lemma {:induction false} FieldsOfSpaces(s: string, ws: set<char>)
    requires AllIn(s, ws)
    ensures Fields(s, ws) == []
    decreases |s|
  {
    if s != [] {
      FieldsOfSpaces(s[1..], ws);
    }
  }

  /** A single token splits into itself. */
  lemma FieldsOfToken(t: string, ws: set<char>)
    requires t != [] && NoneIn(t, ws)
    ensures Fields(t, ws) == [t]
  {
    var n := TokenLen(t, ws);
    assert n == |t|;
    assert t[..n] == t && t[n..] == [];
  }

  lemma {:induction false} TokenLenAppend(x: string, y: string, ws: set<char>)
    requires TokenLen(x, ws) < |x| || y == [] || y[0] in ws
    ensures TokenLen(x + y, ws) == TokenLen(x, ws)
    decreases |x|
  {
    if x == [] {
      assert x + y == y;
    } else if x[0] !in ws {
      assert (x + y)[1..] == x[1..] + y;
      TokenLenAppend(x[1..], y, ws);
    }
  }

  /** Splitting distributes over a concatenation that is already separated
      at the seam. */
  lemma {:induction false} FieldsAppend(x: string, y: string, ws: set<char>)
    requires x == [] || x[|x| - 1] in ws || y == [] || y[0] in ws
    ensures Fields(x + y, ws) == Fields(x, ws) + Fields(y, ws)
    decreases |x|
  {
    if x == [] {
      assert x + y == y;
    } else if y == [] {
      assert x + y == x;
    } else if x[0] in ws {
      assert (x + y)[1..] == x[1..] + y;
      FieldsAppend(x[1..], y, ws);
    } else {
      var n := TokenLen(x, ws);
      TokenLenAppend(x, y, ws);
      assert (x + y)[..n] == x[..n];
      assert (x + y)[n..] == x[n..] + y;
      FieldsAppend(x[n..], y, ws);
    }
  }

  /** Splitting what Join wrote, followed by trailing separators, gives back
      the fields of the parts: the inverse of joining. */
  lemma {:induction false} FieldsOfJoin(parts: seq<string>, sep: string, tail: string, ws: set<char>)
    requires sep != [] && AllIn(sep, ws) && AllIn(tail, ws)
    ensures Fields(Join(parts, sep) + tail, ws) == FlatFields(parts, ws)
    decreases |parts|
  {
    if |parts| == 0 {
      assert Join(parts, sep) + tail == tail;
      FieldsOfSpaces(tail, ws);
    } else if |parts| == 1 {
      FieldsAppend(parts[0], tail, ws);
      FieldsOfSpaces(tail, ws);
      assert FlatFields(parts[1..], ws) == [];
    } else {
      var rest := Join(parts[1..], sep) + tail;
      assert Join(parts, sep) + tail == parts[0] + (sep + rest);
      FieldsAppend(parts[0], sep + rest, ws);
      FieldsAppend(sep, rest, ws);
      FieldsOfSpaces(sep, ws);
      assert Fields(sep + rest, ws) == Fields(rest, ws);
      FieldsOfJoin(parts[1..], sep, tail, ws);
    }
  }

  /** When every part is empty or a single token, splitting the parts just
      drops the empty ones. */
  lemma {:induction false} FlatFieldsOfTokens(parts: seq<string>, ws: set<char>)
    requires forall k :: 0 <= k < |parts| ==> NoneIn(parts[k], ws)
    ensures FlatFields(parts, ws) == NonEmpty(parts)
    decreases |parts|
  {
    if parts != [] {
      if parts[0] != [] {
        FieldsOfToken(parts[0], ws);
      }
      FlatFieldsOfTokens(parts[1..], ws);
    }
  }

  /** Splitting the joined tokens restores them exactly. */
  lemma FieldsJoinRoundTrip(tokens: seq<string>, ws: set<char>)
    requires ' ' in ws
    requires forall k :: 0 <= k < |tokens| ==> tokens[k] != [] && NoneIn(tokens[k], ws)
    ensures Fields(Join(tokens, " "), ws) == tokens
  {
    assert Join(tokens, " ") + "" == Join(tokens, " ");
    FieldsOfJoin(tokens, " ", "", ws);
    FlatFieldsOfTokens(tokens, ws);
    NonEmptyOfNonEmpty(tokens);
  }

  lemma {:induction false} NonEmptyOfNonEmpty(parts: seq<string>)
    requires forall k :: 0 <= k < |parts| ==> parts[k] != []
    ensures NonEmpty(parts) == parts
    decreases |parts|
  {
    if parts != [] {
      NonEmptyOfNonEmpty(parts[1..]);
    }
  }

  /** An empty part is always dropped, so something is lost. */
  lemma {:induction false} NonEmptyDropsEmpty(parts: seq<string>, k: nat)
    requires k < |parts| && parts[k] == []
    ensures |NonEmpty(parts)| < |parts|
    decreases |parts|
  {
    if k > 0 {
      NonEmptyDropsEmpty(parts[1..], k - 1);
    }
  }
}
