/** The API matcher: LongestMatch picks, among the configured API path
    prefixes, the longest one the request path starts with. */
module Matcher {

  /** `r` is a longest match of `path` in `apiList`: it is "" or a member
      that `path` starts with, and no member `path` starts with is longer. */
  ghost predicate IsLongestMatch(path: string, apiList: set<string>, r: string) {
    && (r == "" || (r in apiList && r <= path))
    && forall api :: api in apiList && api <= path ==> |api| <= |r|
  }

  /** The longest non-empty prefix of `path` of length at most `k` that is
      in `apiList`, or "" when there is none. */
  function LongestPrefixUpTo(path: string, apiList: set<string>, k: nat): (r: string)
    requires k <= |path|
    ensures r <= path && |r| <= k
    ensures r == "" || r in apiList
    ensures forall api :: api in apiList && api <= path && |api| <= k ==> |api| <= |r|
  {
    if k == 0 then ""
    else if path[..k] in apiList then path[..k]
    else
      assert forall api :: api <= path && |api| == k ==> api == path[..k];
      LongestPrefixUpTo(path, apiList, k - 1)
  }

  /** A reference definition of the match, independent of any iteration
      order over `apiList`: try the prefixes of `path` from the longest
      down, never counting the empty one. */
  function LongestPrefix(path: string, apiList: set<string>): (r: string)
    ensures IsLongestMatch(path, apiList, r)
  {
    LongestPrefixUpTo(path, apiList, |path|)
  }

  /** Two prefixes of the same path with the same length are the same
      string, so there is only one longest match: however Go's map
      iteration breaks ties between equal lengths, the result is the same. */
  lemma LongestMatchUnique(path: string, apiList: set<string>, r: string)
    requires IsLongestMatch(path, apiList, r)
    ensures r == LongestPrefix(path, apiList)
  {
    var l := LongestPrefix(path, apiList);
    assert |l| <= |r| by {
      if l != "" { assert l in apiList && l <= path; }
    }
    assert |r| <= |l| by {
      if r != "" { assert r in apiList && r <= path; }
    }
    assert r == path[..|r|] && l == path[..|l|];
  }

  /** LongestMatch: scan the set in whatever order the map yields its keys,
      keeping a candidate only when it is a prefix of `apiPath` strictly
      longer than the best so far. */
  method LongestMatch(apiPath: string, apiList: set<string>) returns (longestMatch: string)
    ensures IsLongestMatch(apiPath, apiList, longestMatch)
    ensures longestMatch == LongestPrefix(apiPath, apiList)
  {
    longestMatch := "";
    var remaining := apiList;
    ghost var visited: set<string> := {};
    while remaining != {}
      invariant visited + remaining == apiList
      invariant longestMatch == "" || (longestMatch in apiList && longestMatch <= apiPath)
      invariant forall api :: api in visited && api <= apiPath ==> |api| <= |longestMatch|
      decreases |remaining|
    {
      var api :| api in remaining;
      if api <= apiPath && |api| > |longestMatch| {
        longestMatch := api;
      }
      remaining := remaining - {api};
      visited := visited + {api};
    }
    LongestMatchUnique(apiPath, apiList, longestMatch);
  }

  /** No match at all: the result is "" exactly when no non-empty member
      of `apiList` is a prefix of `path`; in particular for an empty set. */
  lemma NoMatch(path: string, apiList: set<string>)
    ensures LongestPrefix(path, apiList) == "" <==> forall api :: api in apiList && api <= path ==> api == ""
    ensures apiList == {} ==> LongestPrefix(path, apiList) == ""
  {
    var r := LongestPrefix(path, apiList);
    if r != "" {
      assert r in apiList && r <= path;
    }
  }

  /** Because the comparison is a strict "longer than", an empty entry in
      the set never displaces "": adding "" changes no result. */
  lemma EmptyEntryIgnored(path: string, apiList: set<string>)
    ensures LongestPrefix(path, apiList + {""}) == LongestPrefix(path, apiList)
  {
    var r := LongestPrefix(path, apiList);
    assert IsLongestMatch(path, apiList + {""}, r);
    LongestMatchUnique(path, apiList + {""}, r);
  }

  /** Among the members `path` starts with, the result is one of greatest
      length; a member that is a longer prefix than every other wins. */
  lemma MostSpecificWins(path: string, apiList: set<string>, api: string)
    requires api in apiList && api != "" && api <= path
    requires forall other :: other in apiList && other <= path ==> |other| <= |api|
    ensures LongestPrefix(path, apiList) == api
  {
    assert IsLongestMatch(path, apiList, api);
    LongestMatchUnique(path, apiList, api);
  }
}
