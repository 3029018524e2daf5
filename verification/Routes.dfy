/**
 * Inspection policies per route, from src/config.rs: the routes whose prefix matches the canonical
 * path, sorted by the length of the prefix, overlay their patches on the open policy.
 */
module Routes {
  import opened Wrappers
  import opened Utf8
  import opened Canonical

  const QUESTION: Byte := 63

  datatype Action = Deny | Monitor

  datatype Policy = Policy(requireComplete: bool, onTruncated: Action, onParseError: Action,
                           maxDecodedBody: Option<nat>)

  /** What a route says; the textual forms have been parsed. */
  datatype Patch = Patch(requireComplete: Option<bool>, onTruncated: Option<Action>, onParseError: Option<Action>,
                         maxDecodedBody: Option<nat>)

  datatype Route = Route(prefix: Bytes, patch: Patch)

  const OPEN := Policy(false, Monitor, Monitor, None)
  const FAIL_CLOSED := Policy(true, Deny, Deny, None)

  function Or<T>(a: Option<T>, b: T): T { if a.Some? then a.value else b }

  function OrElse<T>(a: Option<T>, b: Option<T>): Option<T> { if a.Some? then a else b }

  function Overlay(base: Policy, patch: Patch): Policy {
    var requireComplete := Or(patch.requireComplete, base.requireComplete);
    var derived := if requireComplete then Deny else Monitor;
    Policy(requireComplete,
           Or(patch.onTruncated, if patch.requireComplete.Some? then derived else base.onTruncated),
           Or(patch.onParseError, if patch.requireComplete.Some? then derived else base.onParseError),
           OrElse(patch.maxDecodedBody, base.maxDecodedBody))
  }

  predicate DeniesIncomplete(patch: Patch) {
    patch.requireComplete == Some(true) || patch.onTruncated == Some(Deny) || patch.onParseError == Some(Deny)
  }

  predicate PathMatchesPrefix(path: Bytes, prefix: Bytes) {
    || path == prefix
    || prefix == [SLASH]
    || (prefix != [] && prefix[|prefix| - 1] == SLASH && prefix <= path)
    || (prefix <= path && |prefix| < |path| && path[|prefix|] == SLASH)
  }

  // ----- prefix matching is the prefix relation on segments -----------------------------------------------

  lemma {:induction false} SplitApart(a: Bytes, b: Bytes)
    ensures Split(a + [SLASH] + b) == Split(a) + Split(b)
    decreases |a|
  {
    hide Split;
    if SLASH !in a {
      SplitFirst(a, b);
      SplitPlain(a);
    } else {
      var k := IndexOfSlash(a);
      var head, tail := a[..k], a[k + 1..];
      SplitFirst(head, tail);
      assert a == head + [SLASH] + tail;
      SplitApart(tail, b);
      SplitFirst(head, tail + [SLASH] + b);
      assert a + [SLASH] + b == head + [SLASH] + (tail + [SLASH] + b);
      assert [head] + (Split(tail) + Split(b)) == [head] + Split(tail) + Split(b);
    }
  }

  lemma {:induction false} SplitPlain(s: Bytes)
    requires SLASH !in s
    ensures Split(s) == [s]
  {}

  lemma {:induction false} RenderIsInjective(ps: seq<Bytes>, qs: seq<Bytes>)
    requires AreSegments(ps) && AreSegments(qs) && Render(ps) == Render(qs)
    ensures ps == qs
  {
    hide Split, Render;
    SplitRender(ps);
    SplitRender(qs);
    var none: seq<Bytes> := [[]];
    var ps', qs' := if ps == [] then none else ps, if qs == [] then none else qs;
    assert (none + ps')[1..] == ps' && (none + qs')[1..] == qs';
    assert ps' == qs';
    assert qs != [] ==> IsSegment(qs[0]);
    assert ps != [] ==> IsSegment(ps[0]);
  }

  lemma {:induction false} JoinAppend(ps: seq<Bytes>, qs: seq<Bytes>)
    requires ps != [] && qs != []
    ensures Join(ps + qs) == Join(ps) + [SLASH] + Join(qs)
    decreases |ps|
  {
    if |ps| == 1 {
      assert (ps + qs)[1..] == qs;
    } else {
      assert (ps + qs)[1..] == ps[1..] + qs;
      JoinAppend(ps[1..], qs);
      assert ps[0] + [SLASH] + (Join(ps[1..]) + [SLASH] + Join(qs)) ==
             ps[0] + [SLASH] + Join(ps[1..]) + [SLASH] + Join(qs);
    }
  }

  lemma {:induction false} PrefixMatches(ps: seq<Bytes>, qs: seq<Bytes>)
    requires AreSegments(ps) && AreSegments(qs) && qs <= ps
    ensures PathMatchesPrefix(Render(ps), Render(qs))
  {
    if qs != [] && qs != ps {
      var rest := ps[|qs|..];
      assert ps == qs + rest;
      JoinAppend(qs, rest);
      assert Render(ps) == Render(qs) + ([SLASH] + Join(rest));
    }
  }

  lemma {:induction false} MatchIsPrefix(ps: seq<Bytes>, qs: seq<Bytes>)
    requires AreSegments(ps) && AreSegments(qs) && PathMatchesPrefix(Render(ps), Render(qs))
    ensures qs <= ps
  {
    var path, prefix := Render(ps), Render(qs);
    if path == prefix {
      RenderIsInjective(ps, qs);
    } else if qs != [] {
      LastByte(qs);
      var rest := path[|prefix| + 1..];
      assert path == prefix + [SLASH] + rest;
      SplitApart(prefix, rest);
      SplitRender(ps);
      SplitRender(qs);
      MatchedPieces(ps, qs, Split(rest));
    }
  }

  lemma {:induction false} MatchedPieces(ps: seq<Bytes>, qs: seq<Bytes>, more: seq<Bytes>)
    requires AreSegments(qs) && qs != [] && more != []
    requires var none: seq<Bytes> := [[]]; none + (if ps == [] then none else ps) == none + qs + more
    ensures qs <= ps
  {
    var none: seq<Bytes> := [[]];
    var ps' := if ps == [] then none else ps;
    assert (none + ps')[1..] == ps';
    assert (none + qs + more)[1..] == qs + more;
    assert ps' == qs + more;
    assert |ps'| >= 2;
  }

  lemma {:induction false} LastByte(qs: seq<Bytes>)
    requires AreSegments(qs) && qs != []
    ensures var s := Render(qs); s != [] && s[|s| - 1] != SLASH && s != [SLASH]
    decreases |qs|
  {
    assert IsSegment(qs[0]);
    if |qs| > 1 {
      assert forall i :: 0 <= i < |qs[1..]| ==> qs[1..][i] == qs[i + 1];
      LastByte(qs[1..]);
    } else {
      assert qs[0][|qs[0]| - 1] in qs[0];
    }
  }

  /** On canonical paths a prefix matches exactly when its segments are the first ones of the path. */
  lemma {:induction false} MatchingIsOnSegments(ps: seq<Bytes>, qs: seq<Bytes>)
    requires AreSegments(ps) && AreSegments(qs)
    ensures PathMatchesPrefix(Render(ps), Render(qs)) <==> qs <= ps
  {
    if PathMatchesPrefix(Render(ps), Render(qs)) {
      MatchIsPrefix(ps, qs);
    }
    if qs <= ps {
      PrefixMatches(ps, qs);
    }
  }

  ghost predicate IsCanonical(path: Bytes) { exists segments :: AreSegments(segments) && path == Render(segments) }

  lemma {:induction false} RenderGrows(qs: seq<Bytes>, rs: seq<Bytes>)
    requires AreSegments(rs) && qs <= rs
    ensures |Render(qs)| <= |Render(rs)| && (|Render(qs)| == |Render(rs)| ==> qs == rs)
  {
    if qs == [] && rs != [] {
      assert IsSegment(rs[0]);
    } else if qs != rs {
      var rest := rs[|qs|..];
      assert rs == qs + rest;
      JoinAppend(qs, rest);
    }
  }

  /** The canonical prefixes that match one path form a chain: the shorter one matches the longer one. */
  lemma {:induction false} MatchesFormAChain(path: Bytes, a: Bytes, b: Bytes)
    requires IsCanonical(path) && IsCanonical(a) && IsCanonical(b)
    requires PathMatchesPrefix(path, a) && PathMatchesPrefix(path, b) && |a| <= |b|
    ensures PathMatchesPrefix(b, a) && (|a| == |b| ==> a == b)
  {
    var ps :| AreSegments(ps) && path == Render(ps);
    var qs :| AreSegments(qs) && a == Render(qs);
    var rs :| AreSegments(rs) && b == Render(rs);
    hide Render, PathMatchesPrefix;
    MatchingIsOnSegments(ps, qs);
    MatchingIsOnSegments(ps, rs);
    if |rs| < |qs| {
      assert rs <= qs;
      RenderGrows(rs, qs);
    }
    assert qs <= rs;
    RenderGrows(qs, rs);
    MatchingIsOnSegments(rs, qs);
  }

  lemma {:induction false} MatchingIsTransitive(path: Bytes, b: Bytes, a: Bytes)
    requires IsCanonical(path) && IsCanonical(a) && IsCanonical(b)
    requires PathMatchesPrefix(path, b) && PathMatchesPrefix(b, a)
    ensures PathMatchesPrefix(path, a) && |a| <= |b|
  {
    var ps :| AreSegments(ps) && path == Render(ps);
    var qs :| AreSegments(qs) && a == Render(qs);
    var rs :| AreSegments(rs) && b == Render(rs);
    hide Render, PathMatchesPrefix;
    MatchingIsOnSegments(ps, rs);
    MatchingIsOnSegments(rs, qs);
    RenderGrows(qs, rs);
    MatchingIsOnSegments(ps, qs);
  }

  // ----- the policy of a path ---------------------------------------------------------------------------------

  function Matching(routes: seq<Route>, path: Bytes): seq<Route> {
    if routes == [] then []
    else (if PathMatchesPrefix(path, routes[0].prefix) then [routes[0]] else []) + Matching(routes[1..], path)
  }

  /** Insertion after every route that is not longer: what a stable sort by length does with its last element. */
  function Insert(sorted: seq<Route>, r: Route): seq<Route> {
    if sorted == [] then [r]
    else if |r.prefix| < |sorted[|sorted| - 1].prefix| then Insert(sorted[..|sorted| - 1], r) + [sorted[|sorted| - 1]]
    else sorted + [r]
  }

  function SortByLength(routes: seq<Route>): seq<Route> {
    if routes == [] then [] else Insert(SortByLength(routes[..|routes| - 1]), routes[|routes| - 1])
  }

  function OverlayAll(base: Policy, routes: seq<Route>): Policy {
    if routes == [] then base else Overlay(OverlayAll(base, routes[..|routes| - 1]), routes[|routes| - 1].patch)
  }

  function PolicyAt(routes: seq<Route>, path: Bytes): Policy { OverlayAll(OPEN, SortByLength(Matching(routes, path))) }

  function BeforeQuery(uri: Bytes): Bytes {
    if uri == [] || uri[0] == QUESTION then [] else [uri[0]] + BeforeQuery(uri[1..])
  }

  function PolicyOfUri(routes: seq<Route>, uri: Bytes): Policy {
    match CanonicalPath(BeforeQuery(uri))
    case Some(path) => PolicyAt(routes, path)
    case None =>
      if exists i :: 0 <= i < |routes| && DeniesIncomplete(routes[i].patch) then FAIL_CLOSED else OPEN
  }

  method InspectionPolicy(routes: seq<Route>, uri: Bytes) returns (policy: Policy)
    ensures policy == PolicyOfUri(routes, uri)
  {
    var canonical := CanonicalRoutePath(BeforeQuery(uri));
    if canonical.None? {
      return if exists i :: 0 <= i < |routes| && DeniesIncomplete(routes[i].patch) then FAIL_CLOSED else OPEN;
    }
    var path := canonical.value;
    var matching: seq<Route> := [];
    assert routes[0..] == routes && [] + Matching(routes, path) == Matching(routes, path);
    for i := 0 to |routes|
      invariant Matching(routes, path) == matching + Matching(routes[i..], path)
    {
      assert routes[i..][1..] == routes[i + 1..];
      if PathMatchesPrefix(path, routes[i].prefix) {
        assert matching + ([routes[i]] + Matching(routes[i + 1..], path)) ==
               matching + [routes[i]] + Matching(routes[i + 1..], path);
        matching := matching + [routes[i]];
      } else {
        assert [] + Matching(routes[i + 1..], path) == Matching(routes[i + 1..], path);
      }
    }
    assert matching + [] == matching;
    var sorted := SortByLength(matching);
    policy := OPEN;
    for i := 0 to |sorted|
      invariant policy == OverlayAll(OPEN, sorted[..i])
    {
      assert sorted[..i + 1][..i] == sorted[..i];
      policy := Overlay(policy, sorted[i].patch);
    }
    assert sorted[..|sorted|] == sorted;
  }

  lemma {:induction false} MatchingMembers(routes: seq<Route>, path: Bytes, r: Route)
    ensures r in Matching(routes, path) <==> r in routes && PathMatchesPrefix(path, r.prefix)
  {
    if routes != [] {
      MatchingMembers(routes[1..], path, r);
      assert r in routes <==> r == routes[0] || r in routes[1..];
    }
  }

  lemma {:induction false} InsertMembers(sorted: seq<Route>, r: Route, x: Route)
    ensures x in Insert(sorted, r) <==> x == r || x in sorted
  {
    if sorted != [] {
      var n := |sorted| - 1;
      InsertMembers(sorted[..n], r, x);
      assert sorted == sorted[..n] + [sorted[n]];
    }
  }

  ghost predicate Ascending(routes: seq<Route>) {
    forall i, j :: 0 <= i < j < |routes| ==> |routes[i].prefix| <= |routes[j].prefix|
  }

  lemma {:induction false} InsertAscends(sorted: seq<Route>, r: Route)
    requires Ascending(sorted)
    ensures Ascending(Insert(sorted, r))
  {
    if sorted != [] && |r.prefix| < |sorted[|sorted| - 1].prefix| {
      var n := |sorted| - 1;
      InsertAscends(sorted[..n], r);
      var front := Insert(sorted[..n], r);
      forall i | 0 <= i < |front|
        ensures |front[i].prefix| <= |sorted[n].prefix|
      {
        InsertMembers(sorted[..n], r, front[i]);
      }
    }
  }

  lemma {:induction false} SortedMembers(routes: seq<Route>, x: Route)
    ensures x in SortByLength(routes) <==> x in routes
  {
    if routes != [] {
      var n := |routes| - 1;
      SortedMembers(routes[..n], x);
      InsertMembers(SortByLength(routes[..n]), routes[n], x);
      assert routes == routes[..n] + [routes[n]];
    }
  }

  lemma {:induction false} SortAscends(routes: seq<Route>)
    ensures Ascending(SortByLength(routes))
  {
    if routes != [] {
      SortAscends(routes[..|routes| - 1]);
      InsertAscends(SortByLength(routes[..|routes| - 1]), routes[|routes| - 1]);
    }
  }

  // ----- the longest prefix that decides a field wins -----------------------------------------------------------

  datatype Field = RequireComplete | OnTruncated | OnParseError | MaxDecodedBody

  /** The value of a field, in one type for all of them. */
  datatype Setting = Flag(b: bool) | Act(a: Action) | Limit(n: Option<nat>)

  function SettingOf(p: Policy, f: Field): Setting {
    match f
    case RequireComplete => Flag(p.requireComplete)
    case OnTruncated => Act(p.onTruncated)
    case OnParseError => Act(p.onParseError)
    case MaxDecodedBody => Limit(p.maxDecodedBody)
  }

  function Derived(requireComplete: Option<bool>): Option<Setting> {
    if requireComplete.None? then None else Some(Act(if requireComplete.value then Deny else Monitor))
  }

  /** What a patch alone decides about a field; completeness also decides the two actions. */
  function Decides(patch: Patch, f: Field): Option<Setting> {
    match f
    case RequireComplete => if patch.requireComplete.None? then None else Some(Flag(patch.requireComplete.value))
    case OnTruncated =>
      if patch.onTruncated.Some? then Some(Act(patch.onTruncated.value)) else Derived(patch.requireComplete)
    case OnParseError =>
      if patch.onParseError.Some? then Some(Act(patch.onParseError.value)) else Derived(patch.requireComplete)
    case MaxDecodedBody => if patch.maxDecodedBody.None? then None else Some(Limit(patch.maxDecodedBody))
  }

  /** A patch sets what it names; completeness, when named, also sets the actions that are not. */
  lemma {:induction false} OverlaySetsWhatItNames(base: Policy, patch: Patch)
    ensures var p := Overlay(base, patch);
            && (patch.requireComplete.Some? ==> p.requireComplete == patch.requireComplete.value)
            && (patch.requireComplete.None? ==> p.requireComplete == base.requireComplete)
            && (patch.onTruncated.Some? ==> p.onTruncated == patch.onTruncated.value)
            && (patch.onParseError.Some? ==> p.onParseError == patch.onParseError.value)
            && (patch.onTruncated.None? ==>
                  p.onTruncated == if patch.requireComplete == Some(true) then Deny
                                   else if patch.requireComplete == Some(false) then Monitor else base.onTruncated)
            && (patch.onParseError.None? ==>
                  p.onParseError == if patch.requireComplete == Some(true) then Deny
                                    else if patch.requireComplete == Some(false) then Monitor else base.onParseError)
            && p.maxDecodedBody == if patch.maxDecodedBody.Some? then patch.maxDecodedBody else base.maxDecodedBody
  {}

  lemma {:induction false} OverlayDecides(base: Policy, patch: Patch, f: Field)
    ensures SettingOf(Overlay(base, patch), f) == Or(Decides(patch, f), SettingOf(base, f))
  {}

  /** Some route decides the field last, or none does and the field is untouched. */
  lemma {:induction false} LastDecides(base: Policy, routes: seq<Route>, f: Field) returns (last: int)
    ensures -1 <= last < |routes|
    ensures last == -1 ==> SettingOf(OverlayAll(base, routes), f) == SettingOf(base, f)
    ensures last >= 0 ==> Decides(routes[last].patch, f) == Some(SettingOf(OverlayAll(base, routes), f))
    ensures forall i :: last < i < |routes| ==> Decides(routes[i].patch, f).None?
  {
    last := -1;
    if routes != [] {
      var n := |routes| - 1;
      OverlayDecides(OverlayAll(base, routes[..n]), routes[n].patch, f);
      if Decides(routes[n].patch, f).Some? {
        last := n;
      } else {
        last := LastDecides(base, routes[..n], f);
        assert forall i :: 0 <= i < n ==> routes[..n][i] == routes[i];
      }
    }
  }

  /** Among the routes that match, `r` decides the field and no other that does is as long. */
  ghost predicate IsLongestDecider(routes: seq<Route>, path: Bytes, f: Field, r: Route) {
    && r in routes && PathMatchesPrefix(path, r.prefix) && Decides(r.patch, f).Some?
    && forall other :: other in routes && PathMatchesPrefix(path, other.prefix) && Decides(other.patch, f).Some? ==>
                         other == r || |other.prefix| < |r.prefix|
  }

  ghost predicate HasDecider(routes: seq<Route>, path: Bytes, f: Field) {
    exists r :: r in routes && PathMatchesPrefix(path, r.prefix) && Decides(r.patch, f).Some?
  }

  ghost predicate DistinctPrefixes(routes: seq<Route>) {
    forall i, j :: 0 <= i < j < |routes| ==> routes[i].prefix != routes[j].prefix
  }

  ghost predicate CanonicalPrefixes(routes: seq<Route>) {
    forall i :: 0 <= i < |routes| ==> IsCanonical(routes[i].prefix)
  }

  /** The route that decides last in sorted order. */
  lemma {:induction false} DecidedLast(routes: seq<Route>, path: Bytes, f: Field) returns (r: Option<Route>)
    ensures r.None? ==> !HasDecider(routes, path, f) && SettingOf(PolicyAt(routes, path), f) == SettingOf(OPEN, f)
    ensures r.Some? ==>
              && r.value in routes && PathMatchesPrefix(path, r.value.prefix)
              && Decides(r.value.patch, f) == Some(SettingOf(PolicyAt(routes, path), f))
              && forall other ::
                   other in routes && PathMatchesPrefix(path, other.prefix) && Decides(other.patch, f).Some? ==>
                     |other.prefix| <= |r.value.prefix|
  {
    hide Decides, PathMatchesPrefix, OverlayAll;
    var sorted := SortByLength(Matching(routes, path));
    SortAscends(Matching(routes, path));
    var last := LastDecides(OPEN, sorted, f);
    forall x
      ensures x in sorted <==> x in routes && PathMatchesPrefix(path, x.prefix)
    {
      SortedMembers(Matching(routes, path), x);
      MatchingMembers(routes, path, x);
    }
    hide SortByLength, Matching;
    if last == -1 {
      r := None;
    } else {
      assert sorted[last] in sorted;
      r := Some(sorted[last]);
    }
  }

  /**
   * For routes with distinct canonical prefixes each field of the policy is what the longest matching
   * prefix that decides it says, and the open policy's value when none does.
   */
  lemma {:induction false} LongestDeciderWins(routes: seq<Route>, path: Bytes, f: Field)
    requires DistinctPrefixes(routes) && CanonicalPrefixes(routes) && IsCanonical(path)
    ensures !HasDecider(routes, path, f) ==> SettingOf(PolicyAt(routes, path), f) == SettingOf(OPEN, f)
    ensures HasDecider(routes, path, f) ==> exists r :: IsLongestDecider(routes, path, f, r)
    ensures forall r :: IsLongestDecider(routes, path, f, r) ==>
              Decides(r.patch, f) == Some(SettingOf(PolicyAt(routes, path), f))
  {
    hide Decides, PathMatchesPrefix, PolicyAt, IsCanonical;
    var last := DecidedLast(routes, path, f);
    if last.Some? {
      forall other | other in routes && PathMatchesPrefix(path, other.prefix) && Decides(other.patch, f).Some?
        ensures other == last.value || |other.prefix| < |last.value.prefix|
      {
        if |other.prefix| == |last.value.prefix| {
          MatchesFormAChain(path, other.prefix, last.value.prefix);
          SamePrefixSameRoute(routes, other, last.value);
        }
      }
      assert IsLongestDecider(routes, path, f, last.value);
    }
  }

  lemma {:induction false} SamePrefixSameRoute(routes: seq<Route>, a: Route, b: Route)
    requires DistinctPrefixes(routes) && a in routes && b in routes && a.prefix == b.prefix
    ensures a == b
  {}

  /** Hence the order in which routes are declared does not matter. */
  lemma {:induction false} DeclarationOrderIsIrrelevant(routes: seq<Route>, other: seq<Route>, path: Bytes)
    requires DistinctPrefixes(routes) && CanonicalPrefixes(routes) && DistinctPrefixes(other)
             && CanonicalPrefixes(other)
    requires IsCanonical(path) && forall r :: r in routes <==> r in other
    ensures PolicyAt(routes, path) == PolicyAt(other, path)
  {
    hide Decides, PathMatchesPrefix, PolicyAt, DistinctPrefixes, CanonicalPrefixes, IsCanonical;
    forall f
      ensures SettingOf(PolicyAt(routes, path), f) == SettingOf(PolicyAt(other, path), f)
    {
      LongestDeciderWins(routes, path, f);
      LongestDeciderWins(other, path, f);
      if HasDecider(routes, path, f) {
        var r :| IsLongestDecider(routes, path, f, r);
        assert IsLongestDecider(other, path, f, r);
      }
    }
    var p, q := PolicyAt(routes, path), PolicyAt(other, path);
    assert SettingOf(p, RequireComplete) == SettingOf(q, RequireComplete);
    assert SettingOf(p, OnTruncated) == SettingOf(q, OnTruncated);
    assert SettingOf(p, OnParseError) == SettingOf(q, OnParseError);
    assert SettingOf(p, MaxDecodedBody) == SettingOf(q, MaxDecodedBody);
  }

  // ----- a finite check covers every URI ----------------------------------------------------------------------

  lemma {:induction false} SameMatching(routes: seq<Route>, a: Bytes, b: Bytes)
    requires forall i :: 0 <= i < |routes| ==>
               PathMatchesPrefix(a, routes[i].prefix) == PathMatchesPrefix(b, routes[i].prefix)
    ensures Matching(routes, a) == Matching(routes, b)
  {
    hide PathMatchesPrefix;
    if routes != [] {
      assert PathMatchesPrefix(a, routes[0].prefix) == PathMatchesPrefix(b, routes[0].prefix);
      SameMatching(routes[1..], a, b);
    }
  }

  /** The policy of any path is the policy of the longest prefix that matches it, or the open one. */
  lemma {:induction false} PolicyOfLongestPrefix(routes: seq<Route>, path: Bytes) returns (longest: Option<Route>)
    requires CanonicalPrefixes(routes) && IsCanonical(path)
    ensures longest.None? ==>
              && PolicyAt(routes, path) == OPEN
              && forall i :: 0 <= i < |routes| ==> !PathMatchesPrefix(path, routes[i].prefix)
    ensures longest.Some? ==>
              && longest.value in routes && PathMatchesPrefix(path, longest.value.prefix)
              && (forall i :: 0 <= i < |routes| && PathMatchesPrefix(path, routes[i].prefix) ==>
                  |routes[i].prefix| <= |longest.value.prefix|)
              && PolicyAt(routes, path) == PolicyAt(routes, longest.value.prefix)
  {
    hide PathMatchesPrefix, IsCanonical;
    var matching := Matching(routes, path);
    if matching == [] {
      forall i | 0 <= i < |routes| ensures !PathMatchesPrefix(path, routes[i].prefix) {
        MatchingMembers(routes, path, routes[i]);
      }
      return None;
    }
    var sorted := SortByLength(matching);
    SortAscends(matching);
    SortedMembers(matching, matching[0]);
    var q := sorted[|sorted| - 1];
    SortedMembers(matching, q);
    MatchingMembers(routes, path, q);
    forall i | 0 <= i < |routes|
      ensures PathMatchesPrefix(path, routes[i].prefix) == PathMatchesPrefix(q.prefix, routes[i].prefix)
      ensures PathMatchesPrefix(path, routes[i].prefix) ==> |routes[i].prefix| <= |q.prefix|
    {
      var r := routes[i];
      if PathMatchesPrefix(path, r.prefix) {
        MatchingMembers(routes, path, r);
        SortedMembers(matching, r);
        MatchesFormAChain(path, r.prefix, q.prefix);
      } else if PathMatchesPrefix(q.prefix, r.prefix) {
        MatchingIsTransitive(path, q.prefix, r.prefix);
      }
    }
    SameMatching(routes, path, q.prefix);
    longest := Some(q);
  }

  /** A spooled body is only announced together with complete inspection. */
  predicate SpoolSafe(p: Policy) { p.maxDecodedBody.Some? ==> p.requireComplete }

  /** The check made when the configuration is loaded; false where the source panics. */
  method ValidateSpoolRoutes(routes: seq<Route>) returns (ok: bool)
    ensures ok == LoadCheck(routes)
  {
    hide PolicyOfUri;
    for i := 0 to |routes|
      invariant forall j :: 0 <= j < i ==> SpoolSafe(PolicyOfUri(routes, routes[j].prefix))
    {
      var policy := InspectionPolicy(routes, routes[i].prefix);
      if policy.maxDecodedBody.Some? && !policy.requireComplete {
        return false;
      }
    }
    ok := true;
  }

  predicate LoadCheck(routes: seq<Route>) {
    forall i :: 0 <= i < |routes| ==> SpoolSafe(PolicyOfUri(routes, routes[i].prefix))
  }

  /** A path written without a question mark. */
  function Escape(p: Bytes): Bytes {
    if p == [] then [] else (if p[0] == QUESTION then [PERCENT, 51, 70] else [p[0]]) + Escape(p[1..])
  }

  lemma {:induction false} EscapeEncodes(p: Bytes)
    requires PERCENT !in p
    ensures Encodes(Escape(p), p) && QUESTION !in Escape(p)
  {
    if p != [] {
      EscapeEncodes(p[1..]);
      var e := Escape(p);
      if p[0] == QUESTION {
        assert e[0] == PERCENT && e[1] == 51 && e[2] == 70 && e[3..] == Escape(p[1..]);
      } else {
        assert e[0] == p[0] && e[1..] == Escape(p[1..]);
      }
    }
  }

  lemma {:induction false} NoQuery(uri: Bytes)
    requires QUESTION !in uri
    ensures BeforeQuery(uri) == uri
  {
    if uri != [] {
      NoQuery(uri[1..]);
    }
  }

  /** Every canonical path is the path of some URI. */
  lemma {:induction false} SomeUriHasThePath(path: Bytes) returns (uri: Bytes)
    requires IsCanonical(path)
    ensures CanonicalPath(BeforeQuery(uri)) == Some(path)
  {
    var segments :| AreSegments(segments) && path == Render(segments);
    RenderedIsCanonical(segments);
    RenderIsPlain(segments);
    uri := Escape(path);
    EscapeEncodes(path);
    NoQuery(uri);
    var chain := [path, uri];
    assert IsEncodingChain(chain);
    EncodingIsInvisible(chain);
  }

  lemma {:induction false} UriIsSafe(routes: seq<Route>, uri: Bytes)
    requires CanonicalPrefixes(routes)
    requires forall i :: 0 <= i < |routes| ==> SpoolSafe(PolicyAt(routes, routes[i].prefix))
    ensures SpoolSafe(PolicyOfUri(routes, uri))
  {
    var canonical := CanonicalPath(BeforeQuery(uri));
    if canonical.Some? {
      CanonicalIsIdempotent(BeforeQuery(uri));
      hide PolicyAt, CanonicalPath;
      assert IsCanonical(canonical.value);
      var longest := PolicyOfLongestPrefix(routes, canonical.value);
    }
  }

  /** All URIs are safe exactly when the finitely many prefixes are. */
  lemma {:induction false} PrefixesStandForAllUris(routes: seq<Route>)
    requires CanonicalPrefixes(routes)
    ensures (forall uri :: SpoolSafe(PolicyOfUri(routes, uri))) <==>
            (forall i :: 0 <= i < |routes| ==> SpoolSafe(PolicyAt(routes, routes[i].prefix)))
  {
    hide PolicyAt, CanonicalPath;
    if forall uri :: SpoolSafe(PolicyOfUri(routes, uri)) {
      forall i | 0 <= i < |routes|
        ensures SpoolSafe(PolicyAt(routes, routes[i].prefix))
      {
        var uri := SomeUriHasThePath(routes[i].prefix);
        assert SpoolSafe(PolicyOfUri(routes, uri));
      }
    }
    if forall i :: 0 <= i < |routes| ==> SpoolSafe(PolicyAt(routes, routes[i].prefix)) {
      forall uri
        ensures SpoolSafe(PolicyOfUri(routes, uri))
      {
        UriIsSafe(routes, uri);
      }
    }
  }

  /** So the check at load time covers all URIs, as long as no prefix holds a decoded question mark. */
  lemma {:induction false} LoadCheckCoversAllUris(routes: seq<Route>)
    requires CanonicalPrefixes(routes) && forall i :: 0 <= i < |routes| ==> QUESTION !in routes[i].prefix
    ensures LoadCheck(routes) <==> forall uri :: SpoolSafe(PolicyOfUri(routes, uri))
  {
    hide PolicyAt;
    PrefixesStandForAllUris(routes);
    forall i | 0 <= i < |routes|
      ensures PolicyOfUri(routes, routes[i].prefix) == PolicyAt(routes, routes[i].prefix)
    {
      NoQuery(routes[i].prefix);
      assert IsCanonical(routes[i].prefix);
      var segments :| AreSegments(segments) && routes[i].prefix == Render(segments);
      RenderedIsCanonical(segments);
    }
  }

  const NO_PATCH := Patch(None, None, None, None)
  const BODY_PATCH := Patch(None, None, None, Some(1))

  /** One route limits the body and demands nothing, the others say nothing. */
  ghost function OnlyBodyAt(prefixes: seq<Bytes>, k: nat): (routes: seq<Route>)
    ensures |routes| == |prefixes|
  {
    seq(|prefixes|, i requires 0 <= i < |prefixes| => Route(prefixes[i], if i == k then BODY_PATCH else NO_PATCH))
  }

  /** What is cut off before a question mark has none, and a canonical path nothing to decode. */
  lemma {:induction false} CutHasNoQuestion(path: Bytes)
    ensures QUESTION !in BeforeQuery(path) && (PERCENT !in path ==> PERCENT !in BeforeQuery(path))
  {
    if path != [] && path[0] != QUESTION {
      CutHasNoQuestion(path[1..]);
    }
  }

  lemma {:induction false} QuestionsDoNotMatch(path: Bytes, prefix: Bytes)
    requires QUESTION !in path && QUESTION in prefix
    ensures !PathMatchesPrefix(path, prefix)
  {
    var i :| 0 <= i < |prefix| && prefix[i] == QUESTION;
    if i < |path| {
      assert path[i] != prefix[i];
    }
  }

  lemma {:induction false} CheckedPathsAreSafe(prefixes: seq<Bytes>, k: nat, prefix: Bytes)
    requires k < |prefixes| && QUESTION in prefixes[k] && IsCanonical(prefix)
    ensures SpoolSafe(PolicyOfUri(OnlyBodyAt(prefixes, k), prefix))
  {
    hide CanonicalPath, PolicyAt, BeforeQuery, PathMatchesPrefix;
    var canonical := CanonicalPath(BeforeQuery(prefix));
    if canonical.Some? {
      CheckedPathHasNoQuestion(prefix);
      QuestionsDoNotMatch(canonical.value, prefixes[k]);
      var last := DecidedLast(OnlyBodyAt(prefixes, k), canonical.value, MaxDecodedBody);
    }
  }

  lemma {:induction false} CheckedPathHasNoQuestion(prefix: Bytes)
    requires IsCanonical(prefix) && CanonicalPath(BeforeQuery(prefix)).Some?
    ensures QUESTION !in CanonicalPath(BeforeQuery(prefix)).value
  {
    var segments :| AreSegments(segments) && prefix == Render(segments);
    hide CanonicalPath, BeforeQuery, Render;
    RenderIsPlain(segments);
    CutHasNoQuestion(prefix);
    CanonicalAddsNoBytes(BeforeQuery(prefix), QUESTION);
  }

  /**
   * Exactly that: whatever the prefixes are, if one holds a question mark there are patches for them that
   * pass the check and leave a URI unsafe, since every path the check looks at is cut or holds none.
   */
  lemma {:induction false} LoadCheckMissesQuestionMarks(prefixes: seq<Bytes>, k: nat)
    returns (routes: seq<Route>, uri: Bytes)
    requires k < |prefixes| && QUESTION in prefixes[k] && forall i :: 0 <= i < |prefixes| ==> IsCanonical(prefixes[i])
    ensures |routes| == |prefixes| && forall i :: 0 <= i < |prefixes| ==> routes[i].prefix == prefixes[i]
    ensures LoadCheck(routes) && !SpoolSafe(PolicyOfUri(routes, uri))
  {
    hide PolicyOfUri, IsCanonical;
    routes := OnlyBodyAt(prefixes, k);
    forall i | 0 <= i < |routes| ensures SpoolSafe(PolicyOfUri(routes, routes[i].prefix)) {
      CheckedPathsAreSafe(prefixes, k, prefixes[i]);
    }
    uri := SomeUriHasThePath(prefixes[k]);
    BodyIsUnsafe(prefixes, k, uri);
  }

  lemma {:induction false} BodyIsUnsafe(prefixes: seq<Bytes>, k: nat, uri: Bytes)
    requires k < |prefixes| && CanonicalPath(BeforeQuery(uri)) == Some(prefixes[k])
    ensures !SpoolSafe(PolicyOfUri(OnlyBodyAt(prefixes, k), uri))
  {
    hide CanonicalPath, PolicyAt;
    var routes, path := OnlyBodyAt(prefixes, k), prefixes[k];
    assert routes[k] in routes && PathMatchesPrefix(path, routes[k].prefix);
    var body := DecidedLast(routes, path, MaxDecodedBody);
    var complete := DecidedLast(routes, path, RequireComplete);
  }

  // ----- a URI that does not decode --------------------------------------------------------------------------------

  /** The path of a URI is what stands before its first question mark. */
  lemma {:induction false} PathEndsAtQuestion(path: Bytes, query: Bytes)
    requires 63 !in path
    ensures BeforeQuery(path) == path && BeforeQuery(path + [63] + query) == path
  {
    if path == [] {
      assert ([] + [63] + query)[0] == 63;
    } else {
      PathEndsAtQuestion(path[1..], query);
      var uri := path + [63] + query;
      assert uri[0] == path[0] && uri[1..] == path[1..] + [63] + query;
    }
  }

  /** A URI that does not decode is denied everything as soon as some route denies anything, and else nothing. */
  lemma {:induction false} UndecodableUri(routes: seq<Route>, uri: Bytes)
    requires CanonicalPath(BeforeQuery(uri)).None?
    ensures (exists i :: 0 <= i < |routes| &&
                         (routes[i].patch.requireComplete == Some(true) || routes[i].patch.onTruncated == Some(Deny) ||
                          routes[i].patch.onParseError == Some(Deny))) ==>
              PolicyOfUri(routes, uri) == Policy(true, Deny, Deny, None)
    ensures (forall i :: 0 <= i < |routes| ==>
                         routes[i].patch.requireComplete != Some(true) && routes[i].patch.onTruncated != Some(Deny) &&
                         routes[i].patch.onParseError != Some(Deny)) ==>
              PolicyOfUri(routes, uri) == Policy(false, Monitor, Monitor, None)
  {
    hide CanonicalPath, BeforeQuery;
  }

  /** So no URI escapes by failing to decode: whatever some path is held to, an undecodable URI is held to all of it. */
  lemma {:induction false} NoEscapeByBadEncoding(routes: seq<Route>, good: Bytes, bad: Bytes)
    requires CanonicalPath(BeforeQuery(good)).Some? && CanonicalPath(BeforeQuery(bad)).None?
    ensures var p, q := PolicyOfUri(routes, good), PolicyOfUri(routes, bad);
            p.requireComplete || p.onTruncated == Deny || p.onParseError == Deny ==>
              q.requireComplete && q.onTruncated == Deny && q.onParseError == Deny
  {
    hide CanonicalPath, BeforeQuery, PolicyAt, PathMatchesPrefix;
    var path := CanonicalPath(BeforeQuery(good)).value;
    var complete := DecidedLast(routes, path, RequireComplete);
    var truncated := DecidedLast(routes, path, OnTruncated);
    var parse := DecidedLast(routes, path, OnParseError);
    UndecodableUri(routes, bad);
  }

  /** There are such URIs. */
  lemma {:induction false} BadEncodingIsUndecodable()
    ensures CanonicalPath(BeforeQuery([47, 37, 122, 122])).None?
  {
    var uri: Bytes := [47, 37, 122, 122];
    PathEndsAtQuestion(uri, []);
    assert uri[1..] == [37, 122, 122];
    assert Decode([37, 122, 122]).None?;
    assert Decode(uri).None?;
  }

  // ----- building the routes ------------------------------------------------------------------------------------

  const FAIL_CLOSED_PATCH := Patch(Some(true), Some(Deny), Some(Deny), None)

  function MergePatches(base: Patch, overlay: Patch): Patch {
    Patch(OrElse(overlay.requireComplete, base.requireComplete), OrElse(overlay.onTruncated, base.onTruncated),
          OrElse(overlay.onParseError, base.onParseError), OrElse(overlay.maxDecodedBody, base.maxDecodedBody))
  }

  /** The first route with a prefix. */
  function Find(routes: seq<Route>, prefix: Bytes): Option<nat> {
    if routes == [] then None
    else if routes[0].prefix == prefix then Some(0)
    else
      var k := Find(routes[1..], prefix);
      if k.None? then None else Some(k.value + 1)
  }

  /** All that was declared for one prefix, merged in order. */
  function Declared(complete: seq<Bytes>, entries: seq<Route>, prefix: Bytes): Option<Patch> {
    if entries == [] then (if prefix in complete then Some(FAIL_CLOSED_PATCH) else None)
    else
      var n := |entries| - 1;
      var before := Declared(complete, entries[..n], prefix);
      if entries[n].prefix != prefix then before
      else if before.None? then Some(entries[n].patch)
      else Some(MergePatches(before.value, entries[n].patch))
  }

  ghost predicate Distinct(prefixes: seq<Bytes>) {
    forall i, j :: 0 <= i < j < |prefixes| ==> prefixes[i] != prefixes[j]
  }

  function PatchOf(routes: seq<Route>, prefix: Bytes): Option<Patch> {
    FindIsFirst(routes, prefix);
    if Find(routes, prefix).None? then None else Some(routes[Find(routes, prefix).value].patch)
  }

  lemma {:induction false} FindIsFirst(routes: seq<Route>, prefix: Bytes)
    ensures match Find(routes, prefix)
            case None => forall i :: 0 <= i < |routes| ==> routes[i].prefix != prefix
            case Some(k) =>
              k < |routes| && routes[k].prefix == prefix && forall i :: 0 <= i < k ==> routes[i].prefix != prefix
  {
    if routes != [] && routes[0].prefix != prefix {
      FindIsFirst(routes[1..], prefix);
      assert forall i :: 0 < i < |routes| ==> routes[i] == routes[1..][i - 1];
    }
  }

  /** Each prefix has what was declared for it, in one route, if the complete prefixes are distinct. */
  method MergeInspectionRoutes(complete: seq<Bytes>, entries: seq<Route>) returns (routes: seq<Route>)
    ensures forall prefix :: PatchOf(routes, prefix) == Declared(complete, entries, prefix)
    ensures Distinct(complete) <==> DistinctPrefixes(routes)
  {
    routes := seq(|complete|, i requires 0 <= i < |complete| => Route(complete[i], FAIL_CLOSED_PATCH));
    forall prefix
      ensures PatchOf(routes, prefix) == Declared(complete, [], prefix)
    {
      FindIsFirst(routes, prefix);
      if j :| 0 <= j < |complete| && complete[j] == prefix {
        assert routes[j].prefix == prefix;
      }
    }
    hide PatchOf, DistinctPrefixes, Distinct;
    DistinctAlike(complete, routes, routes);
    for i := 0 to |entries|
      invariant forall prefix :: PatchOf(routes, prefix) == Declared(complete, entries[..i], prefix)
      invariant Distinct(complete) <==> DistinctPrefixes(routes)
    {
      var entry := entries[i];
      assert entries[..i + 1][..i] == entries[..i];
      var k := Find(routes, entry.prefix);
      FindIsFirst(routes, entry.prefix);
      ghost var before := routes;
      if k.Some? {
        routes := routes[k.value := Route(entry.prefix, MergePatches(routes[k.value].patch, entry.patch))];
      } else {
        routes := routes + [entry];
      }
      DistinctAlike([], before, routes);
      DistinctAppend(before, entry);
      forall prefix
        ensures PatchOf(routes, prefix) == Declared(complete, entries[..i + 1], prefix)
      {
        PatchAfterMerge(before, entry, routes, prefix);
      }
    }
    assert entries[..|entries|] == entries;
  }

  /** Distinctness of prefixes only depends on the prefixes. */
  lemma {:induction false} DistinctAlike(prefixes: seq<Bytes>, routes: seq<Route>, other: seq<Route>)
    ensures |prefixes| == |routes| && (forall i :: 0 <= i < |routes| ==> routes[i].prefix == prefixes[i]) ==>
              (Distinct(prefixes) <==> DistinctPrefixes(routes))
    ensures |other| == |routes| && (forall i :: 0 <= i < |routes| ==> routes[i].prefix == other[i].prefix) ==>
              (DistinctPrefixes(other) <==> DistinctPrefixes(routes))
  {}

  lemma {:induction false} DistinctAppend(routes: seq<Route>, r: Route)
    ensures (forall i :: 0 <= i < |routes| ==> routes[i].prefix != r.prefix) ==>
              (DistinctPrefixes(routes + [r]) <==> DistinctPrefixes(routes))
  {
    if DistinctPrefixes(routes + [r]) {
      assert forall i :: 0 <= i < |routes| ==> (routes + [r])[i] == routes[i];
    }
  }

  lemma {:induction false} PatchAfterMerge(before: seq<Route>, entry: Route, after: seq<Route>, prefix: Bytes)
    requires match Find(before, entry.prefix)
             case None => after == before + [entry]
             case Some(k) =>
               && k < |before|
               && after == before[k := Route(entry.prefix, MergePatches(before[k].patch, entry.patch))]
    ensures PatchOf(after, prefix) ==
            if prefix != entry.prefix then PatchOf(before, prefix)
            else if PatchOf(before, prefix).None? then Some(entry.patch)
            else Some(MergePatches(PatchOf(before, prefix).value, entry.patch))
  {
    hide Find, MergePatches;
    FindIsFirst(before, prefix);
    FindIsFirst(before, entry.prefix);
    FindIsFirst(after, prefix);
    assert forall i :: 0 <= i < |before| ==> after[i].prefix == before[i].prefix;
    var b, a := Find(before, prefix), Find(after, prefix);
    if b.Some? {
      assert after[b.value].prefix == prefix;
    } else if prefix == entry.prefix {
      assert after[|before|].prefix == prefix;
    }
  }

  /** What a patch itself says of a field. */
  function Says(patch: Patch, f: Field): Option<Setting> {
    match f
    case RequireComplete => if patch.requireComplete.None? then None else Some(Flag(patch.requireComplete.value))
    case OnTruncated => if patch.onTruncated.None? then None else Some(Act(patch.onTruncated.value))
    case OnParseError => if patch.onParseError.None? then None else Some(Act(patch.onParseError.value))
    case MaxDecodedBody => if patch.maxDecodedBody.None? then None else Some(Limit(patch.maxDecodedBody))
  }

  /** The last entry for a prefix that says anything of a field has the last word; a complete prefix has the first. */
  lemma {:induction false} LastWordWins(complete: seq<Bytes>, entries: seq<Route>, prefix: Bytes, f: Field, k: int)
    requires -1 <= k < |entries|
    requires k >= 0 ==> entries[k].prefix == prefix && Says(entries[k].patch, f).Some?
    requires forall j :: k < j < |entries| && entries[j].prefix == prefix ==> Says(entries[j].patch, f).None?
    ensures var declared := Declared(complete, entries, prefix);
            && (declared.Some? <==> prefix in complete || exists i :: 0 <= i < |entries| && entries[i].prefix == prefix)
            && (declared.Some? ==>
                  Says(declared.value, f) ==
                  if k >= 0 then Says(entries[k].patch, f)
                  else if prefix in complete then Says(Patch(Some(true), Some(Deny), Some(Deny), None), f) else None)
  {
    if entries != [] {
      var n := |entries| - 1;
      var front := entries[..n];
      assert forall i :: 0 <= i < n ==> front[i] == entries[i];
      if k < n {
        LastWordWins(complete, front, prefix, f, k);
      } else {
        DeclaredIffNamed(complete, front, prefix);
      }
    }
  }

  lemma {:induction false} DeclaredIffNamed(complete: seq<Bytes>, entries: seq<Route>, prefix: Bytes)
    ensures Declared(complete, entries, prefix).Some? <==>
              prefix in complete || exists i :: 0 <= i < |entries| && entries[i].prefix == prefix
  {
    if entries != [] {
      var n := |entries| - 1;
      DeclaredIffNamed(complete, entries[..n], prefix);
      assert forall i :: 0 <= i < n ==> entries[..n][i] == entries[i];
    }
  }
}
