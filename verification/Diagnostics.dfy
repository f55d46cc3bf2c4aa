/** Listing diagnostics by filter and limit, and summarising them by group and route. */
module Diagnostics {
  import opened Text
  import opened Sorting
  import Keyed

  // ---------- Data ----------

  datatype Severity = Warning | Error | Critical

  datatype Diagnostic = Diagnostic(
    id: Text,
    createdAt: Text,
    severity: Severity,
    fingerprint: Text,
    errorName: Text,
    errorMessage: Text,
    routeId: Text,
    routePath: Text,
    buildVersion: Option<Text>,
    sourceContext: Option<Text>)

  datatype Number = NaN | Infinity | MinusInfinity | Finite(value: real)

  datatype Filters = Filters(
    since: Option<Text>,
    until: Option<Text>,
    severity: Option<Severity>,
    routeId: Option<Text>,
    route: Option<Text>,
    buildVersion: Option<Text>,
    errorName: Option<Text>,
    fingerprint: Option<Text>,
    query: Option<Text>,
    limit: Option<Number>)

  datatype ListResult = ListResult(diagnostics: seq<Diagnostic>, totalMatching: nat, limit: nat, truncated: bool)

  const DEFAULT_LIMIT: nat := 50
  const MAX_LIMIT: nat := 500
  const UNKNOWN: Text := Ascii("unknown")

  // ---------- Filtering ----------

  /** An option that is absent or an empty string does not filter. */
  predicate Given(o: Option<Text>) {
    o.Some? && o.value != []
  }

  predicate Contains(t: Text, part: Text) {
    StartsWith(t, part) || (t != [] && Contains(t[1..], part))
  }

  predicate Mentions(field: Text, needle: Text) {
    field != [] && Contains(Lower(field), needle)
  }

  function OrEmpty(o: Option<Text>): Text {
    if o.Some? then o.value else []
  }

  predicate MatchesQuery(d: Diagnostic, query: Text) {
    var needle := Lower(Trim(query));
    || needle == []
    || Mentions(d.id, needle) || Mentions(d.fingerprint, needle) || Mentions(d.errorName, needle)
    || Mentions(d.errorMessage, needle) || Mentions(d.routeId, needle) || Mentions(d.routePath, needle)
    || Mentions(OrEmpty(d.buildVersion), needle) || Mentions(OrEmpty(d.sourceContext), needle)
  }

  predicate MatchesTimeRange(d: Diagnostic, f: Filters) {
    && !(Given(f.since) && Less(d.createdAt, f.since.value))
    && !(Given(f.until) && Less(f.until.value, d.createdAt))
  }

  predicate Matches(d: Diagnostic, f: Filters) {
    && MatchesTimeRange(d, f)
    && (f.severity.Some? ==> d.severity == f.severity.value)
    && (Given(f.routeId) ==> d.routeId == f.routeId.value)
    && (Given(f.route) ==> Contains(d.routePath, f.route.value))
    && (Given(f.buildVersion) ==> d.buildVersion == f.buildVersion)
    && (Given(f.errorName) ==> d.errorName == f.errorName.value)
    && (Given(f.fingerprint) ==> d.fingerprint == f.fingerprint.value)
    && (Given(f.query) ==> MatchesQuery(d, f.query.value))
  }

  /** The list keeps what lies in the time range, limits included, and has the wanted properties; options left empty do not count. */
  lemma MatchesExactly(ds: seq<Diagnostic>, f: Filters, d: Diagnostic)
    ensures d in Matching(ds, f) <==>
              && d in ds
              && (f.since.Some? && f.since.value != [] ==> f.since.value == d.createdAt || Less(f.since.value, d.createdAt))
              && (f.until.Some? && f.until.value != [] ==> f.until.value == d.createdAt || Less(d.createdAt, f.until.value))
              && (f.severity.Some? ==> f.severity.value == d.severity)
              && (f.routeId.Some? && f.routeId.value != [] ==> f.routeId.value == d.routeId)
              && (f.route.Some? && f.route.value != [] ==> exists at: nat :: PartAt(d.routePath, f.route.value, at))
              && (f.buildVersion.Some? && f.buildVersion.value != [] ==> d.buildVersion == f.buildVersion)
              && (f.errorName.Some? && f.errorName.value != [] ==> f.errorName.value == d.errorName)
              && (f.fingerprint.Some? && f.fingerprint.value != [] ==> f.fingerprint.value == d.fingerprint)
              && (f.query.Some? && f.query.value != [] ==> MatchesQuery(d, f.query.value))
  {
    if f.since.Some? {
      LessTrichotomy(d.createdAt, f.since.value);
    }
    if f.until.Some? {
      LessTrichotomy(f.until.value, d.createdAt);
    }
    if f.route.Some? {
      ContainsExactly(d.routePath, f.route.value);
    }
  }

  /** The texts a query is looked for in. */
  function Searched(d: Diagnostic): seq<Text> {
    [ d.id, d.fingerprint, d.errorName, d.errorMessage, d.routeId, d.routePath,
      if d.buildVersion.Some? then d.buildVersion.value else [],
      if d.sourceContext.Some? then d.sourceContext.value else [] ]
  }

  ghost predicate FoundIn(d: Diagnostic, needle: Text, i: nat, at: nat) {
    i < 8 && PartAt(Lower(Searched(d)[i]), needle, at)
  }

  lemma MentionsExactly(field: Text, needle: Text)
    requires needle != []
    ensures Mentions(field, needle) <==> exists at: nat :: PartAt(Lower(field), needle, at)
  {
    ContainsExactly(Lower(field), needle);
    if field == [] {
      assert forall at: nat :: !PartAt(Lower(field), needle, at);
    }
  }

  lemma QueryTexts(d: Diagnostic, query: Text, needle: Text, texts: seq<Text>)
    requires needle == Lower(Trim(query)) && needle != [] && texts == Searched(d)
    ensures MatchesQuery(d, query) <==>
              || Mentions(texts[0], needle) || Mentions(texts[1], needle) || Mentions(texts[2], needle)
              || Mentions(texts[3], needle) || Mentions(texts[4], needle) || Mentions(texts[5], needle)
              || Mentions(texts[6], needle) || Mentions(texts[7], needle)
  {
  }

  lemma TextsMentioned(d: Diagnostic, needle: Text, texts: seq<Text>)
    requires needle != [] && texts == Searched(d)
    ensures (exists i :: 0 <= i < 8 && Mentions(texts[i], needle)) <==> exists i: nat, at: nat :: FoundIn(d, needle, i, at)
  {
    forall i | 0 <= i < 8 ensures Mentions(texts[i], needle) <==> exists at: nat :: PartAt(Lower(texts[i]), needle, at) {
      MentionsExactly(texts[i], needle);
    }
    FoundSomewhere(d, needle, texts);
  }

  /** A query matches when it is blank, or when one of the texts holds it, letter case aside. */
  lemma QueryExactly(d: Diagnostic, query: Text, needle: Text)
    requires needle == Lower(Trim(query))
    ensures MatchesQuery(d, query) <==> needle == [] || exists i: nat, at: nat :: FoundIn(d, needle, i, at)
  {
    if needle != [] {
      QueryTexts(d, query, needle, Searched(d));
      TextsMentioned(d, needle, Searched(d));
      EightOf(Map((t: Text) => Mentions(t, needle), Searched(d)));
    }
  }

  lemma EightOf(b: seq<bool>)
    requires |b| == 8
    ensures (exists i :: 0 <= i < 8 && b[i]) <==> b[0] || b[1] || b[2] || b[3] || b[4] || b[5] || b[6] || b[7]
  {
  }

  lemma FoundSomewhere(d: Diagnostic, needle: Text, texts: seq<Text>)
    requires texts == Searched(d)
    requires forall i :: 0 <= i < 8 ==> (Mentions(texts[i], needle) <==> exists at: nat :: PartAt(Lower(texts[i]), needle, at))
    ensures (exists i :: 0 <= i < 8 && Mentions(texts[i], needle)) <==> exists i: nat, at: nat :: FoundIn(d, needle, i, at)
  {
    if i :| 0 <= i < 8 && Mentions(texts[i], needle) {
      var at: nat :| PartAt(Lower(texts[i]), needle, at);
      assert FoundIn(d, needle, i, at);
    }
    if i: nat, at: nat :| FoundIn(d, needle, i, at) {
      assert Mentions(texts[i], needle);
    }
  }

  /** The text has the part at an index. */
  predicate PartAt(t: Text, part: Text, at: nat) {
    at + |part| <= |t| && t[at..at + |part|] == part
  }

  lemma {:induction false} ContainsExactly(t: Text, part: Text)
    ensures Contains(t, part) <==> exists at: nat :: PartAt(t, part, at)
  {
    if StartsWith(t, part) {
      assert PartAt(t, part, 0);
    } else if t == [] {
    } else {
      ContainsExactly(t[1..], part);
      if at: nat :| PartAt(t[1..], part, at) {
        assert t[at + 1..at + 1 + |part|] == t[1..][at..at + |part|];
        assert PartAt(t, part, at + 1);
      }
      if at: nat :| PartAt(t, part, at) {
        assert t[0..|part|] == part ==> StartsWith(t, part);
        assert t[1..][at - 1..at - 1 + |part|] == t[at..at + |part|];
        assert PartAt(t[1..], part, at - 1);
      }
    }
  }

  /** A limit below one is accepted and leaves nothing; anything that is no positive number means the default. */
  function ResolveLimit(limit: Option<Number>): (r: nat)
    ensures r <= MAX_LIMIT
    ensures r == 0 <==> limit.Some? && limit.value.Finite? && 0.0 < limit.value.value < 1.0
  {
    match limit
    case Some(Finite(x)) => if x <= 0.0 then DEFAULT_LIMIT else if x.Floor <= MAX_LIMIT then x.Floor else MAX_LIMIT
    case _ => DEFAULT_LIMIT
  }

  function Matching(ds: seq<Diagnostic>, f: Filters): seq<Diagnostic> {
    Filter((d: Diagnostic) => Matches(d, f), ds)
  }

  function ApplyFilters(ds: seq<Diagnostic>, f: Filters): ListResult {
    var filtered := Matching(ds, f);
    var limit := ResolveLimit(f.limit);
    var limited := if limit <= |filtered| then filtered[..limit] else filtered;
    ListResult(limited, |filtered|, limit, |limited| < |filtered|)
  }

  const TIME: Diagnostic -> Text := (x: Diagnostic) => x.createdAt

  function Newest(later: (Text, Text) -> bool): (Diagnostic, Diagnostic) -> bool {
    OrderBy(later, TIME)
  }

  /** `listDiagnostics` on the redacted diagnostics of its source. */
  function ListDiagnostics(later: (Text, Text) -> bool, ds: seq<Diagnostic>, f: Filters): ListResult {
    ApplyFilters(Sort(Newest(later), ds), f)
  }

  /** The list holds the newest matching diagnostics, and is marked truncated exactly when the filter matched more. */
  lemma ListsNewestMatching(later: (Text, Text) -> bool, ds: seq<Diagnostic>, f: Filters)
    requires TotalPreorder(later)
    ensures var r := ListDiagnostics(later, ds, f); var matched := Matching(Sort(Newest(later), ds), f);
            && multiset(matched) == multiset(Matching(ds, f)) && r.totalMatching == |Matching(ds, f)|
            && (r.truncated <==> r.totalMatching > r.limit)
            && |r.diagnostics| <= r.limit <= MAX_LIMIT
            && (forall i, j :: 0 <= i < j < |matched| ==> later(matched[i].createdAt, matched[j].createdAt))
            && r.diagnostics == matched[..|r.diagnostics|]
            && (!r.truncated ==> r.diagnostics == matched)
  {
    OrderByPreorder(later, TIME);
    SortSorts(Newest(later), ds);
    FilterSortPermutes(Newest(later), (d: Diagnostic) => Matches(d, f), ds);
    FilterSorted(Newest(later), (d: Diagnostic) => Matches(d, f), Sort(Newest(later), ds));
  }

  // ---------- Grouping ----------

  datatype GroupBy = ByFingerprint | ByRouteId | ByErrorName | ByBuildVersion

  function KeyOf(d: Diagnostic, groupBy: GroupBy): Text {
    var value :=
      match groupBy
      case ByFingerprint => d.fingerprint
      case ByRouteId => d.routeId
      case ByErrorName => d.errorName
      case ByBuildVersion => OrEmpty(d.buildVersion);
    if value == [] then UNKNOWN else value
  }

  /** The key is the chosen property, or "unknown" where that is absent or empty. */
  lemma KeyExactly(d: Diagnostic)
    ensures KeyOf(d, ByFingerprint) == if d.fingerprint == [] then Ascii("unknown") else d.fingerprint
    ensures KeyOf(d, ByRouteId) == if d.routeId == [] then Ascii("unknown") else d.routeId
    ensures KeyOf(d, ByErrorName) == if d.errorName == [] then Ascii("unknown") else d.errorName
    ensures KeyOf(d, ByBuildVersion) ==
            if d.buildVersion.None? || d.buildVersion.value == [] then Ascii("unknown") else d.buildVersion.value
  {
  }

  datatype Group = Group(
    key: Text,
    count: nat,
    severityMax: Severity,
    firstSeen: Text,
    lastSeen: Text,
    examples: seq<Text>)

  datatype RouteCount = RouteCount(routeId: Text, count: nat)

  const GROUP_KEY: Group -> Text := (g: Group) => g.key
  const GROUP_COUNT: Group -> nat := (g: Group) => g.count
  const ROUTE_ID: RouteCount -> Text := (r: RouteCount) => r.routeId
  const ROUTE_COUNT: RouteCount -> nat := (r: RouteCount) => r.count

  function Rank(s: Severity): nat {
    match s case Warning => 1 case Error => 2 case Critical => 3
  }

  /** A critical diagnostic outranks an error, and an error a warning. */
  lemma SeverityOrder()
    ensures Rank(Warning) < Rank(Error) < Rank(Critical)
  {
  }

  function MaxSeverity(left: Severity, right: Severity): Severity {
    if Rank(right) > Rank(left) then right else left
  }

  function NewGroup(key: Text, d: Diagnostic): Group {
    Group(key, 1, d.severity, d.createdAt, d.createdAt, [d.id])
  }

  function Grown(g: Group, d: Diagnostic): Group {
    Group(g.key, g.count + 1, MaxSeverity(g.severityMax, d.severity),
          if Less(d.createdAt, g.firstSeen) then d.createdAt else g.firstSeen,
          if Less(g.lastSeen, d.createdAt) then d.createdAt else g.lastSeen,
          if |g.examples| < 3 then g.examples + [d.id] else g.examples)
  }

  function AddToGroups(gs: seq<Group>, key: Text, d: Diagnostic): seq<Group> {
    match Keyed.Find(GROUP_KEY, gs, key)
    case None => gs + [NewGroup(key, d)]
    case Some(g) => Keyed.Replace(GROUP_KEY, gs, Grown(g, d))
  }

  /** `(routeCounts.get(routeId) ?? 0) + 1`. */
  function NextCount(was: Option<RouteCount>, routeId: Text): RouteCount {
    RouteCount(routeId, if was.Some? then was.value.count + 1 else 1)
  }

  function AddToRoutes(rs: seq<RouteCount>, routeId: Text): seq<RouteCount> {
    var was := Keyed.Find(ROUTE_ID, rs, routeId);
    var next := NextCount(was, routeId);
    if was.Some? then Keyed.Replace(ROUTE_ID, rs, next) else rs + [next]
  }

  /** The groups after the loop, in the order their keys first appear. */
  function GroupsOf(ds: seq<Diagnostic>, groupBy: GroupBy): seq<Group> {
    if ds == [] then []
    else AddToGroups(GroupsOf(ds[..|ds| - 1], groupBy), KeyOf(ds[|ds| - 1], groupBy), ds[|ds| - 1])
  }

  function RoutesOf(ds: seq<Diagnostic>): seq<RouteCount> {
    if ds == [] then [] else AddToRoutes(RoutesOf(ds[..|ds| - 1]), ds[|ds| - 1].routeId)
  }

  // ---------- What a group says about its members ----------

  function Members(ds: seq<Diagnostic>, groupBy: GroupBy, key: Text): seq<Diagnostic> {
    Filter((d: Diagnostic) => KeyOf(d, groupBy) == key, ds)
  }

  function OnRoute(ds: seq<Diagnostic>, routeId: Text): seq<Diagnostic> {
    Filter((d: Diagnostic) => d.routeId == routeId, ds)
  }

  ghost predicate EarliestOf(t: Text, ms: seq<Diagnostic>) {
    (exists i :: 0 <= i < |ms| && ms[i].createdAt == t) && forall i :: 0 <= i < |ms| ==> !Less(ms[i].createdAt, t)
  }

  ghost predicate LatestOf(t: Text, ms: seq<Diagnostic>) {
    (exists i :: 0 <= i < |ms| && ms[i].createdAt == t) && forall i :: 0 <= i < |ms| ==> !Less(t, ms[i].createdAt)
  }

  ghost predicate WorstOf(s: Severity, ms: seq<Diagnostic>) {
    (exists i :: 0 <= i < |ms| && ms[i].severity == s) && forall i :: 0 <= i < |ms| ==> Rank(ms[i].severity) <= Rank(s)
  }

  ghost predicate FirstIds(ids: seq<Text>, ms: seq<Diagnostic>) {
    && |ids| == (if |ms| < 3 then |ms| else 3)
    && forall i :: 0 <= i < |ids| ==> ids[i] == ms[i].id
  }

  /** True count, worst severity, first and last time and first ids of the members. */
  ghost predicate Describes(g: Group, ms: seq<Diagnostic>) {
    && g.count == |ms| > 0
    && WorstOf(g.severityMax, ms)
    && EarliestOf(g.firstSeen, ms)
    && LatestOf(g.lastSeen, ms)
    && FirstIds(g.examples, ms)
  }

  lemma EarliestGrows(t: Text, ms: seq<Diagnostic>, d: Diagnostic)
    requires EarliestOf(t, ms)
    ensures EarliestOf(if Less(d.createdAt, t) then d.createdAt else t, ms + [d])
  {
    var r, all := if Less(d.createdAt, t) then d.createdAt else t, ms + [d];
    forall i | 0 <= i < |all| ensures !Less(all[i].createdAt, r) {
      LessTrichotomy(d.createdAt, d.createdAt);
      if Less(d.createdAt, t) && i < |ms| && Less(ms[i].createdAt, d.createdAt) {
        LessTransitive(ms[i].createdAt, d.createdAt, t);
      }
    }
    var k :| 0 <= k < |ms| && ms[k].createdAt == t;
    assert all[k] == ms[k] && all[|ms|] == d;
  }

  lemma LatestGrows(t: Text, ms: seq<Diagnostic>, d: Diagnostic)
    requires LatestOf(t, ms)
    ensures LatestOf(if Less(t, d.createdAt) then d.createdAt else t, ms + [d])
  {
    var r, all := if Less(t, d.createdAt) then d.createdAt else t, ms + [d];
    forall i | 0 <= i < |all| ensures !Less(r, all[i].createdAt) {
      LessTrichotomy(d.createdAt, d.createdAt);
      if Less(t, d.createdAt) && i < |ms| && Less(d.createdAt, ms[i].createdAt) {
        LessTransitive(t, d.createdAt, ms[i].createdAt);
      }
    }
    var k :| 0 <= k < |ms| && ms[k].createdAt == t;
    assert all[k] == ms[k] && all[|ms|] == d;
  }

  lemma WorstGrows(s: Severity, ms: seq<Diagnostic>, d: Diagnostic)
    requires WorstOf(s, ms)
    ensures WorstOf(MaxSeverity(s, d.severity), ms + [d])
  {
    var all := ms + [d];
    var k :| 0 <= k < |ms| && ms[k].severity == s;
    assert all[k] == ms[k] && all[|ms|] == d;
  }

  lemma GrownDescribes(g: Group, ms: seq<Diagnostic>, d: Diagnostic)
    requires Describes(g, ms)
    ensures Describes(Grown(g, d), ms + [d])
  {
    WorstGrows(g.severityMax, ms, d);
    EarliestGrows(g.firstSeen, ms, d);
    LatestGrows(g.lastSeen, ms, d);
  }

  lemma NewDescribes(key: Text, d: Diagnostic)
    ensures Describes(NewGroup(key, d), [d])
  {
    LessTrichotomy(d.createdAt, d.createdAt);
    assert [d][0] == d;
  }

  // ---------- The loop's result ----------

  /** Exactly the keys that occur, once each, each with a true description; the counts add up. */
  ghost predicate GroupsExact(gs: seq<Group>, ds: seq<Diagnostic>, groupBy: GroupBy) {
    && Keyed.Unique(GROUP_KEY, gs)
    && (forall key :: GroupExact(Keyed.Find(GROUP_KEY, gs, key), Members(ds, groupBy, key)))
    && Keyed.Total(GROUP_COUNT, gs) == |ds|
  }

  ghost predicate GroupExact(g: Option<Group>, ms: seq<Diagnostic>) {
    match g
    case None => ms == []
    case Some(g) => Describes(g, ms)
  }

  lemma AddFinds(gs: seq<Group>, key: Text, d: Diagnostic, k: Text)
    requires Keyed.Unique(GROUP_KEY, gs)
    ensures Keyed.Find(GROUP_KEY, AddToGroups(gs, key, d), k) ==
            var was := Keyed.Find(GROUP_KEY, gs, k);
            if k != key then was else Some(if was.None? then NewGroup(key, d) else Grown(was.value, d))
  {
    match Keyed.Find(GROUP_KEY, gs, key)
    case None => Keyed.FindAppend(GROUP_KEY, gs, NewGroup(key, d), k);
    case Some(g) => Keyed.FindReplace(GROUP_KEY, gs, Grown(g, d), k);
  }

  lemma AddUnique(gs: seq<Group>, key: Text, d: Diagnostic)
    requires Keyed.Unique(GROUP_KEY, gs)
    ensures Keyed.Unique(GROUP_KEY, AddToGroups(gs, key, d))
  {
    match Keyed.Find(GROUP_KEY, gs, key)
    case None =>
    case Some(g) => Keyed.UniqueReplace(GROUP_KEY, gs, Grown(g, d));
  }

  lemma AddCounts(gs: seq<Group>, key: Text, d: Diagnostic)
    requires Keyed.Unique(GROUP_KEY, gs)
    ensures Keyed.Total(GROUP_COUNT, AddToGroups(gs, key, d)) == Keyed.Total(GROUP_COUNT, gs) + 1
  {
    match Keyed.Find(GROUP_KEY, gs, key)
    case None => Keyed.TotalAppend(GROUP_COUNT, gs, NewGroup(key, d));
    case Some(g) => Keyed.TotalReplace(GROUP_COUNT, GROUP_KEY, gs, Grown(g, d));
  }

  lemma MemberAdded(g: Option<Group>, ms: seq<Diagnostic>, key: Text, d: Diagnostic)
    requires GroupExact(g, ms)
    ensures GroupExact(Some(if g.None? then NewGroup(key, d) else Grown(g.value, d)), ms + [d])
  {
    match g
    case None =>
      NewDescribes(key, d);
      assert ms + [d] == [d];
    case Some(g) => GrownDescribes(g, ms, d);
  }

  lemma GroupStep(gs: seq<Group>, init: seq<Diagnostic>, d: Diagnostic, groupBy: GroupBy, key: Text, k: Text)
    requires Keyed.Unique(GROUP_KEY, gs) && key == KeyOf(d, groupBy)
    requires GroupExact(Keyed.Find(GROUP_KEY, gs, k), Members(init, groupBy, k))
    ensures GroupExact(Keyed.Find(GROUP_KEY, AddToGroups(gs, key, d), k), Members(init + [d], groupBy, k))
  {
    AddFinds(gs, key, d, k);
    FilterAppend((m: Diagnostic) => KeyOf(m, groupBy) == k, init, d);
    MemberAdded(Keyed.Find(GROUP_KEY, gs, k), Members(init, groupBy, k), key, d);
  }

  lemma GroupsStep(gs: seq<Group>, init: seq<Diagnostic>, d: Diagnostic, groupBy: GroupBy, key: Text)
    requires GroupsExact(gs, init, groupBy) && key == KeyOf(d, groupBy)
    ensures GroupsExact(AddToGroups(gs, key, d), init + [d], groupBy)
  {
    AddUnique(gs, key, d);
    AddCounts(gs, key, d);
    forall k ensures GroupExact(Keyed.Find(GROUP_KEY, AddToGroups(gs, key, d), k), Members(init + [d], groupBy, k)) {
      assert GroupExact(Keyed.Find(GROUP_KEY, gs, k), Members(init, groupBy, k));
      GroupStep(gs, init, d, groupBy, key, k);
    }
  }

  lemma {:induction false} GroupsAreExact(ds: seq<Diagnostic>, groupBy: GroupBy)
    ensures GroupsExact(GroupsOf(ds, groupBy), ds, groupBy)
  {
    if ds == [] {
    } else {
      var init, d := ds[..|ds| - 1], ds[|ds| - 1];
      GroupsAreExact(init, groupBy);
      GroupsStep(GroupsOf(init, groupBy), init, d, groupBy, KeyOf(d, groupBy));
      assert ds == init + [d];
    }
  }

  ghost predicate RoutesExact(rs: seq<RouteCount>, ds: seq<Diagnostic>) {
    && Keyed.Unique(ROUTE_ID, rs)
    && (forall id :: RouteExact(Keyed.Find(ROUTE_ID, rs, id), OnRoute(ds, id)))
    && Keyed.Total(ROUTE_COUNT, rs) == |ds|
  }

  ghost predicate RouteExact(r: Option<RouteCount>, ms: seq<Diagnostic>) {
    |ms| == (if r.Some? then r.value.count else 0) && (r.Some? ==> |ms| > 0)
  }

  lemma RouteFinds(rs: seq<RouteCount>, routeId: Text, k: Text)
    ensures Keyed.Find(ROUTE_ID, AddToRoutes(rs, routeId), k) ==
            var was := Keyed.Find(ROUTE_ID, rs, k); if k == routeId then Some(NextCount(was, k)) else was
  {
    var next := NextCount(Keyed.Find(ROUTE_ID, rs, routeId), routeId);
    Keyed.FindAppend(ROUTE_ID, rs, next, k);
    Keyed.FindReplace(ROUTE_ID, rs, next, k);
  }

  lemma RouteUnique(rs: seq<RouteCount>, routeId: Text)
    requires Keyed.Unique(ROUTE_ID, rs)
    ensures Keyed.Unique(ROUTE_ID, AddToRoutes(rs, routeId))
  {
    Keyed.UniqueReplace(ROUTE_ID, rs, NextCount(Keyed.Find(ROUTE_ID, rs, routeId), routeId));
  }

  lemma RouteCounts(rs: seq<RouteCount>, routeId: Text)
    requires Keyed.Unique(ROUTE_ID, rs)
    ensures Keyed.Total(ROUTE_COUNT, AddToRoutes(rs, routeId)) == Keyed.Total(ROUTE_COUNT, rs) + 1
  {
    var next := NextCount(Keyed.Find(ROUTE_ID, rs, routeId), routeId);
    Keyed.TotalAppend(ROUTE_COUNT, rs, next);
    Keyed.TotalReplace(ROUTE_COUNT, ROUTE_ID, rs, next);
  }

  lemma {:induction false} RoutesAreExact(ds: seq<Diagnostic>)
    ensures RoutesExact(RoutesOf(ds), ds)
  {
    if ds == [] {
    } else {
      var init, d := ds[..|ds| - 1], ds[|ds| - 1];
      var rs := RoutesOf(init);
      RoutesAreExact(init);
      forall k ensures RouteExact(Keyed.Find(ROUTE_ID, AddToRoutes(rs, d.routeId), k), OnRoute(ds, k)) {
        RouteFinds(rs, d.routeId, k);
        assert ds == init + [d];
        FilterAppend((m: Diagnostic) => m.routeId == k, init, d);
        assert RouteExact(Keyed.Find(ROUTE_ID, rs, k), OnRoute(init, k));
      }
      RouteUnique(rs, d.routeId);
      RouteCounts(rs, d.routeId);
    }
  }

  // ---------- The summary ----------

  const MORE_GROUPED: (Group, Group) -> bool := (a: Group, b: Group) => a.count >= b.count
  const MORE_ON_ROUTE: (RouteCount, RouteCount) -> bool := (a: RouteCount, b: RouteCount) => a.count >= b.count

  datatype Summary = Summary(
    total: nat,
    totalMatching: nat,
    limit: nat,
    truncated: bool,
    groups: seq<Group>,
    topRoutes: seq<RouteCount>)

  function Top5(rs: seq<RouteCount>): seq<RouteCount> {
    if |rs| <= 5 then rs else rs[..5]
  }

  /** The groups conserve and describe the list, largest first. */
  ghost predicate GroupsSummarize(groups: seq<Group>, ds: seq<Diagnostic>, groupBy: GroupBy) {
    GroupsExact(groups, ds, groupBy) && forall i, j :: 0 <= i < j < |groups| ==> groups[i].count >= groups[j].count
  }

  /** At most five routes with their true counts, largest first, and none left out that outnumbers one of them. */
  ghost predicate RoutesSummarize(top: seq<RouteCount>, ds: seq<Diagnostic>) {
    && |top| <= 5
    && Keyed.Unique(ROUTE_ID, top)
    && (forall i :: 0 <= i < |top| ==> top[i].count == |OnRoute(ds, top[i].routeId)| > 0)
    && (forall i, j :: 0 <= i < j < |top| ==> top[i].count >= top[j].count)
    && (forall id :: Keyed.Find(ROUTE_ID, top, id).None? ==>
          OnRoute(ds, id) == [] || (|top| == 5 && forall i :: 0 <= i < 5 ==> top[i].count >= |OnRoute(ds, id)|))
  }

  lemma SortedGroupsSummarize(ds: seq<Diagnostic>, groupBy: GroupBy)
    ensures GroupsSummarize(Sort(MORE_GROUPED, GroupsOf(ds, groupBy)), ds, groupBy)
  {
    var gs := GroupsOf(ds, groupBy);
    GroupsAreExact(ds, groupBy);
    Keyed.SortUnique(MORE_GROUPED, GROUP_KEY, gs);
    Keyed.TotalSort(GROUP_COUNT, MORE_GROUPED, gs);
    SortSorts(MORE_GROUPED, gs);
  }

  lemma TopOfSorted(rs: seq<RouteCount>, ds: seq<Diagnostic>)
    requires RoutesExact(rs, ds) && Sorted(MORE_ON_ROUTE, rs)
    ensures RoutesSummarize(Top5(rs), ds)
  {
    var top := Top5(rs);
    forall i | 0 <= i < |top| ensures top[i].count == |OnRoute(ds, top[i].routeId)| > 0 {
      Keyed.FindOwn(ROUTE_ID, rs, i);
      assert RouteExact(Keyed.Find(ROUTE_ID, rs, rs[i].routeId), OnRoute(ds, rs[i].routeId));
    }
    forall id | Keyed.Find(ROUTE_ID, top, id).None?
      ensures OnRoute(ds, id) == [] || (|top| == 5 && forall i :: 0 <= i < 5 ==> top[i].count >= |OnRoute(ds, id)|)
    {
      OmittedIsSmaller(rs, ds, id);
    }
  }

  lemma OmittedIsSmaller(rs: seq<RouteCount>, ds: seq<Diagnostic>, id: Text)
    requires RoutesExact(rs, ds) && Sorted(MORE_ON_ROUTE, rs)
    requires Keyed.Find(ROUTE_ID, Top5(rs), id).None?
    ensures OnRoute(ds, id) == [] || (|Top5(rs)| == 5 && forall i :: 0 <= i < 5 ==> Top5(rs)[i].count >= |OnRoute(ds, id)|)
  {
    var r := Keyed.Find(ROUTE_ID, rs, id);
    assert RouteExact(r, OnRoute(ds, id));
    if r.Some? {
      var k :| 0 <= k < |rs| && rs[k] == r.value;
      assert k >= 5;
      forall i | 0 <= i < 5 ensures rs[i].count >= r.value.count {
        assert MORE_ON_ROUTE(rs[i], rs[k]);
      }
    }
  }

  lemma TopRoutesSummarize(ds: seq<Diagnostic>)
    ensures RoutesSummarize(Top5(Sort(MORE_ON_ROUTE, RoutesOf(ds))), ds)
  {
    var rs := RoutesOf(ds);
    RoutesAreExact(ds);
    Keyed.SortUnique(MORE_ON_ROUTE, ROUTE_ID, rs);
    Keyed.TotalSort(ROUTE_COUNT, MORE_ON_ROUTE, rs);
    SortSorts(MORE_ON_ROUTE, rs);
    TopOfSorted(Sort(MORE_ON_ROUTE, rs), ds);
  }

  // ---------- The loop over group records ----------

  /** A group while the loop still updates it. */
  class GroupRecord {
    const key: Text
    var count: nat
    var severityMax: Severity
    var firstSeen: Text
    var lastSeen: Text
    var examples: seq<Text>

    function Value(): Group
      reads this
    {
      Group(key, count, severityMax, firstSeen, lastSeen, examples)
    }

    constructor (key: Text, d: Diagnostic)
      ensures Value() == NewGroup(key, d)
    {
      this.key := key;
      count, severityMax, firstSeen, lastSeen, examples := 1, d.severity, d.createdAt, d.createdAt, [d.id];
    }

    method Grow(d: Diagnostic)
      modifies this
      ensures Value() == Grown(old(Value()), d)
    {
      count := count + 1;
      severityMax := MaxSeverity(severityMax, d.severity);
      firstSeen := if Less(d.createdAt, firstSeen) then d.createdAt else firstSeen;
      lastSeen := if Less(lastSeen, d.createdAt) then d.createdAt else lastSeen;
      if |examples| < 3 {
        examples := examples + [d.id];
      }
    }
  }

  function Values(records: seq<GroupRecord>): (r: seq<Group>)
    reads records
    ensures |r| == |records|
    ensures forall i :: 0 <= i < |r| ==> r[i] == records[i].Value()
  {
    if records == [] then [] else Values(records[..|records| - 1]) + [records[|records| - 1].Value()]
  }

  ghost predicate Distinct(records: seq<GroupRecord>) {
    forall i, j :: 0 <= i < j < |records| ==> records[i] != records[j]
  }

  /** `groupsByKey.get(key)`: where the record with the key is, if there is one. */
  method IndexOfKey(records: seq<GroupRecord>, key: Text) returns (r: nat)
    ensures r <= |records|
    ensures r < |records| ==> records[r].key == key
    ensures forall i :: 0 <= i < r ==> records[i].key != key
  {
    r := 0;
    while r < |records| && records[r].key != key
      invariant r <= |records|
      invariant forall i :: 0 <= i < r ==> records[i].key != key
    {
      r := r + 1;
    }
  }

  /** With different keys, changing one group in place is replacing by key. */
  lemma GrowInPlace(before: seq<Group>, after: seq<Group>, i: nat, g: Group)
    requires Keyed.Unique(GROUP_KEY, before) && |after| == |before| && i < |before|
    requires g.key == before[i].key && after == before[i := g]
    ensures after == Keyed.Replace(GROUP_KEY, before, g)
  {
    assert forall j :: 0 <= j < |before| && j != i ==> GROUP_KEY(before[j]) != GROUP_KEY(before[i]);
  }

  lemma LoopStep(ds: seq<Diagnostic>, i: nat, groupBy: GroupBy)
    requires i < |ds|
    ensures GroupsOf(ds[..i + 1], groupBy) == AddToGroups(GroupsOf(ds[..i], groupBy), KeyOf(ds[i], groupBy), ds[i])
    ensures RoutesOf(ds[..i + 1]) == AddToRoutes(RoutesOf(ds[..i]), ds[i].routeId)
    ensures Keyed.Unique(GROUP_KEY, GroupsOf(ds[..i], groupBy))
  {
    assert ds[..i + 1][..i] == ds[..i];
    GroupsAreExact(ds[..i], groupBy);
  }

  /** Growing one record changes no other. */
  method GrowAt(records: seq<GroupRecord>, i: nat, d: Diagnostic)
    requires i < |records| && Distinct(records)
    modifies records[i]
    ensures Values(records) == old(Values(records))[i := Grown(old(Values(records))[i], d)]
  {
    records[i].Grow(d);
  }

  method AddDiagnostic(records: seq<GroupRecord>, key: Text, d: Diagnostic) returns (next: seq<GroupRecord>)
    requires Distinct(records) && Keyed.Unique(GROUP_KEY, Values(records))
    modifies records
    ensures Distinct(next) && forall k :: 0 <= k < |next| ==> next[k] in records || fresh(next[k])
    ensures Values(next) == AddToGroups(old(Values(records)), key, d)
  {
    ghost var before := Values(records);
    var i := IndexOfKey(records, key);
    if i < |records| {
      Keyed.FindOwn(GROUP_KEY, before, i);
      GrowAt(records, i, d);
      next := records;
      GrowInPlace(before, Values(next), i, Grown(before[i], d));
    } else {
      var record := new GroupRecord(key, d);
      next := records + [record];
      assert next[..|next| - 1] == records;
    }
  }

  method CollectGroups(ds: seq<Diagnostic>, groupBy: GroupBy) returns (groups: seq<Group>, routes: seq<RouteCount>)
    ensures groups == GroupsOf(ds, groupBy)
    ensures routes == RoutesOf(ds)
  {
    var records: seq<GroupRecord> := [];
    routes := [];
    for i := 0 to |ds|
      invariant Distinct(records) && forall k :: 0 <= k < |records| ==> fresh(records[k])
      invariant Values(records) == GroupsOf(ds[..i], groupBy)
      invariant routes == RoutesOf(ds[..i])
    {
      LoopStep(ds, i, groupBy);
      records := AddDiagnostic(records, KeyOf(ds[i], groupBy), ds[i]);
      routes := AddToRoutes(routes, ds[i].routeId);
    }
    assert ds[..|ds|] == ds;
    groups := Values(records);
  }

  method SummarizeDiagnostics(later: (Text, Text) -> bool, ds: seq<Diagnostic>, f: Filters, groupBy: GroupBy) returns (s: Summary)
    requires TotalPreorder(later)
    ensures var listed := ListDiagnostics(later, ds, f);
            && s.total == |listed.diagnostics| && s.totalMatching == listed.totalMatching
            && s.limit == listed.limit && s.truncated == listed.truncated
            && s.groups == Sort(MORE_GROUPED, GroupsOf(listed.diagnostics, groupBy))
            && s.topRoutes == Top5(Sort(MORE_ON_ROUTE, RoutesOf(listed.diagnostics)))
            && GroupsSummarize(s.groups, listed.diagnostics, groupBy)
            && RoutesSummarize(s.topRoutes, listed.diagnostics)
  {
    var listed := ListDiagnostics(later, ds, f);
    var groups, routes := CollectGroups(listed.diagnostics, groupBy);
    SortedGroupsSummarize(listed.diagnostics, groupBy);
    TopRoutesSummarize(listed.diagnostics);
    s := Summary(|listed.diagnostics|, listed.totalMatching, listed.limit, listed.truncated,
                 Sort(MORE_GROUPED, groups), Top5(Sort(MORE_ON_ROUTE, routes)));
  }
}
