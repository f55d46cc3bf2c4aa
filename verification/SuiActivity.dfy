/**
 The two-level cache and the pending requests of `listSuiActivityEvents`.

 A call runs without interruption until its query is started, and again from the moment
 the query is settled: these are the steps. A page reload loses what is held in memory.
 */
module SuiActivity {
  import opened Text
  import opened Sorting
  import ActivityLog

  // ---------- The cache key of a set of projects ----------

  datatype Project = Project(objectId: Text, owner: Option<Text>, admins: seq<Text>)

  const COMMA: CodeUnit := 44
  const COLON: CodeUnit := 58
  const BAR: CodeUnit := 124

  function Folded(t: Text): Text {
    Lower(Trim(t))
  }

  /** An id enters the key in small letters and without the white space around it. */
  lemma FoldedExactly(t: Text, before: Text, core: Text, after: Text)
    requires Around(IsSpace, t, before, core, after) && Trimmed(core)
    ensures |Folded(t)| == |core| && forall i :: 0 <= i < |core| ==>
              Folded(t)[i] == if 'A' as int <= core[i] <= 'Z' as int then core[i] + 32 else core[i]
  {
    TrimExactly(t, before, core, after);
  }

  /** The order of `sort` without a comparison: by code unit. */
  function NotAfter(a: Text, b: Text): bool {
    !Less(b, a)
  }

  /** A project as it enters the key. */
  datatype Part = Part(objectId: Text, owner: Text, admins: seq<Text>)

  const PART_OF: Project -> Part := (p: Project) => PartOf(p)
  const PART_ID: Part -> Text := (p: Part) => p.objectId

  function PartOf(p: Project): Part {
    Part(Folded(p.objectId), if p.owner.Some? then Folded(p.owner.value) else [], Sort(NotAfter, Map(Folded, p.admins)))
  }

  function PartText(p: Part): Text {
    p.objectId + [COLON] + p.owner + [COLON] + Join(p.admins, COMMA)
  }

  /** `getActivityProjectsCacheKey`, for any order of ids that may call only equal ids equal. */
  function CacheKey(order: (Text, Text) -> bool, projects: seq<Project>): Text {
    Join(Map(PartText, Sort(OrderBy(order, PART_ID), Map(PART_OF, projects))), BAR)
  }

  ghost predicate TotalOrder(order: (Text, Text) -> bool) {
    TotalPreorder(order) && forall a, b :: order(a, b) && order(b, a) ==> a == b
  }

  lemma NotAfterTotal()
    ensures TotalOrder(NotAfter)
  {
    forall a: Text, b: Text {
      LessTrichotomy(a, b);
    }
    forall a: Text, b: Text, c: Text | NotAfter(a, b) && NotAfter(b, c) ensures NotAfter(a, c) {
      LessTrichotomy(a, b);
      LessTrichotomy(b, c);
      if Less(c, a) {
        if a == b {
        } else {
          LessTransitive(c, a, b);
        }
      }
    }
  }

  lemma AdminOrder(p: Project, admins: seq<Text>)
    requires multiset(p.admins) == multiset(admins)
    ensures PartOf(p.(admins := admins)) == PartOf(p)
  {
    NotAfterTotal();
    MapPermutes(Folded, p.admins, admins);
    SortOfPermutation(NotAfter, Map(Folded, p.admins), Map(Folded, admins));
  }

  /** The same project, its admins in any order. */
  ghost predicate SameProject(p: Project, q: Project) {
    q == p.(admins := q.admins) && multiset(p.admins) == multiset(q.admins)
  }

  /** No two different projects under one id. */
  ghost predicate IdsDetermine(parts: seq<Part>) {
    forall a, b :: a in parts && b in parts && a.objectId == b.objectId ==> a == b
  }

  lemma PartsToldApart(order: (Text, Text) -> bool, parts: seq<Part>)
    requires TotalOrder(order) && IdsDetermine(parts)
    ensures TellsApart(OrderBy(order, PART_ID), parts)
  {
    var before := OrderBy(order, PART_ID);
    forall a, b | a in parts && b in parts && before(a, b) && before(b, a) ensures a == b {
      assert a.objectId == b.objectId;
    }
  }

  /** The key depends on the set of projects only: not on their order, and not on the order of their admins. */
  lemma KeyIgnoresOrder(order: (Text, Text) -> bool, projects: seq<Project>, moved: seq<Project>, given: seq<Project>)
    requires TotalOrder(order) && IdsDetermine(Map(PART_OF, projects)) && multiset(projects) == multiset(moved)
    requires |given| == |moved| && forall i :: 0 <= i < |moved| ==> SameProject(moved[i], given[i])
    ensures CacheKey(order, given) == CacheKey(order, projects)
  {
    forall i | 0 <= i < |moved| ensures PartOf(given[i]) == PartOf(moved[i]) {
      AdminOrder(moved[i], given[i].admins);
    }
    assert Map(PART_OF, given) == Map(PART_OF, moved);
    MapPermutes(PART_OF, projects, moved);
    PartsToldApart(order, Map(PART_OF, projects));
    OrderByPreorder(order, PART_ID);
    SortOfPermutation(OrderBy(order, PART_ID), Map(PART_OF, projects), Map(PART_OF, moved));
  }

  // ---------- What the key tells apart ----------

  /** Two projects enter the key alike when id, owner and admins agree, folded, the admins in any order. */
  lemma PartExactly(p: Project, q: Project)
    ensures PartOf(p) == PartOf(q) <==>
              && Folded(p.objectId) == Folded(q.objectId)
              && (if p.owner.Some? then Folded(p.owner.value) else []) == (if q.owner.Some? then Folded(q.owner.value) else [])
              && multiset(Map(Folded, p.admins)) == multiset(Map(Folded, q.admins))
  {
    NotAfterTotal();
    var a, b := Map(Folded, p.admins), Map(Folded, q.admins);
    SortSorts(NotAfter, a);
    SortSorts(NotAfter, b);
    if multiset(a) == multiset(b) {
      SortOfPermutation(NotAfter, a, b);
    }
  }

  /** No separator in any of the texts, and no empty admin. */
  ghost predicate Plain(p: Part) {
    && COLON !in p.objectId && COLON !in p.owner && NoneHolds(p.admins, COLON)
    && BAR !in p.objectId && BAR !in p.owner && NoneHolds(p.admins, BAR)
    && NoneHolds(p.admins, COMMA) && forall i :: 0 <= i < |p.admins| ==> p.admins[i] != []
  }

  lemma AdminsTold(a: seq<Text>, b: seq<Text>)
    requires NoneHolds(a, COMMA) && forall i :: 0 <= i < |a| ==> a[i] != []
    requires NoneHolds(b, COMMA) && forall i :: 0 <= i < |b| ==> b[i] != []
    ensures Join(a, COMMA) == Join(b, COMMA) <==> a == b
  {
    if a == [] {
      if b != [] {
        JoinNotEmpty(b, COMMA);
      }
    } else if b == [] {
      JoinNotEmpty(a, COMMA);
    } else {
      JoinInjective(a, b, COMMA);
    }
  }

  lemma PartJoins(p: Part)
    ensures PartText(p) == Join([p.objectId, p.owner, Join(p.admins, COMMA)], COLON)
  {
    var last := Join(p.admins, COMMA);
    assert [p.objectId, p.owner, last][1..] == [p.owner, last] && [p.owner, last][1..] == [last];
    assert Join([last], COLON) == last;
    assert Join([p.owner, last], COLON) == p.owner + [COLON] + last;
  }

  lemma PartTold(p: Part, q: Part)
    requires Plain(p) && Plain(q)
    ensures PartText(p) == PartText(q) <==> p == q
  {
    PartJoins(p);
    PartJoins(q);
    JoinHolds(p.admins, COMMA, COLON);
    JoinHolds(q.admins, COMMA, COLON);
    var a, b := [p.objectId, p.owner, Join(p.admins, COMMA)], [q.objectId, q.owner, Join(q.admins, COMMA)];
    JoinInjective(a, b, COLON);
    assert a == b ==> a[0] == b[0] && a[1] == b[1] && a[2] == b[2];
    AdminsTold(p.admins, q.admins);
  }

  lemma PartHasNoBar(p: Part)
    requires Plain(p)
    ensures BAR !in PartText(p) && PartText(p) != []
  {
    JoinHolds(p.admins, COMMA, BAR);
  }

  lemma {:induction false} PartsTold(a: seq<Part>, b: seq<Part>)
    requires forall i :: 0 <= i < |a| ==> Plain(a[i])
    requires forall i :: 0 <= i < |b| ==> Plain(b[i])
    requires Map(PartText, a) == Map(PartText, b)
    ensures a == b
  {
    assert |Map(PartText, a)| == |a| && |Map(PartText, b)| == |b|;
    forall i | 0 <= i < |a| ensures a[i] == b[i] {
      assert Map(PartText, a)[i] == Map(PartText, b)[i];
      PartTold(a[i], b[i]);
    }
  }

  lemma PlainTexts(parts: seq<Part>)
    requires forall i :: 0 <= i < |parts| ==> Plain(parts[i])
    ensures NoneHolds(Map(PartText, parts), BAR)
    ensures parts != [] ==> Join(Map(PartText, parts), BAR) != []
  {
    forall i | 0 <= i < |parts| ensures BAR !in Map(PartText, parts)[i] && Map(PartText, parts)[i] != [] {
      PartHasNoBar(parts[i]);
    }
    if parts != [] {
      JoinNotEmpty(Map(PartText, parts), BAR);
    }
  }

  lemma ListsTold(a: seq<Part>, b: seq<Part>)
    requires forall i :: 0 <= i < |a| ==> Plain(a[i])
    requires forall i :: 0 <= i < |b| ==> Plain(b[i])
    ensures Join(Map(PartText, a), BAR) == Join(Map(PartText, b), BAR) <==> a == b
  {
    PlainTexts(a);
    PlainTexts(b);
    if a != [] && b != [] {
      JoinInjective(Map(PartText, a), Map(PartText, b), BAR);
      if Map(PartText, a) == Map(PartText, b) {
        PartsTold(a, b);
      }
    }
  }

  lemma SortedPlain(order: (Text, Text) -> bool, parts: seq<Part>)
    requires TotalOrder(order) && forall i :: 0 <= i < |parts| ==> Plain(parts[i])
    ensures var r := Sort(OrderBy(order, PART_ID), parts);
            multiset(r) == multiset(parts) && forall i :: 0 <= i < |r| ==> Plain(r[i])
  {
    OrderByPreorder(order, PART_ID);
    SortSorts(OrderBy(order, PART_ID), parts);
    SortSameElements(OrderBy(order, PART_ID), parts);
    var r := Sort(OrderBy(order, PART_ID), parts);
    forall i | 0 <= i < |r| ensures Plain(r[i]) {
      assert r[i] in r;
    }
  }

  /** Two lists of projects get one key exactly when they hold the same projects, if no text holds a separator. */
  lemma KeyExactly(order: (Text, Text) -> bool, a: seq<Project>, b: seq<Project>)
    requires TotalOrder(order) && IdsDetermine(Map(PART_OF, a))
    requires forall i :: 0 <= i < |a| ==> Plain(PartOf(a[i]))
    requires forall i :: 0 <= i < |b| ==> Plain(PartOf(b[i]))
    ensures CacheKey(order, a) == CacheKey(order, b) <==> multiset(Map(PART_OF, a)) == multiset(Map(PART_OF, b))
  {
    var x, y, before := Map(PART_OF, a), Map(PART_OF, b), OrderBy(order, PART_ID);
    assert forall i :: 0 <= i < |x| ==> Plain(x[i]);
    assert forall i :: 0 <= i < |y| ==> Plain(y[i]);
    SortedPlain(order, x);
    SortedPlain(order, y);
    ListsTold(Sort(before, x), Sort(before, y));
    if multiset(x) == multiset(y) {
      PartsToldApart(order, x);
      OrderByPreorder(order, PART_ID);
      SortOfPermutation(before, x, y);
    }
  }

  // ---------- The cache ----------

  const TTL := 15_000

  type Time = n: int | 0 < n witness 1

  datatype Entry = Entry(events: seq<ActivityLog.Event>, cachedAt: Time)

  datatype State = State(
    memory: map<Text, Entry>,
    stored: map<Text, Entry>,
    pending: map<Text, nat>,
    running: map<nat, Text>,
    next: nat)

  const START: State := State(map[], map[], map[], map[], 0)

  /** What a caller gets at once: events, another caller's request, or a request of its own. */
  datatype Answer = Cached(events: seq<ActivityLog.Event>) | Joined(request: nat) | Started(request: nat)

  datatype Outcome = Fetched(events: seq<ActivityLog.Event>) | Failed

  datatype Result = Resolved(events: seq<ActivityLog.Event>) | Rejected

  predicate Fresh(e: Entry, now: Time) {
    now - e.cachedAt <= TTL
  }

  function Ask(s: State, key: Text, now: Time): (State, Answer) {
    if key in s.memory && Fresh(s.memory[key], now) then
      (s, Cached(s.memory[key].events))
    else if key in s.stored && Fresh(s.stored[key], now) then
      (s.(memory := s.memory[key := s.stored[key]]), Cached(s.stored[key].events))
    else if key in s.pending then
      (s, Joined(s.pending[key]))
    else
      (s.(pending := s.pending[key := s.next], running := s.running[s.next := key], next := s.next + 1),
       Started(s.next))
  }

  /** `getAnyCachedSuiActivityEvents`. */
  function AnyCached(s: State, key: Text): Option<Entry> {
    if key in s.memory then Some(s.memory[key])
    else if key in s.stored then Some(s.stored[key])
    else None
  }

  function CacheEvents(s: State, key: Text, e: Entry, writes: bool): State {
    s.(memory := s.memory[key := e], stored := if writes then s.stored[key := e] else s.stored)
  }

  function Recover(s: State, key: Text): Result {
    match AnyCached(s, key)
    case Some(e) => Resolved(e.events)
    case None => Rejected
  }

  /** The query of a request ends. A failed write to storage lands in the same `catch` as a failed query. */
  function Settle(s: State, request: nat, outcome: Outcome, now: Time, writes: bool): (State, Result)
    requires request in s.running
  {
    var key := s.running[request];
    var (cached, result) :=
      match outcome
      case Fetched(events) =>
        var next := CacheEvents(s, key, Entry(events, now), writes);
        (next, if writes then Resolved(events) else Recover(next, key))
      case Failed => (s, Recover(s, key));
    (cached.(pending := cached.pending - {key}, running := cached.running - {request}), result)
  }

  function Reload(s: State): State {
    s.(memory := map[], pending := map[], running := map[])
  }

  // ---------- Runs ----------

  datatype Step =
    | Asked(key: Text, now: Time)
    | Settled(request: nat, outcome: Outcome, now: Time, writes: bool)
    | Reloaded

  function Apply(s: State, step: Step): State {
    match step
    case Asked(key, now) => Ask(s, key, now).0
    case Settled(request, outcome, now, writes) =>
      if request in s.running then Settle(s, request, outcome, now, writes).0 else s
    case Reloaded => Reload(s)
  }

  function Run(steps: seq<Step>): State {
    if steps == [] then START else Apply(Run(steps[..|steps| - 1]), steps[|steps| - 1])
  }

  /** A running request is the pending one of its key, and every pending request is running. */
  ghost predicate Paired(s: State) {
    && (forall r :: r in s.running ==> r < s.next && s.running[r] in s.pending && s.pending[s.running[r]] == r)
    && (forall key :: key in s.pending ==> s.pending[key] in s.running && s.running[s.pending[key]] == key)
  }

  lemma StepPaired(s: State, step: Step)
    requires Paired(s)
    ensures Paired(Apply(s, step))
  {
  }

  lemma {:induction false} RunPaired(steps: seq<Step>)
    ensures Paired(Run(steps))
  {
    if steps == [] {
    } else {
      RunPaired(steps[..|steps| - 1]);
      StepPaired(Run(steps[..|steps| - 1]), steps[|steps| - 1]);
    }
  }

  /** In any run at most one query is in flight for a key. */
  lemma OneInFlight(steps: seq<Step>, a: nat, b: nat)
    requires a in Run(steps).running && b in Run(steps).running
    requires Run(steps).running[a] == Run(steps).running[b]
    ensures a == b
  {
    RunPaired(steps);
  }

  /** In any run at most one query is in flight for a set of projects, in whatever order they are given. */
  lemma OneInFlightPerSet(order: (Text, Text) -> bool, projects: seq<Project>, moved: seq<Project>, given: seq<Project>,
                          steps: seq<Step>, a: nat, b: nat)
    requires TotalOrder(order) && IdsDetermine(Map(PART_OF, projects)) && multiset(projects) == multiset(moved)
    requires |given| == |moved| && forall i :: 0 <= i < |moved| ==> SameProject(moved[i], given[i])
    requires a in Run(steps).running && Run(steps).running[a] == CacheKey(order, projects)
    requires b in Run(steps).running && Run(steps).running[b] == CacheKey(order, given)
    ensures a == b
  {
    KeyIgnoresOrder(order, projects, moved, given);
    OneInFlight(steps, a, b);
  }

  /** A caller that joins a request joins the one that is in flight for its key. */
  lemma JoinersShare(steps: seq<Step>, key: Text, now: Time)
    ensures var (after, answer) := Ask(Run(steps), key, now);
            && (answer.Joined? ==> answer.request in Run(steps).running && Run(steps).running[answer.request] == key)
            && (answer.Started? ==> forall r :: r in Run(steps).running ==> Run(steps).running[r] != key)
  {
    RunPaired(steps);
  }

  /** Whatever the outcome, the pending entry of the request is removed and no other; the next stale call asks again. */
  lemma EveryOutcomeClears(steps: seq<Step>, request: nat, outcome: Outcome, now: Time, writes: bool)
    requires request in Run(steps).running
    ensures var s := Run(steps); var after := Settle(s, request, outcome, now, writes).0;
            && request !in after.running
            && (forall key :: key in after.pending <==> key in s.pending && s.pending[key] != request)
            && (forall key :: key in after.pending ==> after.pending[key] == s.pending[key])
  {
    RunPaired(steps);
  }

  // ---------- Where cached events come from ----------

  /** Step `i` of the run is a successful query for the key. */
  ghost predicate FetchAt(steps: seq<Step>, i: nat, key: Text, e: Entry) {
    && i < |steps|
    && steps[i].Settled?
    && steps[i].outcome == Fetched(e.events) && steps[i].now == e.cachedAt
    && steps[i].request in Run(steps[..i]).running
    && Run(steps[..i]).running[steps[i].request] == key
  }

  ghost predicate WasFetched(steps: seq<Step>, key: Text, e: Entry) {
    exists i: nat :: FetchAt(steps, i, key, e)
  }

  lemma FetchStays(steps: seq<Step>, step: Step, key: Text, e: Entry)
    requires WasFetched(steps, key, e)
    ensures WasFetched(steps + [step], key, e)
  {
    var i: nat :| FetchAt(steps, i, key, e);
    assert (steps + [step])[..i] == steps[..i];
    assert FetchAt(steps + [step], i, key, e);
  }

  lemma NewFetch(steps: seq<Step>, step: Step, e: Entry)
    requires step.Settled? && step.request in Run(steps).running
    requires step.outcome == Fetched(e.events) && step.now == e.cachedAt
    ensures WasFetched(steps + [step], Run(steps).running[step.request], e)
  {
    assert (steps + [step])[..|steps|] == steps;
    assert FetchAt(steps + [step], |steps|, Run(steps).running[step.request], e);
  }

  /** Where an entry of the next state was before. */
  lemma EntryOrigin(s: State, step: Step, key: Text, e: Entry)
    requires var t := Apply(s, step); (key in t.memory && t.memory[key] == e) || (key in t.stored && t.stored[key] == e)
    ensures || (key in s.memory && s.memory[key] == e)
            || (key in s.stored && s.stored[key] == e)
            || (step.Settled? && step.request in s.running && s.running[step.request] == key
                && step.outcome == Fetched(e.events) && step.now == e.cachedAt)
  {
  }

  /** Every cached entry is the result of a query made for its key in the run. */
  lemma {:induction false} CacheHoldsFetches(steps: seq<Step>, key: Text, e: Entry)
    requires var s := Run(steps); (key in s.memory && s.memory[key] == e) || (key in s.stored && s.stored[key] == e)
    ensures WasFetched(steps, key, e)
  {
    var init, last := steps[..|steps| - 1], steps[|steps| - 1];
    var s := Run(init);
    assert steps == init + [last];
    EntryOrigin(s, last, key, e);
    if (key in s.memory && s.memory[key] == e) || (key in s.stored && s.stored[key] == e) {
      CacheHoldsFetches(init, key, e);
      FetchStays(init, last, key, e);
    } else {
      NewFetch(init, last, e);
    }
  }

  /** Events given at once were fetched for that key in the run, at most 15 seconds ago. */
  lemma AnswersAreFresh(steps: seq<Step>, key: Text, now: Time)
    requires Ask(Run(steps), key, now).1.Cached?
    ensures exists e :: WasFetched(steps, key, e) && now - e.cachedAt <= TTL && Ask(Run(steps), key, now).1.events == e.events
  {
    var s := Run(steps);
    var e := if key in s.memory && Fresh(s.memory[key], now) then s.memory[key] else s.stored[key];
    CacheHoldsFetches(steps, key, e);
  }

  /** A failed query gives the events of an earlier successful one for its key, or fails. */
  lemma FailuresFallBack(steps: seq<Step>, request: nat, now: Time, writes: bool)
    requires request in Run(steps).running
    ensures var key := Run(steps).running[request];
            match Settle(Run(steps), request, Failed, now, writes).1
            case Resolved(events) => exists e :: WasFetched(steps, key, e) && e.events == events
            case Rejected => key !in Run(steps).memory && key !in Run(steps).stored
  {
    var s := Run(steps);
    var key := s.running[request];
    if AnyCached(s, key).Some? {
      CacheHoldsFetches(steps, key, AnyCached(s, key).value);
    }
  }

  /** A successful query always gives its own events, even when storage refuses the write. */
  lemma SuccessGivesFetched(s: State, request: nat, events: seq<ActivityLog.Event>, now: Time, writes: bool)
    requires request in s.running
    ensures Settle(s, request, Fetched(events), now, writes).1 == Resolved(events)
    ensures AnyCached(Settle(s, request, Fetched(events), now, writes).0, s.running[request]) == Some(Entry(events, now))
  {
  }

  // ---------- While storage takes every write ----------

  predicate EveryWriteTaken(steps: seq<Step>) {
    forall i :: 0 <= i < |steps| && steps[i].Settled? ==> steps[i].writes
  }

  /** The last successful query for the key. */
  function LastFetch(steps: seq<Step>, key: Text): Option<Entry> {
    if steps == [] then None
    else
      var init, last := steps[..|steps| - 1], steps[|steps| - 1];
      if last.Settled? && last.outcome.Fetched? && last.request in Run(init).running && Run(init).running[last.request] == key
      then Some(Entry(last.outcome.events, last.now))
      else LastFetch(init, key)
  }

  ghost predicate Current(s: State, key: Text, last: Option<Entry>) {
    && (key in s.stored <==> last.Some?)
    && (key in s.stored ==> s.stored[key] == last.value)
    && (key in s.memory ==> last.Some? && s.memory[key] == last.value)
  }

  lemma {:induction false} CopiesCurrent(steps: seq<Step>, key: Text)
    requires EveryWriteTaken(steps)
    ensures Current(Run(steps), key, LastFetch(steps, key))
  {
    if steps == [] {
    } else {
      CopiesCurrent(steps[..|steps| - 1], key);
    }
  }

  /** A call is answered at once exactly when the last successful query is at most 15 seconds old, and with its events. */
  lemma AnsweredExactly(steps: seq<Step>, key: Text, now: Time)
    requires EveryWriteTaken(steps)
    ensures var last := LastFetch(steps, key); var answer := Ask(Run(steps), key, now).1;
            && (answer.Cached? <==> last.Some? && now - last.value.cachedAt <= TTL)
            && (answer.Cached? ==> answer.events == last.value.events)
  {
    CopiesCurrent(steps, key);
  }

  /** A failed query gives the events of the last successful one, however old, and fails only when there was none. */
  lemma FailsExactly(steps: seq<Step>, request: nat, now: Time, writes: bool)
    requires EveryWriteTaken(steps) && request in Run(steps).running
    ensures Settle(Run(steps), request, Failed, now, writes).1 ==
            match LastFetch(steps, Run(steps).running[request]) { case Some(e) => Resolved(e.events) case None => Rejected }
  {
    CopiesCurrent(steps, Run(steps).running[request]);
  }

  // ---------- The module's state as an object ----------

  class SuiActivityEvents {
    var requestCache: map<Text, Entry>
    var storedCache: map<Text, Entry>
    var pendingRequests: map<Text, nat>
    var running: map<nat, Text>
    var next: nat

    function Contents(): State
      reads this
    {
      State(requestCache, storedCache, pendingRequests, running, next)
    }

    /** A page loads: only what was stored is there. */
    constructor (stored: map<Text, Entry>)
      ensures Contents() == START.(stored := stored)
    {
      requestCache, storedCache, pendingRequests, running, next := map[], stored, map[], map[], 0;
    }

    method GetFreshCached(key: Text, now: Time) returns (r: Option<seq<ActivityLog.Event>>)
      modifies this`requestCache
      ensures r.Some? <==> Ask(old(Contents()), key, now).1.Cached?
      ensures r.Some? ==> (Contents(), Cached(r.value)) == Ask(old(Contents()), key, now)
      ensures r.None? ==> Contents() == old(Contents())
    {
      if key in requestCache && now - requestCache[key].cachedAt <= TTL {
        return Some(requestCache[key].events);
      }
      if key in storedCache && now - storedCache[key].cachedAt <= TTL {
        requestCache := requestCache[key := storedCache[key]];
        return Some(storedCache[key].events);
      }
      r := None;
    }

    method ListSuiActivityEvents(key: Text, now: Time) returns (answer: Answer)
      modifies this
      ensures (Contents(), answer) == Ask(old(Contents()), key, now)
      ensures Contents() == Apply(old(Contents()), Asked(key, now))
    {
      var cached := GetFreshCached(key, now);
      if cached.Some? {
        return Cached(cached.value);
      }
      if key in pendingRequests {
        return Joined(pendingRequests[key]);
      }
      var request := next;
      next := next + 1;
      running := running[request := key];
      pendingRequests := pendingRequests[key := request];
      answer := Started(request);
    }

    method QuerySettles(request: nat, outcome: Outcome, now: Time, writes: bool) returns (result: Result)
      requires request in running
      modifies this
      ensures (Contents(), result) == Settle(old(Contents()), request, outcome, now, writes)
      ensures Contents() == Apply(old(Contents()), Settled(request, outcome, now, writes))
    {
      var key := running[request];
      var failed := outcome.Failed?;
      result := Rejected;
      if outcome.Fetched? {
        var entry := Entry(outcome.events, now);
        requestCache := requestCache[key := entry];
        if writes {
          storedCache := storedCache[key := entry];
          result := Resolved(outcome.events);
        } else {
          failed := true;
        }
      }
      if failed {
        if key in requestCache {
          result := Resolved(requestCache[key].events);
        } else if key in storedCache {
          result := Resolved(storedCache[key].events);
        }
      }
      pendingRequests := pendingRequests - {key};
      running := running - {request};
    }

    /** The page is loaded again: only what was stored is left. */
    method ReloadPage()
      modifies this
      ensures Contents() == Apply(old(Contents()), Reloaded)
    {
      requestCache, pendingRequests, running := map[], map[], map[];
    }
  }
}
