/**
 The Seal session-key cache: a memory map, its sessionStorage copy and a map of pending promises,
 shared by interleaved requests. An event is the code that runs between two `await`s.
 */
module SessionCache {
  import opened Text
  import opened Seal

  // ---------- Cache keys ----------

  const SESSION_KEY_STORAGE_PREFIX: Text := Ascii("deepsignal.seal.sessionKey")
  const SEPARATOR: CodeUnit := 58  // ":"

  /** `createSessionCacheKey` */
  function CacheKey(wallet: Text, package: Text): Text {
    SESSION_KEY_STORAGE_PREFIX + [SEPARATOR] + Normalize(wallet) + [SEPARATOR] + Normalize(package)
  }

  /** One wallet is the other with more text behind a colon, and the other package starts with that text. */
  predicate Straddles(w: Text, p: Text, w': Text, p': Text) {
    && |w'| < |w| && w[..|w'|] == w' && w[|w'|] == SEPARATOR
    && p' == w[|w'| + 1..] + [SEPARATOR] + p
  }

  lemma StraddlingPair(w: Text, p: Text, w': Text, p': Text)
    requires |w'| < |w|
    ensures w + [SEPARATOR] + p == w' + [SEPARATOR] + p' <==> Straddles(w, p, w', p')
  {
    var x, x' := w + [SEPARATOR] + p, w' + [SEPARATOR] + p';
    assert x[..|w'|] == w[..|w'|] && x[|w'|] == w[|w'|] && x[|w'| + 1..] == w[|w'| + 1..] + [SEPARATOR] + p;
    assert x'[..|w'|] == w' && x'[|w'|] == SEPARATOR && x'[|w'| + 1..] == p';
    if Straddles(w, p, w', p') {
      assert x == x[..|w'|] + [x[|w'|]] + x[|w'| + 1..];
      assert x' == x'[..|w'|] + [x'[|w'|]] + x'[|w'| + 1..];
    }
  }

  lemma SameLengthPair(w: Text, p: Text, w': Text, p': Text)
    requires |w| == |w'|
    ensures w + [SEPARATOR] + p == w' + [SEPARATOR] + p' <==> w == w' && p == p'
  {
    var x, x' := w + [SEPARATOR] + p, w' + [SEPARATOR] + p';
    assert x[..|w|] == w && x'[..|w|] == w' && x[|w| + 1..] == p && x'[|w| + 1..] == p';
  }

  /** When two requests share a cache entry: for one wallet and package, or for pairs that straddle a colon. */
  lemma CacheKeyShared(w: Text, p: Text, w': Text, p': Text)
    ensures var (a, b, c, d) := (Normalize(w), Normalize(p), Normalize(w'), Normalize(p'));
            CacheKey(w, p) == CacheKey(w', p') <==> (a == c && b == d) || Straddles(a, b, c, d) || Straddles(c, d, a, b)
  {
    var (a, b, c, d) := (Normalize(w), Normalize(p), Normalize(w'), Normalize(p'));
    CacheKeyTail(a, b);
    CacheKeyTail(c, d);
    HeadedEqual(SESSION_KEY_STORAGE_PREFIX + [SEPARATOR], a, b, c, d);
    if |a| == |c| {
      SameLengthPair(a, b, c, d);
    } else if |c| < |a| {
      StraddlingPair(a, b, c, d);
    } else {
      StraddlingPair(c, d, a, b);
    }
  }

  lemma HeadedEqual(head: Text, a: Text, b: Text, c: Text, d: Text)
    ensures head + a + [SEPARATOR] + b == head + c + [SEPARATOR] + d <==> a + [SEPARATOR] + b == c + [SEPARATOR] + d
  {
    var x, y := head + a + [SEPARATOR] + b, head + c + [SEPARATOR] + d;
    assert x[|head|..] == a + [SEPARATOR] + b && y[|head|..] == c + [SEPARATOR] + d;
    assert x == head + (a + [SEPARATOR] + b) && y == head + (c + [SEPARATOR] + d);
  }

  /** Wallets without a colon never straddle: one cache entry for one normalised wallet and package. */
  lemma CacheKeyExact(w: Text, p: Text, w': Text, p': Text)
    requires SEPARATOR !in Normalize(w) && SEPARATOR !in Normalize(w')
    ensures CacheKey(w, p) == CacheKey(w', p') <==> Normalize(w) == Normalize(w') && Normalize(p) == Normalize(p')
  {
    CacheKeyShared(w, p, w', p');
  }

  /** Wallets with a colon do: such a wallet shares its entry with the wallet before the colon. */
  lemma StraddlingPairsCollide(w: Text, m: Text, p: Text)
    requires Normal(w) && Normal(m) && Normal(p) && w != [] && m != [] && p != []
    ensures CacheKey(w + [SEPARATOR] + m, p) == CacheKey(w, m + [SEPARATOR] + p)
    ensures Normalize(w + [SEPARATOR] + m) != Normalize(w)
  {
    NormalJoined(w, SEPARATOR, m);
    NormalJoined(m, SEPARATOR, p);
    FixedPairsCollide(w, m, p, w + [SEPARATOR] + m, m + [SEPARATOR] + p);
  }

  lemma FixedPairsCollide(w: Text, m: Text, p: Text, front: Text, back: Text)
    requires Normal(w) && Normal(p) && Normal(front) && Normal(back)
    requires front == w + [SEPARATOR] + m && back == m + [SEPARATOR] + p
    ensures CacheKey(front, p) == CacheKey(w, back)
    ensures Normalize(front) != Normalize(w)
  {
    FixedKey(front, p);
    FixedKey(w, back);
    JoinedAlike(SESSION_KEY_STORAGE_PREFIX + [SEPARATOR], w, m, p, front, back);
  }

  lemma JoinedAlike(head: Text, w: Text, m: Text, p: Text, front: Text, back: Text)
    requires front == w + [SEPARATOR] + m && back == m + [SEPARATOR] + p
    ensures front != w && head + front + [SEPARATOR] + p == head + w + [SEPARATOR] + back
  {
    assert |front| > |w|;
    assert front + [SEPARATOR] + p == w + [SEPARATOR] + back;
    HeadedEqual(head, front, p, w, back);
  }

  lemma FixedKey(w: Text, p: Text)
    requires Normal(w) && Normal(p)
    ensures CacheKey(w, p) == SESSION_KEY_STORAGE_PREFIX + [SEPARATOR] + w + [SEPARATOR] + p
    ensures Normalize(w) == w
  {
    NormalFixed(w);
    NormalFixed(p);
  }

  lemma CacheKeyTail(a: Text, b: Text)
    ensures var head := SESSION_KEY_STORAGE_PREFIX + [SEPARATOR];
            (head + a + [SEPARATOR] + b)[|head|..] == a + [SEPARATOR] + b
  {
  }

  // ---------- State ----------

  /** A signed session key; the foreign `isExpired` compares the clock with its end of life. */
  datatype SessionKey = SessionKey(id: nat, expiresAt: nat)

  predicate Expired(key: SessionKey, now: nat) { key.expiresAt <= now }

  datatype Status = Running | Resolved(key: SessionKey) | Rejected

  /** One run of the code that asks the wallet, up to the end of its `finally`. */
  datatype Creation = Creation(cacheKey: Text, status: Status)

  datatype State = State(
    window: bool,
    memory: map<Text, SessionKey>,
    storage: map<Text, SessionKey>,
    pending: map<Text, nat>,
    creations: map<nat, Creation>,
    nextId: nat,
    now: nat)

  /** A freshly loaded page, with whatever an earlier page left in sessionStorage. */
  function Init(window: bool, storage: map<Text, SessionKey>, now: nat): State {
    State(window, map[], if window then storage else map[], map[], map[], 0, now)
  }

  function ClearCached(s: State, k: Text): State {
    s.(memory := s.memory - {k}, storage := if s.window then s.storage - {k} else s.storage)
  }

  /** `loadCachedSessionKey`; `importOk` says whether `SessionKey.import` accepts the stored copy. */
  function LoadCached(s: State, k: Text, importOk: bool): (State, Option<SessionKey>) {
    if k in s.memory && !Expired(s.memory[k], s.now) then (s, Some(s.memory[k]))
    else
      var s := if k in s.memory then ClearCached(s, k) else s;
      if !s.window || k !in s.storage then (s, None)
      else if !importOk || Expired(s.storage[k], s.now) then (ClearCached(s, k), None)
      else (s.(memory := s.memory[k := s.storage[k]]), Some(s.storage[k]))
  }

  /** `persistSessionKey`; `writeOk` says whether sessionStorage accepts the copy. */
  function Persist(s: State, k: Text, key: SessionKey, writeOk: bool): State {
    s.(memory := s.memory[k := key],
       storage := if s.window && writeOk then s.storage[k := key] else s.storage)
  }

  // ---------- Events ----------

  /** What the first synchronous part of `getOrCreateSessionKey` comes to. */
  datatype Outcome = Hit(key: SessionKey) | Joined(id: nat) | NoWallet | Started(id: nat)

  function BeginRequest(s: State, k: Text, importOk: bool, canSign: bool): (State, Outcome) {
    var (s, cached) := LoadCached(s, k, importOk);
    if cached.Some? then (s, Hit(cached.value))
    else if k in s.pending then (s, Joined(s.pending[k]))
    else if !canSign then (s, NoWallet)
    else
      (s.(pending := s.pending[k := s.nextId],
          creations := s.creations[s.nextId := Creation(k, Running)],
          nextId := s.nextId + 1),
       Started(s.nextId))
  }

  datatype Event =
    | Request(cacheKey: Text, importOk: bool, canSign: bool)
    | Approve(id: nat, key: SessionKey, writeOk: bool)  // the wallet signs and the key is stored
    | Refuse(id: nat)                                   // any awaited step of the creation throws
    | Finally(id: nat)                                  // the creator's `finally` runs
    | Clear                                             // `clearSealSessionCache`
    | Reload                                            // the page is loaded again
    | Tick(ms: nat)

  predicate InStatus(s: State, id: nat, running: bool) {
    id in s.creations && s.creations[id].status.Running? == running
  }

  /** An event that is not enabled changes nothing. */
  function Step(s: State, e: Event): State {
    match e
    case Request(k, importOk, canSign) => BeginRequest(s, k, importOk, canSign).0
    case Approve(id, key, writeOk) =>
      if !InStatus(s, id, true) then s
      else
        var c := s.creations[id];
        Persist(s.(creations := s.creations[id := c.(status := Resolved(key))]), c.cacheKey, key, writeOk)
    case Refuse(id) =>
      if !InStatus(s, id, true) then s
      else s.(creations := s.creations[id := s.creations[id].(status := Rejected)])
    case Finally(id) =>
      if !InStatus(s, id, false) then s
      else s.(pending := s.pending - {s.creations[id].cacheKey}, creations := s.creations - {id})
    case Clear => s.(memory := map[], pending := map[])
    case Reload => s.(memory := map[], pending := map[], creations := map[])
    case Tick(ms) => s.(now := s.now + ms)
  }

  function Run(s: State, es: seq<Event>): State {
    if es == [] then s else Step(Run(s, es[..|es| - 1]), es[|es| - 1])
  }

  function Clears(es: seq<Event>): nat {
    if es == [] then 0 else Clears(es[..|es| - 1]) + if es[|es| - 1].Clear? then 1 else 0
  }

  lemma {:induction false} ClearsOfPrefix(es: seq<Event>, n: nat)
    requires n <= |es|
    ensures Clears(es[..n]) <= Clears(es)
    decreases |es|
  {
    if n == |es| {
      assert es[..n] == es;
    } else {
      assert es[..|es| - 1][..n] == es[..n];
      ClearsOfPrefix(es[..|es| - 1], n);
    }
  }

  // ---------- How many creations there can be ----------

  function Unfinished(s: State, k: Text): set<nat> {
    set id | id in s.creations && s.creations[id].cacheKey == k
  }

  function InFlight(s: State, k: Text): set<nat> {
    set id | id in s.creations && s.creations[id].cacheKey == k && s.creations[id].status.Running?
  }

  /** Unfinished creations that are no longer the pending one. */
  function Orphans(s: State, k: Text): set<nat> {
    set id | id in s.creations && s.creations[id].cacheKey == k && !(k in s.pending && s.pending[k] == id)
  }

  ghost predicate PendingKnown(s: State) {
    && (forall id :: id in s.creations ==> id < s.nextId)
    && (forall k :: k in s.pending ==> s.pending[k] in s.creations && s.creations[s.pending[k]].cacheKey == k)
  }

  ghost predicate OrphanBound(s: State, n: nat) {
    PendingKnown(s) && forall k :: |Orphans(s, k)| <= n
  }

  predicate SameCreations(s: State, s': State) {
    s'.pending == s.pending && s'.creations == s.creations && s'.nextId == s.nextId
  }

  lemma LoadCachedFrame(s: State, k: Text, importOk: bool)
    ensures var s' := LoadCached(s, k, importOk).0;
            SameCreations(s, s') && s'.now == s.now && s'.window == s.window
  {
  }

  /** A request starts a creation exactly when it finds neither a key nor a pending promise and can sign. */
  lemma RequestFrame(s: State, k: Text, importOk: bool, canSign: bool)
    ensures var (s', outcome) := BeginRequest(s, k, importOk, canSign);
            && s'.window == s.window && s'.now == s.now
            && if outcome.Started? then
                 && k !in s.pending && outcome.id == s.nextId
                 && s'.pending == s.pending[k := s.nextId]
                 && s'.creations == s.creations[s.nextId := Creation(k, Running)]
                 && s'.nextId == s.nextId + 1
               else SameCreations(s, s')
  {
    LoadCachedFrame(s, k, importOk);
  }

  /** The cached key a request finds: the live one in memory, else the stored one if it can be restored. */
  ghost predicate FindsCached(s: State, k: Text, importOk: bool, key: SessionKey) {
    if k in s.memory && s.memory[k].expiresAt > s.now then key == s.memory[k]
    else
      && k !in s.memory && s.window && k in s.storage
      && importOk && s.storage[k].expiresAt > s.now && key == s.storage[k]
  }

  /** What a request comes to: a cached key if one is found, else a pending creation, else the wallet, if it can sign. */
  lemma RequestOutcome(s: State, k: Text, importOk: bool, canSign: bool)
    ensures var (s', outcome) := BeginRequest(s, k, importOk, canSign);
            match outcome
            case Hit(key) => FindsCached(s, k, importOk, key)
            case Joined(id) => (forall key :: !FindsCached(s, k, importOk, key)) && k in s.pending && id == s.pending[k]
            case NoWallet => (forall key :: !FindsCached(s, k, importOk, key)) && k !in s.pending && !canSign
            case Started(id) => (forall key :: !FindsCached(s, k, importOk, key)) && k !in s.pending && canSign && id == s.nextId
  {
  }

  /** The copies of one key. */
  ghost predicate SameCopies(s: State, s': State, k: Text) {
    && (k in s'.memory <==> k in s.memory) && (k in s.memory ==> s'.memory[k] == s.memory[k])
    && (k in s'.storage <==> k in s.storage) && (k in s.storage ==> s'.storage[k] == s.storage[k])
  }

  lemma LoadLeavesOthers(s: State, k: Text, importOk: bool, other: Text)
    requires other != k
    ensures SameCopies(s, LoadCached(s, k, importOk).0, other)
  {
  }

  /** Other keys' copies are never touched by a request. */
  lemma RequestLeavesOthers(s: State, k: Text, importOk: bool, canSign: bool, other: Text)
    requires other != k
    ensures SameCopies(s, BeginRequest(s, k, importOk, canSign).0, other)
  {
    LoadLeavesOthers(s, k, importOk, other);
  }

  lemma SameKnown(s: State, s': State)
    requires PendingKnown(s) && SameCreations(s, s')
    ensures PendingKnown(s')
  {
  }

  lemma StepKeepsKnown(s: State, e: Event)
    requires PendingKnown(s)
    ensures PendingKnown(Step(s, e))
  {
    match e
    case Request(k, importOk, canSign) => RequestFrame(s, k, importOk, canSign);
    case _ =>
  }

  lemma SubsetSize(a: set<nat>, b: set<nat>)
    requires a <= b
    ensures |a| <= |b|
  {
    assert b == a + (b - a);
  }

  /** A `finally` may take a successor out of the pending map, but it leaves one orphan fewer of its own. */
  lemma FinallyKeepsBound(s: State, s': State, id: nat, k: Text, n: nat)
    requires OrphanBound(s, n) && id in s.creations && k == s.creations[id].cacheKey
    requires s'.pending == s.pending - {k} && s'.creations == s.creations - {id} && s'.nextId == s.nextId
    ensures OrphanBound(s', n)
  {
    forall k' ensures |Orphans(s', k')| <= n {
      if k' != k {
        assert Orphans(s', k') == Orphans(s, k');
      } else if k in s.pending && s.pending[k] != id {
        assert Orphans(s', k) == Orphans(s, k) - {id} + {s.pending[k]};
        assert id in Orphans(s, k);
      } else {
        SubsetSize(Orphans(s', k), Orphans(s, k));
      }
    }
  }

  lemma ClearAddsOne(s: State, n: nat)
    requires OrphanBound(s, n)
    ensures OrphanBound(Step(s, Clear), n + 1)
  {
    var s' := Step(s, Clear);
    forall k ensures |Orphans(s', k)| <= n + 1 {
      SubsetSize(Orphans(s', k), Orphans(s, k) + if k in s.pending then {s.pending[k]} else {});
    }
  }

  lemma StartKeepsBound(s: State, s': State, k: Text, n: nat)
    requires OrphanBound(s, n) && k !in s.pending
    requires s'.pending == s.pending[k := s.nextId] && s'.nextId == s.nextId + 1
    requires s'.creations == s.creations[s.nextId := Creation(k, Running)]
    ensures OrphanBound(s', n)
  {
    forall k' ensures |Orphans(s', k')| <= n {
      assert Orphans(s', k') == Orphans(s, k');
    }
  }

  /** Creations that only change their status. */
  lemma StatusKeepsBound(s: State, s': State, n: nat)
    requires OrphanBound(s, n) && s'.pending == s.pending && s'.nextId == s.nextId
    requires s'.creations.Keys == s.creations.Keys
    requires forall id :: id in s.creations ==> s'.creations[id].cacheKey == s.creations[id].cacheKey
    ensures OrphanBound(s', n)
  {
    forall k ensures |Orphans(s', k)| <= n {
      assert Orphans(s', k) == Orphans(s, k);
    }
  }

  lemma RequestKeepsBound(s: State, k: Text, importOk: bool, canSign: bool, n: nat)
    requires OrphanBound(s, n)
    ensures OrphanBound(BeginRequest(s, k, importOk, canSign).0, n)
  {
    RequestFrame(s, k, importOk, canSign);
    var (s', outcome) := BeginRequest(s, k, importOk, canSign);
    if outcome.Started? {
      StartKeepsBound(s, s', k, n);
    } else {
      StatusKeepsBound(s, s', n);
    }
  }

  lemma StepKeepsBound(s: State, e: Event, n: nat)
    requires OrphanBound(s, n)
    ensures OrphanBound(Step(s, e), n + if e.Clear? then 1 else 0)
  {
    match e
    case Request(k, importOk, canSign) => RequestKeepsBound(s, k, importOk, canSign, n);
    case Finally(id) =>
      if InStatus(s, id, false) {
        FinallyKeepsBound(s, Step(s, e), id, s.creations[id].cacheKey, n);
      }
    case Clear => ClearAddsOne(s, n);
    case Reload =>
      forall k ensures |Orphans(Step(s, e), k)| <= n {
        assert Orphans(Step(s, e), k) == {};
      }
    case _ => StatusKeepsBound(s, Step(s, e), n);
  }

  lemma {:induction false} RunKeepsBound(window: bool, storage: map<Text, SessionKey>, now: nat, es: seq<Event>)
    ensures OrphanBound(Run(Init(window, storage, now), es), Clears(es))
  {
    var s := Init(window, storage, now);
    if es == [] {
      forall k ensures |Orphans(s, k)| <= 0 {
        assert Orphans(s, k) == {};
      }
    } else {
      RunKeepsBound(window, storage, now, es[..|es| - 1]);
      StepKeepsBound(Run(s, es[..|es| - 1]), es[|es| - 1], Clears(es[..|es| - 1]));
    }
  }

  /** With k calls of `clearSealSessionCache`, at most k + 1 creations of one key are unfinished. */
  lemma InFlightBound(window: bool, storage: map<Text, SessionKey>, now: nat, es: seq<Event>, k: Text)
    ensures |Unfinished(Run(Init(window, storage, now), es), k)| <= Clears(es) + 1
    ensures |InFlight(Run(Init(window, storage, now), es), k)| <= Clears(es) + 1
  {
    var s := Run(Init(window, storage, now), es);
    RunKeepsBound(window, storage, now, es);
    SubsetSize(Unfinished(s, k), Orphans(s, k) + if k in s.pending then {s.pending[k]} else {});
    SubsetSize(InFlight(s, k), Unfinished(s, k));
  }

  /** The run that asks, clears, asks, clears, ... and ends asking. */
  function Burst(k: Text, n: nat): seq<Event> {
    if n == 0 then [Request(k, true, true)] else Burst(k, n - 1) + [Clear, Request(k, true, true)]
  }

  lemma RunTwo(s: State, es: seq<Event>, a: Event, b: Event)
    ensures Run(s, es + [a, b]) == Step(Step(Run(s, es), a), b)
    ensures Clears(es + [a, b]) == Clears(es) + (if a.Clear? then 1 else 0) + (if b.Clear? then 1 else 0)
  {
    var two := es + [a, b];
    assert two[..|two| - 1] == es + [a];
    assert (es + [a])[..|es + [a]| - 1] == es;
  }

  lemma ClearThenAsk(s: State, k: Text)
    requires s.memory == map[] && s.storage == map[] && s.window && forall id :: id in s.creations ==> id < s.nextId
    ensures var s' := Step(Step(s, Clear), Request(k, true, true));
            && |InFlight(s', k)| == |InFlight(s, k)| + 1
            && s'.memory == map[] && s'.storage == map[] && s'.window
            && (forall id :: id in s'.creations ==> id < s'.nextId)
  {
    var s' := Step(Step(s, Clear), Request(k, true, true));
    assert InFlight(s', k) == InFlight(s, k) + {s.nextId};
  }

  /** The bound is met: for every k some run with k clears has k + 1 creations in flight. */
  lemma {:induction false} BoundIsMet(k: Text, n: nat)
    ensures var s := Run(Init(true, map[], 0), Burst(k, n));
            && Clears(Burst(k, n)) == n && |InFlight(s, k)| == n + 1
            && s.memory == map[] && s.storage == map[] && s.window
            && (forall id :: id in s.creations ==> id < s.nextId)
  {
    if n == 0 {
      var es := [Request(k, true, true)];
      assert es[..0] == [];
      assert InFlight(Run(Init(true, map[], 0), es), k) == {0};
    } else {
      BoundIsMet(k, n - 1);
      var s := Run(Init(true, map[], 0), Burst(k, n - 1));
      RunTwo(Init(true, map[], 0), Burst(k, n - 1), Clear, Request(k, true, true));
      ClearThenAsk(s, k);
    }
  }

  // ---------- One approval for all ----------

  /** Without a clear, an unfinished creation is the pending one, and the only one of its key. */
  lemma PendingIsUnique(window: bool, storage: map<Text, SessionKey>, now: nat, es: seq<Event>, id: nat)
    requires Clears(es) == 0
    requires id in Run(Init(window, storage, now), es).creations
    ensures var s := Run(Init(window, storage, now), es); var k := s.creations[id].cacheKey;
            k in s.pending && s.pending[k] == id && Unfinished(s, k) == {id}
  {
    var s := Run(Init(window, storage, now), es);
    RunKeepsBound(window, storage, now, es);
    var k := s.creations[id].cacheKey;
    assert |Orphans(s, k)| <= 0;
    assert id !in Orphans(s, k);
    assert forall other :: other in Unfinished(s, k) ==> other !in Orphans(s, k);
  }

  /**
   Without a clear, a request made while a creation of its key is unfinished never asks the
   wallet: it gets a cached key or waits for that creation's outcome.
   */
  lemma ConcurrentRequestsShare(window: bool, storage: map<Text, SessionKey>, now: nat, es: seq<Event>,
                                id: nat, importOk: bool, canSign: bool)
    requires Clears(es) == 0
    requires id in Run(Init(window, storage, now), es).creations
    ensures var s := Run(Init(window, storage, now), es);
            var (s', outcome) := BeginRequest(s, s.creations[id].cacheKey, importOk, canSign);
            && s'.nextId == s.nextId && s'.creations == s.creations
            && (outcome.Hit? || outcome == Joined(id))
  {
    PendingIsUnique(window, storage, now, es, id);
    var s := Run(Init(window, storage, now), es);
    LoadCachedFrame(s, s.creations[id].cacheKey, importOk);
  }

  // ---------- What the waiting requests get ----------

  /** What an event settles a running creation's promise with. */
  function Settles(s: State, e: Event, id: nat): Option<Status> {
    if !InStatus(s, id, true) then None
    else if e.Approve? && e.id == id then Some(Resolved(e.key))
    else if e.Refuse? && e.id == id then Some(Rejected)
    else None
  }

  /** What the promise of a creation settles with: its first answer in the run. */
  function SettledAs(s: State, es: seq<Event>, id: nat): Option<Status> {
    if es == [] then None
    else
      var init := es[..|es| - 1];
      var was := SettledAs(s, init, id);
      if was.Some? then was else Settles(Run(s, init), es[|es| - 1], id)
  }

  /** What request number `i` of a run ends with, once it has ended: a waiting one ends as its promise does. */
  function AnswerOf(s: State, es: seq<Event>, i: nat): Option<Status>
    requires i < |es| && es[i].Request?
  {
    match BeginRequest(Run(s, es[..i]), es[i].cacheKey, es[i].importOk, es[i].canSign).1
    case Hit(key) => Some(Resolved(key))
    case NoWallet => Some(Rejected)
    case Joined(id) => SettledAs(s, es, id)
    case Started(id) => SettledAs(s, es, id)
  }

  lemma {:induction false} SettledStays(s: State, es: seq<Event>, n: nat, id: nat)
    requires n <= |es|
    ensures SettledAs(s, es[..n], id).Some? ==> SettledAs(s, es, id) == SettledAs(s, es[..n], id)
    decreases |es|
  {
    if n == |es| {
      assert es[..n] == es;
    } else {
      assert es[..|es| - 1][..n] == es[..n];
      SettledStays(s, es[..|es| - 1], n, id);
    }
  }

  /** A creation shows what its promise settled with, and a number not yet given out has settled with nothing. */
  ghost predicate ShowsOutcome(s: State, id: nat, outcome: Option<Status>) {
    && (id in s.creations ==> s.creations[id].status == if outcome.Some? then outcome.value else Running)
    && (id >= s.nextId ==> outcome.None?)
    && (outcome.Some? ==> !outcome.value.Running?)
  }

  lemma RequestShows(s: State, k: Text, importOk: bool, canSign: bool, id: nat, was: Option<Status>)
    requires ShowsOutcome(s, id, was)
    ensures ShowsOutcome(BeginRequest(s, k, importOk, canSign).0, id, was)
  {
    RequestFrame(s, k, importOk, canSign);
  }

  lemma StepShows(s: State, e: Event, id: nat, was: Option<Status>)
    requires ShowsOutcome(s, id, was) && PendingKnown(s)
    ensures ShowsOutcome(Step(s, e), id, if was.Some? then was else Settles(s, e, id))
  {
    match e
    case Request(k, importOk, canSign) => RequestShows(s, k, importOk, canSign, id, was);
    case _ =>
  }

  lemma {:induction false} StatusIsOutcome(window: bool, storage: map<Text, SessionKey>, now: nat, es: seq<Event>, id: nat)
    ensures var s := Init(window, storage, now); ShowsOutcome(Run(s, es), id, SettledAs(s, es, id))
  {
    var s := Init(window, storage, now);
    if es == [] {
    } else {
      var init := es[..|es| - 1];
      StatusIsOutcome(window, storage, now, init, id);
      RunKeepsBound(window, storage, now, init);
      StepShows(Run(s, init), es[|es| - 1], id, SettledAs(s, init, id));
    }
  }

  /** What the cache holds for an unfinished creation: nothing but the key it resolved with. */
  ghost predicate HoldsOutcome(s: State) {
    forall id :: id in s.creations ==>
      var c := s.creations[id];
      && (c.cacheKey in s.memory ==> c.status == Resolved(s.memory[c.cacheKey]))
      && (c.cacheKey in s.storage ==> c.status == Resolved(s.storage[c.cacheKey]))
  }

  ghost predicate OneEach(s: State) {
    forall id, other :: id in s.creations && other in s.creations && id != other ==>
      s.creations[id].cacheKey != s.creations[other].cacheKey
  }

  /** Loading only takes from the copies, or puts the stored key into memory; what it does not find is gone. */
  lemma LoadTakes(s: State, k: Text, importOk: bool)
    ensures var (s', r) := LoadCached(s, k, importOk);
            && (forall j :: j in s'.storage ==> j in s.storage && s'.storage[j] == s.storage[j])
            && (forall j :: j in s'.memory ==>
                  (j in s.memory && s'.memory[j] == s.memory[j]) || (j in s.storage && s'.memory[j] == s.storage[j]))
            && (r.Some? ==> (k in s.memory && r.value == s.memory[k]) || (k in s.storage && r.value == s.storage[k]))
            && (r.None? && s.window ==> k !in s'.memory && k !in s'.storage)
            && (r.None? ==> k !in s'.memory)
  {
  }

  lemma RequestHolds(s: State, k: Text, importOk: bool, canSign: bool)
    requires HoldsOutcome(s) && PendingKnown(s) && (!s.window ==> s.storage == map[])
    ensures HoldsOutcome(BeginRequest(s, k, importOk, canSign).0)
  {
    LoadTakes(s, k, importOk);
    LoadCachedFrame(s, k, importOk);
  }

  lemma StepHolds(s: State, e: Event)
    requires HoldsOutcome(s) && PendingKnown(s) && OneEach(s) && (!s.window ==> s.storage == map[])
    ensures HoldsOutcome(Step(s, e))
  {
    match e
    case Request(k, importOk, canSign) => RequestHolds(s, k, importOk, canSign);
    case _ =>
  }

  lemma {:induction false} RunHolds(window: bool, storage: map<Text, SessionKey>, now: nat, es: seq<Event>)
    requires Clears(es) == 0
    ensures var s := Run(Init(window, storage, now), es); HoldsOutcome(s) && (!s.window ==> s.storage == map[])
  {
    if es == [] {
    } else {
      var init := es[..|es| - 1];
      RunHolds(window, storage, now, init);
      RunKeepsBound(window, storage, now, init);
      var s := Run(Init(window, storage, now), init);
      forall id, other | id in s.creations && other in s.creations && id != other
        ensures s.creations[id].cacheKey != s.creations[other].cacheKey
      {
        PendingIsUnique(window, storage, now, init, id);
        PendingIsUnique(window, storage, now, init, other);
      }
      StepHolds(s, es[|es| - 1]);
      StepStorage(s, es[|es| - 1]);
    }
  }

  lemma StepStorage(s: State, e: Event)
    requires !s.window ==> s.storage == map[]
    ensures !Step(s, e).window ==> Step(s, e).storage == map[]
  {
  }

  /**
   Without a clear, every request made while a creation of its key is unfinished ends with that
   creation's outcome, the one wallet answer, however the run goes on.
   */
  lemma ConcurrentRequestsEndAlike(window: bool, storage: map<Text, SessionKey>, now: nat, es: seq<Event>, i: nat, id: nat)
    requires Clears(es) == 0 && i < |es| && es[i].Request?
    requires var s := Run(Init(window, storage, now), es[..i]);
             id in s.creations && s.creations[id].cacheKey == es[i].cacheKey
    ensures AnswerOf(Init(window, storage, now), es, i) == SettledAs(Init(window, storage, now), es, id)
  {
    var s0 := Init(window, storage, now);
    var s, k := Run(s0, es[..i]), es[i].cacheKey;
    ClearsOfPrefix(es, i);
    ConcurrentRequestsShare(window, storage, now, es[..i], id, es[i].importOk, es[i].canSign);
    RunHolds(window, storage, now, es[..i]);
    LoadTakes(s, k, es[i].importOk);
    StatusIsOutcome(window, storage, now, es[..i], id);
    SettledStays(s0, es, i, id);
  }

  // ---------- A stored key is used until it expires ----------

  /** No request is answered with an expired key. */
  lemma NeverExpired(s: State, k: Text, importOk: bool, canSign: bool)
    ensures var (_, outcome) := BeginRequest(s, k, importOk, canSign);
            outcome.Hit? ==> !Expired(outcome.key, s.now)
  {
  }

  predicate NoneRunning(s: State, k: Text) {
    forall id :: id in s.creations && s.creations[id].cacheKey == k ==> !s.creations[id].status.Running?
  }

  /** The key is in memory, or also where the next page looks for it. */
  predicate Kept(s: State, k: Text, key: SessionKey, stored: bool) {
    && NoneRunning(s, k)
    && (if stored then s.window && k in s.storage && s.storage[k] == key && (k in s.memory ==> s.memory[k] == key)
        else k in s.memory && s.memory[k] == key)
  }

  /** Events that cannot lose the key: without a stored copy no clear and no reload, with one no failing import. */
  predicate Harmless(e: Event, k: Text, stored: bool) {
    if stored then e.Request? && e.cacheKey == k ==> e.importOk else !e.Clear? && !e.Reload?
  }

  lemma LoadKeeps(s: State, at: Text, importOk: bool, k: Text, key: SessionKey, stored: bool)
    requires Kept(s, k, key, stored) && !Expired(key, s.now) && (stored && at == k ==> importOk)
    ensures var (s', r) := LoadCached(s, at, importOk); Kept(s', k, key, stored) && (at == k ==> r == Some(key))
  {
  }

  lemma RequestKeeps(s: State, at: Text, importOk: bool, canSign: bool, k: Text, key: SessionKey, stored: bool)
    requires Kept(s, k, key, stored) && !Expired(key, s.now) && (stored && at == k ==> importOk)
    ensures Kept(BeginRequest(s, at, importOk, canSign).0, k, key, stored)
  {
    LoadKeeps(s, at, importOk, k, key, stored);
  }

  lemma StepKeeps(s: State, e: Event, k: Text, key: SessionKey, stored: bool)
    requires Kept(s, k, key, stored) && Harmless(e, k, stored) && !Expired(key, s.now)
    ensures Kept(Step(s, e), k, key, stored)
  {
    match e
    case Request(at, importOk, canSign) => RequestKeeps(s, at, importOk, canSign, k, key, stored);
    case _ =>
  }

  lemma TimeGrows(s: State, e: Event)
    ensures s.now <= Step(s, e).now
  {
  }

  lemma {:induction false} RunKeeps(s: State, es: seq<Event>, k: Text, key: SessionKey, stored: bool)
    requires Kept(s, k, key, stored) && !Expired(key, Run(s, es).now)
    requires forall i :: 0 <= i < |es| ==> Harmless(es[i], k, stored)
    ensures Kept(Run(s, es), k, key, stored)
  {
    if es == [] {
    } else {
      var before := Run(s, es[..|es| - 1]);
      TimeGrows(before, es[|es| - 1]);
      RunKeeps(s, es[..|es| - 1], k, key, stored);
      StepKeeps(before, es[|es| - 1], k, key, stored);
    }
  }

  /**
   After a run without a clear stores a key, every later request for it gets that key and asks
   no wallet, until it expires: in any further run without clear or reload, and, if the copy was
   written, in any further run at all whose imports of the copy succeed.
   */
  lemma StoredKeyIsUsed(window: bool, storage: map<Text, SessionKey>, now: nat, es: seq<Event>,
                        id: nat, key: SessionKey, writeOk: bool, later: seq<Event>, stored: bool,
                        importOk: bool, canSign: bool)
    requires Clears(es) == 0 && InStatus(Run(Init(window, storage, now), es), id, true)
    requires stored ==> window && writeOk && importOk
    requires var s := Run(Init(window, storage, now), es);
             forall i :: 0 <= i < |later| ==> Harmless(later[i], s.creations[id].cacheKey, stored)
    requires var s := Step(Run(Init(window, storage, now), es), Approve(id, key, writeOk));
             !Expired(key, Run(s, later).now)
    ensures var s := Run(Init(window, storage, now), es);
            var t := Run(Step(s, Approve(id, key, writeOk)), later);
            var (t', outcome) := BeginRequest(t, s.creations[id].cacheKey, importOk, canSign);
            outcome == Hit(key) && t'.nextId == t.nextId
  {
    var s := Run(Init(window, storage, now), es);
    var k := s.creations[id].cacheKey;
    PendingIsUnique(window, storage, now, es, id);
    var after := Step(s, Approve(id, key, writeOk));
    WindowFixed(Init(window, storage, now), es);
    assert NoneRunning(after, k) by {
      forall other | other in after.creations && after.creations[other].cacheKey == k
        ensures !after.creations[other].status.Running?
      {
        assert other in Unfinished(s, k);
      }
    }
    RunKeeps(after, later, k, key, stored);
  }

  lemma StepWindowFixed(s: State, e: Event)
    ensures Step(s, e).window == s.window
  {
  }

  lemma {:induction false} WindowFixed(s: State, es: seq<Event>)
    ensures Run(s, es).window == s.window
  {
    if es == [] {
    } else {
      StepWindowFixed(Run(s, es[..|es| - 1]), es[|es| - 1]);
      WindowFixed(s, es[..|es| - 1]);
    }
  }

  // ---------- The two copies ----------

  ghost predicate Agree(s: State) {
    forall k :: k in s.memory && k in s.storage ==> s.memory[k] == s.storage[k]
  }

  predicate FailedWrite(e: Event) { e.Approve? && !e.writeOk }

  /** While a creation runs, neither copy holds its key. */
  ghost predicate RunningUncached(s: State) {
    forall id :: id in s.creations && s.creations[id].status.Running? ==>
      s.creations[id].cacheKey !in s.memory && s.creations[id].cacheKey !in s.storage
  }

  ghost predicate Written(s: State) {
    Agree(s) && (!s.window ==> s.storage == map[])
  }

  lemma WriteKeepsAgreement(s: State, e: Event)
    requires Written(s) && !FailedWrite(e)
    ensures Written(Step(s, e))
  {
  }

  ghost predicate Quiet(s: State) {
    Agree(s) && RunningUncached(s) && (!s.window ==> s.storage == map[])
  }

  lemma LoadKeepsQuiet(s: State, k: Text, importOk: bool)
    requires Quiet(s)
    ensures Quiet(LoadCached(s, k, importOk).0)
    ensures var (s', r) := LoadCached(s, k, importOk); r.None? ==> k !in s'.memory && k !in s'.storage
  {
  }

  lemma RequestKeepsQuiet(s: State, k: Text, importOk: bool, canSign: bool)
    requires Quiet(s)
    ensures Quiet(BeginRequest(s, k, importOk, canSign).0)
  {
    LoadKeepsQuiet(s, k, importOk);
  }

  lemma QuietKeepsAgreement(s: State, e: Event)
    requires Quiet(s) && !e.Clear?
    requires forall id, other :: id in s.creations && other in s.creations && id != other ==>
               s.creations[id].cacheKey != s.creations[other].cacheKey
    ensures Quiet(Step(s, e))
  {
    match e
    case Request(k, importOk, canSign) => RequestKeepsQuiet(s, k, importOk, canSign);
    case Approve(id, key, writeOk) =>
    case _ =>
  }

  lemma {:induction false} QuietRunAgrees(window: bool, storage: map<Text, SessionKey>, now: nat, es: seq<Event>)
    requires Clears(es) == 0
    ensures Quiet(Run(Init(window, storage, now), es))
  {
    if es == [] {
    } else {
      var init := es[..|es| - 1];
      QuietRunAgrees(window, storage, now, init);
      var s := Run(Init(window, storage, now), init);
      forall id, other | id in s.creations && other in s.creations && id != other
        ensures s.creations[id].cacheKey != s.creations[other].cacheKey
      {
        PendingIsUnique(window, storage, now, init, id);
        PendingIsUnique(window, storage, now, init, other);
      }
      QuietKeepsAgreement(s, es[|es| - 1]);
    }
  }

  lemma {:induction false} WrittenRunAgrees(window: bool, storage: map<Text, SessionKey>, now: nat, es: seq<Event>)
    requires forall i :: 0 <= i < |es| ==> !FailedWrite(es[i])
    ensures Written(Run(Init(window, storage, now), es))
  {
    if es == [] {
    } else {
      WrittenRunAgrees(window, storage, now, es[..|es| - 1]);
      WriteKeepsAgreement(Run(Init(window, storage, now), es[..|es| - 1]), es[|es| - 1]);
    }
  }

  /** The failing write of a key whose cache entry holds another key in storage. */
  predicate Splits(s: State, e: Event) {
    && e.Approve? && InStatus(s, e.id, true) && !(s.window && e.writeOk)
    && var k := s.creations[e.id].cacheKey; k in s.storage && s.storage[k] != e.key
  }

  /** From agreeing copies, exactly such an event makes them disagree. */
  lemma SplitsExactly(s: State, e: Event)
    requires Agree(s)
    ensures Agree(Step(s, e)) <==> !Splits(s, e)
  {
    if Splits(s, e) {
      var k := s.creations[e.id].cacheKey;
      assert k in Step(s, e).memory && k in Step(s, e).storage;
    }
  }

  ghost predicate AlwaysAgree(s: State, es: seq<Event>) {
    forall n :: 0 <= n <= |es| ==> Agree(Run(s, es[..n]))
  }

  predicate NeverSplits(s: State, es: seq<Event>) {
    forall n :: 0 <= n < |es| ==> !Splits(Run(s, es[..n]), es[n])
  }

  lemma RunNext(s: State, es: seq<Event>, n: nat)
    requires n < |es|
    ensures Run(s, es[..n + 1]) == Step(Run(s, es[..n]), es[n])
  {
    assert es[..n + 1][..n] == es[..n];
  }

  /** Without splits, the copies agree after every event. */
  lemma {:induction false} UnsplitAgrees(s: State, es: seq<Event>, n: nat)
    requires Agree(s) && NeverSplits(s, es) && n <= |es|
    ensures Agree(Run(s, es[..n]))
  {
    if n == 0 {
      assert es[..0] == [];
    } else {
      UnsplitAgrees(s, es, n - 1);
      RunNext(s, es, n - 1);
      SplitsExactly(Run(s, es[..n - 1]), es[n - 1]);
    }
  }

  /** The two copies agree all through a run exactly when none of its events is a splitting write. */
  lemma CopiesAgreeExactly(window: bool, storage: map<Text, SessionKey>, now: nat, es: seq<Event>)
    ensures AlwaysAgree(Init(window, storage, now), es) <==> NeverSplits(Init(window, storage, now), es)
  {
    var s := Init(window, storage, now);
    if NeverSplits(s, es) {
      forall n | 0 <= n <= |es| ensures Agree(Run(s, es[..n])) {
        UnsplitAgrees(s, es, n);
      }
    }
    if AlwaysAgree(s, es) {
      forall n | 0 <= n < |es| ensures !Splits(Run(s, es[..n]), es[n]) {
        RunNext(s, es, n);
        assert Agree(Run(s, es[..n])) && Agree(Run(s, es[..n + 1]));
        SplitsExactly(Run(s, es[..n]), es[n]);
      }
    }
  }

  /** A run splits only if it has both a clear and a failed write, and so the copies agree without one of them. */
  lemma CopiesAgree(window: bool, storage: map<Text, SessionKey>, now: nat, es: seq<Event>)
    requires Clears(es) == 0 || forall i :: 0 <= i < |es| ==> !FailedWrite(es[i])
    ensures NeverSplits(Init(window, storage, now), es) && Agree(Run(Init(window, storage, now), es))
  {
    var s := Init(window, storage, now);
    forall n | 0 <= n < |es| ensures !Splits(Run(s, es[..n]), es[n]) {
      if Clears(es) == 0 {
        ClearsOfPrefix(es, n);
        QuietRunAgrees(window, storage, now, es[..n]);
      } else {
        WrittenRunAgrees(window, storage, now, es[..n]);
      }
    }
    UnsplitAgrees(s, es, |es|);
    assert es[..|es|] == es;
  }

  /** With one of each they do: the cleared creation's key stays stored, its successor's is in memory. */
  lemma CopiesCanDisagree(k: Text, a: SessionKey, b: SessionKey)
    requires a != b
    ensures var es := [Request(k, true, true), Clear, Request(k, true, true), Approve(0, a, true), Approve(1, b, false)];
            Clears(es) == 1 && !Agree(Run(Init(true, map[], 0), es))
  {
    var s0 := Init(true, map[], 0);
    var e1 := [Request(k, true, true)];
    var e3 := e1 + [Clear, Request(k, true, true)];
    var e5 := e3 + [Approve(0, a, true), Approve(1, b, false)];
    assert e1[..0] == [];
    RunTwo(s0, e1, Clear, Request(k, true, true));
    RunTwo(s0, e3, Approve(0, a, true), Approve(1, b, false));
    assert e5 == [Request(k, true, true), Clear, Request(k, true, true), Approve(0, a, true), Approve(1, b, false)];
    assert Run(s0, e1).nextId == 1;
    var s := Run(s0, e5);
    assert k in s.memory && k in s.storage && s.memory[k] == b && s.storage[k] == a;
  }

  // ---------- The module's variables ----------

  /** The module-level maps, sessionStorage and the creations in flight, updated in place. */
  class SessionKeys {
    const window: bool
    var sessionKeyCache: map<Text, SessionKey>
    var sessionStorage: map<Text, SessionKey>
    var pendingSessionKeyPromises: map<Text, nat>
    var creations: map<nat, Creation>
    var nextId: nat
    var now: nat

    function Contents(): State
      reads this
    {
      State(window, sessionKeyCache, sessionStorage, pendingSessionKeyPromises, creations, nextId, now)
    }

    /** Every pending entry belongs to an unfinished creation of its key. */
    ghost predicate Valid()
      reads this
    {
      PendingKnown(Contents())
    }

    constructor (window: bool, storage: map<Text, SessionKey>, now: nat)
      ensures Contents() == Init(window, storage, now) && Valid()
    {
      this.window := window;
      sessionKeyCache, pendingSessionKeyPromises, creations := map[], map[], map[];
      sessionStorage := if window then storage else map[];
      nextId := 0;
      this.now := now;
    }

    method ClearCachedSessionKey(k: Text)
      modifies this
      ensures Contents() == ClearCached(old(Contents()), k)
      ensures old(Valid()) ==> Valid()
    {
      sessionKeyCache := sessionKeyCache - {k};
      if !window {
        return;
      }
      sessionStorage := sessionStorage - {k};
    }

    method LoadCachedSessionKey(k: Text, importOk: bool) returns (r: Option<SessionKey>)
      modifies this
      ensures (Contents(), r) == LoadCached(old(Contents()), k, importOk)
      ensures old(Valid()) ==> Valid()
    {
      if Valid() {
        LoadCachedFrame(Contents(), k, importOk);
        SameKnown(Contents(), LoadCached(Contents(), k, importOk).0);
      }
      if k in sessionKeyCache {
        if !Expired(sessionKeyCache[k], now) {
          return Some(sessionKeyCache[k]);
        }
        ClearCachedSessionKey(k);
      }
      if !window || k !in sessionStorage {
        return None;
      }
      var restored := sessionStorage[k];
      if !importOk || Expired(restored, now) {
        ClearCachedSessionKey(k);
        return None;
      }
      sessionKeyCache := sessionKeyCache[k := restored];
      r := Some(restored);
    }

    method PersistSessionKey(k: Text, key: SessionKey, writeOk: bool)
      modifies this
      ensures Contents() == Persist(old(Contents()), k, key, writeOk)
      ensures old(Valid()) ==> Valid()
    {
      sessionKeyCache := sessionKeyCache[k := key];
      if window && writeOk {
        sessionStorage := sessionStorage[k := key];
      }
    }

    /** `getOrCreateSessionKey` up to its first `await`. */
    method GetOrCreateSessionKey(k: Text, importOk: bool, canSign: bool) returns (r: Outcome)
      modifies this
      ensures (Contents(), r) == BeginRequest(old(Contents()), k, importOk, canSign)
      ensures Contents() == Step(old(Contents()), Request(k, importOk, canSign))
      ensures old(Valid()) ==> Valid()
    {
      if Valid() {
        StepKeepsKnown(Contents(), Request(k, importOk, canSign));
      }
      var cached := LoadCachedSessionKey(k, importOk);
      if cached.Some? {
        return Hit(cached.value);
      }
      if k in pendingSessionKeyPromises {
        return Joined(pendingSessionKeyPromises[k]);
      }
      if !canSign {
        return NoWallet;
      }
      creations := creations[nextId := Creation(k, Running)];
      pendingSessionKeyPromises := pendingSessionKeyPromises[k := nextId];
      r := Started(nextId);
      nextId := nextId + 1;
    }

    /** The rest of the creation: the wallet answered, or refused. */
    method Settle(id: nat, answer: Option<SessionKey>, writeOk: bool)
      requires InStatus(Contents(), id, true)
      modifies this
      ensures Contents() == Step(old(Contents()), if answer.Some? then Approve(id, answer.value, writeOk) else Refuse(id))
      ensures old(Valid()) ==> Valid()
    {
      if Valid() {
        StepKeepsKnown(Contents(), if answer.Some? then Approve(id, answer.value, writeOk) else Refuse(id));
      }
      var c := creations[id];
      if answer.None? {
        creations := creations[id := c.(status := Rejected)];
        return;
      }
      creations := creations[id := c.(status := Resolved(answer.value))];
      PersistSessionKey(c.cacheKey, answer.value, writeOk);
    }

    method RunFinally(id: nat)
      requires InStatus(Contents(), id, false)
      modifies this
      ensures Contents() == Step(old(Contents()), Finally(id))
      ensures old(Valid()) ==> Valid()
    {
      if Valid() {
        StepKeepsKnown(Contents(), Finally(id));
      }
      pendingSessionKeyPromises := pendingSessionKeyPromises - {creations[id].cacheKey};
      creations := creations - {id};
    }

    method ClearSealSessionCache()
      modifies this
      ensures Contents() == Step(old(Contents()), Clear)
      ensures old(Valid()) ==> Valid()
    {
      if Valid() {
        StepKeepsKnown(Contents(), Clear);
      }
      sessionKeyCache := map[];
      pendingSessionKeyPromises := map[];
    }

    /** The page is loaded again: the maps and all creations of the old page are gone, sessionStorage stays. */
    method ReloadPage()
      modifies this
      ensures Contents() == Step(old(Contents()), Reload)
      ensures old(Valid()) ==> Valid()
    {
      sessionKeyCache, pendingSessionKeyPromises, creations := map[], map[], map[];
    }
  }
}
