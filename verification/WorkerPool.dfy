/**
 `mapWithConcurrency`: workers that share `nextIndex` and `results`. An event is the code one
 worker runs between two `await`s; a reply is whatever the mapper may answer for its item.
 */
module WorkerPool {
  import opened Text

  /** Where a worker stands: not begun, waiting for the mapper's answer on an index, done, or rejected. */
  datatype Worker = Fresh | Waiting(index: nat) | Done | Failed

  /** `calls` is the log of the indices the mapper was called with, in order. */
  datatype Pool<T, R> = Pool(
    items: seq<T>,
    nextIndex: nat,
    results: seq<Option<R>>,
    workers: seq<Worker>,
    calls: seq<nat>)

  datatype Event<R> =
    | Begin(worker: nat)
    | Reply(worker: nat, value: R)
    | Reject(worker: nat)

  /** `Math.max(1, Math.min(limit, items.length))` */
  function WorkerCount(limit: int, n: nat): (k: nat)
    ensures k >= 1
  {
    var least := if limit < n then limit else n;
    if least < 1 then 1 else least
  }

  function Init<T, R>(items: seq<T>, limit: int): Pool<T, R> {
    Pool(items, 0, seq(|items|, _ => None), seq(WorkerCount(limit, |items|), _ => Fresh), [])
  }

  /** The loop head: take the next index and call the mapper, or stop. */
  function TakeNext<T, R>(p: Pool<T, R>, w: nat): Pool<T, R>
    requires w < |p.workers|
  {
    if p.nextIndex < |p.items| then
      p.(nextIndex := p.nextIndex + 1,
         workers := p.workers[w := Waiting(p.nextIndex)],
         calls := p.calls + [p.nextIndex])
    else p.(workers := p.workers[w := Done])
  }

  ghost predicate Enabled<T, R(!new)>(p: Pool<T, R>, e: Event<R>, answers: (T, nat, R) -> bool) {
    match e
    case Begin(w) => w < |p.workers| && p.workers[w].Fresh?
    case Reply(w, v) =>
      && w < |p.workers| && p.workers[w].Waiting?
      && (p.workers[w].index < |p.items| ==> answers(p.items[p.workers[w].index], p.workers[w].index, v))
    case Reject(w) => w < |p.workers| && p.workers[w].Waiting?
  }

  function Step<T, R>(p: Pool<T, R>, e: Event<R>): Pool<T, R> {
    match e
    case Begin(w) => if w < |p.workers| then TakeNext(p, w) else p
    case Reply(w, v) =>
      if w < |p.workers| && p.workers[w].Waiting? && p.workers[w].index < |p.results| then
        TakeNext(p.(results := p.results[p.workers[w].index := Some(v)]), w)
      else p
    case Reject(w) => if w < |p.workers| then p.(workers := p.workers[w := Failed]) else p
  }

  /** Every event of the run is enabled when it happens. */
  ghost predicate ValidRun<T, R(!new)>(p: Pool<T, R>, es: seq<Event<R>>, answers: (T, nat, R) -> bool)
    decreases es
  {
    es == [] || (Enabled(p, es[0], answers) && ValidRun(Step(p, es[0]), es[1..], answers))
  }

  function Run<T, R>(p: Pool<T, R>, es: seq<Event<R>>): Pool<T, R>
    decreases es
  {
    if es == [] then p else Run(Step(p, es[0]), es[1..])
  }

  // ---------- The invariant ----------

  predicate HeldBy(workers: seq<Worker>, i: nat, w: nat) {
    w < |workers| && workers[w] == Waiting(i)
  }

  predicate SomeFailed(workers: seq<Worker>) {
    exists w :: 0 <= w < |workers| && workers[w].Failed?
  }

  /**
   The mapper was called with 0, 1, 2, ... once each; a called index has its own answer, or one
   worker waits for it, or some worker failed.
   */
  ghost predicate Inv<T, R(!new)>(p: Pool<T, R>, k: nat, answers: (T, nat, R) -> bool) {
    && |p.workers| == k && |p.results| == |p.items| && p.nextIndex <= |p.items|
    && p.calls == seq(p.nextIndex, i => i)
    && (forall w :: 0 <= w < k && p.workers[w].Waiting? ==> p.workers[w].index < p.nextIndex)
    && (forall v, w :: 0 <= v < w < k && p.workers[v].Waiting? ==> p.workers[v] != p.workers[w])
    && (forall w :: 0 <= w < k && p.workers[w].Waiting? ==> p.results[p.workers[w].index].None?)
    && (forall i :: 0 <= i < |p.items| && p.results[i].Some? ==>
          i < p.nextIndex && answers(p.items[i], i, p.results[i].value))
    && (forall i :: 0 <= i < p.nextIndex && p.results[i].None? ==>
          SomeFailed(p.workers) || exists w :: HeldBy(p.workers, i, w))
    && (forall w :: 0 <= w < k && p.workers[w].Done? ==> p.nextIndex == |p.items|)
  }

  lemma InitInv<T, R(!new)>(items: seq<T>, limit: int, answers: (T, nat, R) -> bool)
    ensures Inv(Init<T, R>(items, limit), WorkerCount(limit, |items|), answers)
  {
  }

  /** Taking an index, by a worker that holds none. */
  lemma TakeNextInv<T, R(!new)>(p: Pool<T, R>, w: nat, k: nat, answers: (T, nat, R) -> bool)
    requires Inv(p, k, answers) && w < k && p.workers[w].Fresh?
    ensures Inv(TakeNext(p, w), k, answers)
  {
    var q := TakeNext(p, w);
    forall i | 0 <= i < q.nextIndex && q.results[i].None?
      ensures SomeFailed(q.workers) || exists v :: HeldBy(q.workers, i, v)
    {
      if i == p.nextIndex {
        assert HeldBy(q.workers, i, w);
      } else if SomeFailed(p.workers) {
        var v :| 0 <= v < k && p.workers[v].Failed?;
        assert q.workers[v].Failed?;
      } else {
        var v :| HeldBy(p.workers, i, v);
        assert HeldBy(q.workers, i, v);
      }
    }
  }

  /** Storing an answer frees the worker. */
  lemma StoreInv<T, R(!new)>(p: Pool<T, R>, w: nat, value: R, k: nat, answers: (T, nat, R) -> bool)
    requires Inv(p, k, answers) && w < k && p.workers[w].Waiting?
    requires answers(p.items[p.workers[w].index], p.workers[w].index, value)
    ensures var i := p.workers[w].index;
            Inv(p.(results := p.results[i := Some(value)], workers := p.workers[w := Fresh]), k, answers)
  {
    var j := p.workers[w].index;
    var q := p.(results := p.results[j := Some(value)], workers := p.workers[w := Fresh]);
    forall i | 0 <= i < q.nextIndex && q.results[i].None?
      ensures SomeFailed(q.workers) || exists v :: HeldBy(q.workers, i, v)
    {
      if SomeFailed(p.workers) {
        var v :| 0 <= v < k && p.workers[v].Failed?;
        assert q.workers[v].Failed?;
      } else {
        var v :| HeldBy(p.workers, i, v);
        assert HeldBy(q.workers, i, v);
      }
    }
  }

  lemma RejectInv<T, R(!new)>(p: Pool<T, R>, w: nat, k: nat, answers: (T, nat, R) -> bool)
    requires Inv(p, k, answers) && w < k && p.workers[w].Waiting?
    ensures Inv(p.(workers := p.workers[w := Failed]), k, answers)
  {
    assert p.workers[w := Failed][w].Failed?;
  }

  lemma StepInv<T, R(!new)>(p: Pool<T, R>, e: Event<R>, k: nat, answers: (T, nat, R) -> bool)
    requires Inv(p, k, answers) && Enabled(p, e, answers)
    ensures Inv(Step(p, e), k, answers)
  {
    match e
    case Begin(w) => TakeNextInv(p, w, k, answers);
    case Reject(w) => RejectInv(p, w, k, answers);
    case Reply(w, value) =>
      var i := p.workers[w].index;
      StoreInv(p, w, value, k, answers);
      var q := p.(results := p.results[i := Some(value)], workers := p.workers[w := Fresh]);
      TakeNextInv(q, w, k, answers);
      assert TakeNext(q, w) == Step(p, e);
  }

  lemma {:induction false} RunInv<T, R(!new)>(p: Pool<T, R>, es: seq<Event<R>>, k: nat, answers: (T, nat, R) -> bool)
    requires Inv(p, k, answers) && ValidRun(p, es, answers)
    ensures Inv(Run(p, es), k, answers) && Run(p, es).items == p.items
    decreases es
  {
    if es == [] {
    } else {
      StepInv(p, es[0], k, answers);
      RunInv(Step(p, es[0]), es[1..], k, answers);
    }
  }

  // ---------- Main results ----------

  function Busy(workers: seq<Worker>): (n: nat)
    ensures n <= |workers|
  {
    if workers == [] then 0 else (if workers[0].Waiting? then 1 else 0) + Busy(workers[1..])
  }

  /** At every moment: no index is mapped twice, and no more calls are open than the limit allows. */
  lemma NeverTwiceNeverTooMany<T, R(!new)>(items: seq<T>, limit: int, es: seq<Event<R>>, answers: (T, nat, R) -> bool)
    requires ValidRun(Init<T, R>(items, limit), es, answers)
    ensures var p := Run(Init<T, R>(items, limit), es);
            && p.calls == seq(|p.calls|, i => i) && |p.calls| <= |items|
            && Busy(p.workers) <= WorkerCount(limit, |items|)
  {
    InitInv<T, R>(items, limit, answers);
    RunInv(Init<T, R>(items, limit), es, WorkerCount(limit, |items|), answers);
  }

  /** The workers whose call of the mapper is open. */
  function OpenCalls(workers: seq<Worker>): set<nat> {
    set w: nat | w < |workers| && workers[w].Waiting?
  }

  lemma {:induction false} NumbersBelow(n: nat) returns (s: set<nat>)
    ensures |s| == n && forall i: nat :: i in s <==> i < n
  {
    if n == 0 {
      s := {};
    } else {
      var below := NumbersBelow(n - 1);
      s := below + {n - 1};
    }
  }

  lemma FewOpen(workers: seq<Worker>)
    ensures |OpenCalls(workers)| <= |workers|
  {
    var all := NumbersBelow(|workers|);
    assert all == OpenCalls(workers) + (all - OpenCalls(workers));
  }

  /** At every moment one call at most is open, or at most as many as the limit and as there are items. */
  lemma LimitHolds<T, R(!new)>(items: seq<T>, limit: int, es: seq<Event<R>>, answers: (T, nat, R) -> bool)
    requires ValidRun(Init<T, R>(items, limit), es, answers)
    ensures var open := |OpenCalls(Run(Init<T, R>(items, limit), es).workers)|;
            open <= 1 || (open <= limit && open <= |items|)
  {
    InitInv<T, R>(items, limit, answers);
    RunInv(Init<T, R>(items, limit), es, WorkerCount(limit, |items|), answers);
    FewOpen(Run(Init<T, R>(items, limit), es).workers);
  }

  /** The run in which the first `n` workers begin. */
  function Beginnings<R>(n: nat): (es: seq<Event<R>>)
    ensures |es| == n && forall i :: 0 <= i < n ==> es[i] == Begin(i)
  {
    seq(n, i requires 0 <= i < n => Begin(i))
  }

  /** The first `n` workers wait for the first `n` answers, the others have not begun. */
  ghost predicate Begun<T, R>(p: Pool<T, R>, n: nat, k: nat) {
    && |p.workers| == k && n <= k && n <= |p.items| && p.nextIndex == n
    && (forall w :: 0 <= w < n ==> p.workers[w] == Waiting(w))
    && (forall w :: n <= w < k ==> p.workers[w].Fresh?)
  }

  lemma {:induction false} WorkersBegin<T, R(!new)>(p: Pool<T, R>, from: nat, to: nat, k: nat, answers: (T, nat, R) -> bool)
    requires Begun(p, from, k) && from <= to <= k && to <= |p.items|
    ensures ValidRun(p, Beginnings<R>(to)[from..], answers)
    ensures Begun(Run(p, Beginnings<R>(to)[from..]), to, k) && Run(p, Beginnings<R>(to)[from..]).items == p.items
    decreases if from <= to then to - from else 0
  {
    var es := Beginnings<R>(to)[from..];
    if from == to {
      assert es == [];
    } else {
      assert es[0] == Begin(from) && es[1..] == Beginnings<R>(to)[from + 1..];
      WorkersBegin(Step(p, es[0]), from + 1, to, k, answers);
    }
  }

  /** The limit is used: with items, some run has as many calls open as the lesser of the limit and the items. */
  lemma LimitIsMet<T, R(!new)>(items: seq<T>, limit: int, answers: (T, nat, R) -> bool)
    requires limit >= 1 && items != []
    ensures var n := if limit < |items| then limit else |items|;
            var es := Beginnings<R>(n);
            && ValidRun(Init<T, R>(items, limit), es, answers)
            && |OpenCalls(Run(Init<T, R>(items, limit), es).workers)| == n
  {
    var n := if limit < |items| then limit else |items|;
    var es := Beginnings<R>(n);
    var p := Init<T, R>(items, limit);
    assert es[0..] == es;
    WorkersBegin(p, 0, n, |p.workers|, answers);
    var all := NumbersBelow(n);
    assert OpenCalls(Run(p, es).workers) == all;
  }

  predicate Finished<T, R>(p: Pool<T, R>) {
    forall w :: 0 <= w < |p.workers| ==> p.workers[w].Done?
  }

  /** When all workers are done, the mapper has been called once per index and every result is its item's own. */
  lemma ResultsBelong<T, R(!new)>(items: seq<T>, limit: int, es: seq<Event<R>>, answers: (T, nat, R) -> bool)
    requires ValidRun(Init<T, R>(items, limit), es, answers)
    requires Finished(Run(Init<T, R>(items, limit), es))
    ensures var p := Run(Init<T, R>(items, limit), es);
            && p.calls == seq(|items|, i => i) && |p.results| == |items|
            && forall i :: 0 <= i < |items| ==> p.results[i].Some? && answers(items[i], i, p.results[i].value)
  {
    var k := WorkerCount(limit, |items|);
    InitInv<T, R>(items, limit, answers);
    RunInv(Init<T, R>(items, limit), es, k, answers);
    var p := Run(Init<T, R>(items, limit), es);
    assert p.workers[0].Done?;
    assert !SomeFailed(p.workers);
    assert forall i, w :: !HeldBy(p.workers, i, w);
  }

  /** Nothing more can happen. */
  ghost predicate Stuck<T, R(!new)>(p: Pool<T, R>, answers: (T, nat, R) -> bool) {
    forall e :: !Enabled(p, e, answers)
  }

  /** Nothing more can happen unless the mapper rejects. */
  ghost predicate Quiet<T, R(!new)>(p: Pool<T, R>, answers: (T, nat, R) -> bool) {
    forall e: Event<R> :: !e.Reject? ==> !Enabled(p, e, answers)
  }

  ghost predicate HasAnswer<T, R(!new)>(answers: (T, nat, R) -> bool, x: T, i: nat) {
    exists v: R :: answers(x, i, v)
  }

  /** The mapper has an answer to every call. */
  ghost predicate Answers<T(!new), R(!new)>(answers: (T, nat, R) -> bool) {
    forall x: T, i: nat :: HasAnswer(answers, x, i)
  }

  /** A pool in which nothing more can happen has only workers that are done or have failed. */
  lemma StuckWorkers<T, R(!new)>(p: Pool<T, R>, answers: (T, nat, R) -> bool)
    requires Stuck(p, answers)
    ensures forall w :: 0 <= w < |p.workers| ==> p.workers[w].Done? || p.workers[w].Failed?
  {
    forall w | 0 <= w < |p.workers| ensures p.workers[w].Done? || p.workers[w].Failed? {
      assert !Enabled(p, Begin(w), answers) && !Enabled(p, Reject(w), answers);
    }
  }

  predicate NoneFailed(workers: seq<Worker>) {
    forall w :: 0 <= w < |workers| ==> !workers[w].Failed?
  }

  lemma {:induction false} NoneFails<T, R(!new)>(p: Pool<T, R>, es: seq<Event<R>>, answers: (T, nat, R) -> bool)
    requires NoneFailed(p.workers) && ValidRun(p, es, answers)
    requires forall i :: 0 <= i < |es| ==> !es[i].Reject?
    ensures NoneFailed(Run(p, es).workers)
    decreases es
  {
    if es == [] {
    } else {
      NoneFails(Step(p, es[0]), es[1..], answers);
    }
  }

  /** A run without a rejection that can only go on with one, or not at all, has finished, if the mapper answers every call. */
  lemma {:induction false} RunsFinish<T(!new), R(!new)>(items: seq<T>, limit: int, es: seq<Event<R>>, answers: (T, nat, R) -> bool)
    requires Answers(answers) && ValidRun(Init<T, R>(items, limit), es, answers)
    requires forall i :: 0 <= i < |es| ==> !es[i].Reject?
    requires Quiet(Run(Init<T, R>(items, limit), es), answers)
    ensures Finished(Run(Init<T, R>(items, limit), es))
  {
    var p := Run(Init<T, R>(items, limit), es);
    InitInv<T, R>(items, limit, answers);
    RunInv(Init<T, R>(items, limit), es, WorkerCount(limit, |items|), answers);
    NoneFails(Init<T, R>(items, limit), es, answers);
    forall w | 0 <= w < |p.workers| ensures p.workers[w].Done? {
      assert !Enabled(p, Begin(w), answers);
      if p.workers[w].Waiting? {
        var i := p.workers[w].index;
        assert HasAnswer(answers, p.items[i], i);
        var v :| answers(p.items[i], i, v);
        assert Enabled(p, Reply(w, v), answers);
      }
    }
  }

  /** What is left to do; every event lowers it. */
  function Measure<T, R>(p: Pool<T, R>): int {
    2 * (|p.items| - p.nextIndex) + Weight(p.workers)
  }

  function Weight(workers: seq<Worker>): nat {
    if workers == [] then 0
    else (match workers[0] case Fresh => 1 case Waiting(_) => 1 case _ => 0) + Weight(workers[1..])
  }

  lemma {:induction false} WeightUpdate(workers: seq<Worker>, w: nat, x: Worker)
    requires w < |workers|
    ensures Weight(workers[w := x]) == Weight(workers) - Weight([workers[w]]) + Weight([x])
  {
    if w > 0 {
      WeightUpdate(workers[1..], w - 1, x);
      assert workers[w := x][1..] == workers[1..][w - 1 := x];
    } else {
      assert workers[w := x][1..] == workers[1..];
    }
  }

  lemma StepLowers<T, R(!new)>(p: Pool<T, R>, e: Event<R>, k: nat, answers: (T, nat, R) -> bool)
    requires Inv(p, k, answers) && Enabled(p, e, answers)
    ensures 0 <= Measure(Step(p, e)) < Measure(p)
  {
    StepInv(p, e, k, answers);
    if p.nextIndex < |p.items| {
      WeightUpdate(p.workers, e.worker, Waiting(p.nextIndex));
    }
    WeightUpdate(p.workers, e.worker, Done);
    WeightUpdate(p.workers, e.worker, Failed);
  }

  lemma {:induction false} WeightOfFresh(n: nat)
    ensures Weight(seq(n, _ => Fresh)) == n
  {
    if n == 0 {
    } else {
      WeightOfFresh(n - 1);
      assert seq(n, _ => Fresh)[1..] == seq(n - 1, _ => Fresh);
    }
  }

  lemma {:induction false} RunLength<T, R(!new)>(p: Pool<T, R>, es: seq<Event<R>>, k: nat, answers: (T, nat, R) -> bool)
    requires Inv(p, k, answers) && ValidRun(p, es, answers)
    ensures |es| <= Measure(p)
    decreases es
  {
    if es == [] {
    } else {
      StepLowers(p, es[0], k, answers);
      StepInv(p, es[0], k, answers);
      RunLength(Step(p, es[0]), es[1..], k, answers);
    }
  }

  /** No run goes on for ever. */
  lemma PoolTerminates<T, R(!new)>(items: seq<T>, limit: int, es: seq<Event<R>>, answers: (T, nat, R) -> bool)
    requires ValidRun(Init<T, R>(items, limit), es, answers)
    ensures |es| <= 2 * |items| + WorkerCount(limit, |items|)
  {
    var k := WorkerCount(limit, |items|);
    InitInv<T, R>(items, limit, answers);
    RunLength(Init<T, R>(items, limit), es, k, answers);
    WeightOfFresh(k);
  }

  // ---------- The function's variables ----------

  /** The variables the workers share, updated in place. */
  class SharedPool<T, R> {
    const items: seq<T>
    const results: array<Option<R>>
    var nextIndex: nat
    var workers: seq<Worker>
    var calls: seq<nat>

    function Contents(): Pool<T, R>
      reads this, results
    {
      Pool(items, nextIndex, results[..], workers, calls)
    }

    constructor (items: seq<T>, limit: int)
      ensures fresh(results) && Contents() == Init(items, limit)
    {
      this.items := items;
      var slots := new Option<R>[|items|](_ => None);
      results := slots;
      nextIndex, calls := 0, [];
      workers := seq(WorkerCount(limit, |items|), _ => Fresh);
    }

    /** The head of a worker's loop. */
    method Advance(w: nat)
      requires w < |workers|
      modifies this
      ensures Contents() == TakeNext(old(Contents()), w)
    {
      if nextIndex < |items| {
        var currentIndex := nextIndex;
        nextIndex := nextIndex + 1;
        calls := calls + [currentIndex];
        workers := workers[w := Waiting(currentIndex)];
      } else {
        workers := workers[w := Done];
      }
    }

    /** The mapper's answer arrives: store it and go round the loop. */
    method Resume(w: nat, value: R)
      requires w < |workers| && workers[w].Waiting? && workers[w].index < results.Length
      modifies this, results
      ensures Contents() == Step(old(Contents()), Reply(w, value))
    {
      results[workers[w].index] := Some(value);
      assert results[..] == old(results[..])[workers[w].index := Some(value)];
      Advance(w);
    }
  }
}
