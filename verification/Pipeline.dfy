/**
 The processing pipeline as a state machine (forwarder/src/main.rs, the processor
 loop, and forwarder/src/writer.rs, `write_batch`): what is stored, what waits in
 the retry queue and what waits in the batch, for items of any type.
 */
module Pipeline {
  const MAX_RETRY: nat := 10_000
  const BATCH_SIZE: nat := 100

  /** How one call of `write_batch` ends. */
  datatype Outcome = Stored | PoolFailed | InsertFailed

  datatype Pipe<T> = Pipe(stored: seq<T>, queue: seq<T>, batch: seq<T>)

  /** One turn of the processor loop: an item arrives, or the flush timer ticks. */
  datatype Act = Arrive(outcome: Outcome) | Tick(outcome: Outcome)

  /** The last 10,000 items, or all of them if there are fewer. */
  function Newest<T>(s: seq<T>): (r: seq<T>)
    ensures |r| == (if |s| < 10_000 then |s| else 10_000) && r == s[|s| - |r|..]
  {
    if |s| <= MAX_RETRY then s else s[|s| - MAX_RETRY..]
  }

  /** The items a queue of `s` pushes out at the cap. */
  function Evicted<T>(s: seq<T>): seq<T> {
    s[..|s| - |Newest(s)|]
  }

  lemma NewestKeepsRest<T>(s: seq<T>)
    ensures s == Evicted(s) + Newest(s)
  {
  }

  /** `write_batch` followed by `batch.clear()`. A failed pool checkout forgets the old retries. */
  function Flush<T>(p: Pipe<T>, outcome: Outcome): Pipe<T> {
    if p.batch == [] then p
    else
      match outcome
      case Stored => Pipe(p.stored + p.queue + p.batch, [], [])
      case PoolFailed => Pipe(p.stored, Newest(p.batch), [])
      case InsertFailed => Pipe(p.stored, Newest(p.queue + p.batch), [])
  }

  function Push<T>(p: Pipe<T>, item: T): Pipe<T> {
    Pipe(p.stored, p.queue, p.batch + [item])
  }

  function Receive<T>(p: Pipe<T>, item: T, outcome: Outcome): Pipe<T> {
    var q := Push(p, item);
    if |q.batch| >= BATCH_SIZE then Flush(q, outcome) else q
  }

  function Arrivals(acts: seq<Act>): nat {
    if acts == [] then 0
    else Arrivals(acts[..|acts| - 1]) + (if acts[|acts| - 1].Arrive? then 1 else 0)
  }

  /** The state after `acts`, when `items` arrive in order. */
  function Run<T>(acts: seq<Act>, items: seq<T>): Pipe<T>
    requires Arrivals(acts) <= |items|
  {
    if acts == [] then Pipe([], [], [])
    else
      var front := acts[..|acts| - 1];
      match acts[|acts| - 1]
      case Arrive(outcome) => Receive(Run(front, items), items[Arrivals(front)], outcome)
      case Tick(outcome) => Flush(Run(front, items), outcome)
  }

  function Content<T>(p: Pipe<T>): seq<T> {
    p.stored + p.queue + p.batch
  }

  // ----- bounds -----

  predicate Bounded<T>(p: Pipe<T>) {
    |p.queue| <= MAX_RETRY && |p.batch| < BATCH_SIZE
  }

  /** At every turn the retry queue is within its cap and the batch below its size. */
  lemma {:induction false} RunIsBounded<T>(acts: seq<Act>, items: seq<T>)
    requires Arrivals(acts) <= |items|
    ensures Bounded(Run(acts, items)) && |Run(acts, items).queue| <= 10_000 && |Run(acts, items).batch| < 100
    decreases |acts|
  {
    if acts != [] {
      RunIsBounded(acts[..|acts| - 1], items);
    }
  }

  /** After a failed insert the queue holds the newest of everything that waited, in order. */
  lemma FailedInsertKeepsNewest<T>(p: Pipe<T>)
    requires p.batch != []
    ensures
      var all, q := p.queue + p.batch, Flush(p, InsertFailed).queue;
      && |q| == (if |all| < MAX_RETRY then |all| else MAX_RETRY)
      && q == all[|all| - |q|..]
  {
  }

  // ----- what is lost -----

  /** Lost by one flush: evicted at the cap, or taken from the queue and not put back. */
  function LostByFlush<T>(p: Pipe<T>, outcome: Outcome): seq<T> {
    if p.batch == [] then []
    else
      match outcome
      case Stored => []
      case PoolFailed => p.queue + Evicted(p.batch)
      case InsertFailed => Evicted(p.queue + p.batch)
  }

  function LostByAct<T>(p: Pipe<T>, act: Act, items: seq<T>, n: nat): seq<T>
    requires act.Arrive? ==> n < |items|
  {
    match act
    case Tick(outcome) => LostByFlush(p, outcome)
    case Arrive(outcome) =>
      var q := Push(p, items[n]);
      if |q.batch| >= BATCH_SIZE then LostByFlush(q, outcome) else []
  }

  /** Everything lost in a run, in the order it was lost. */
  function Lost<T>(acts: seq<Act>, items: seq<T>): seq<T>
    requires Arrivals(acts) <= |items|
  {
    if acts == [] then []
    else
      var front := acts[..|acts| - 1];
      Lost(front, items) + LostByAct(Run(front, items), acts[|acts| - 1], items, Arrivals(front))
  }

  /** There is nothing to write, the write succeeds, or what fails to be written can all be kept. */
  predicate LossFree<T(==)>(p: Pipe<T>, outcome: Outcome) {
    || p.batch == [] || outcome == Stored
    || (outcome == PoolFailed && p.queue == [])
    || (outcome == InsertFailed && |p.queue| + |p.batch| <= MAX_RETRY)
  }

  /** Which flushes of a bounded state lose nothing. */
  lemma LossFreeFlush<T>(p: Pipe<T>, outcome: Outcome)
    requires |p.batch| <= BATCH_SIZE
    ensures LostByFlush(p, outcome) == [] <==> LossFree(p, outcome)
  {
    if p.batch != [] && outcome == PoolFailed && p.queue != [] {
      assert LostByFlush(p, outcome)[0] == p.queue[0];
    }
  }

  lemma FlushConserves<T>(p: Pipe<T>, outcome: Outcome)
    ensures multiset(Content(Flush(p, outcome))) + multiset(LostByFlush(p, outcome)) == multiset(Content(p))
    ensures LostByFlush(p, outcome) == [] ==> Content(Flush(p, outcome)) == Content(p)
  {
    if p.batch == [] || outcome == Stored {
      assert Content(Flush(p, outcome)) == Content(p);
    } else {
      var gone := if outcome == PoolFailed then p.queue else [];
      var kept := if outcome == PoolFailed then p.batch else p.queue + p.batch;
      FailedFlush(p, outcome, gone, kept);
      Conserved(p.stored, gone, kept);
    }
  }

  lemma FailedFlush<T>(p: Pipe<T>, outcome: Outcome, gone: seq<T>, kept: seq<T>)
    requires p.batch != [] && outcome != Stored
    requires gone == if outcome == PoolFailed then p.queue else []
    requires kept == if outcome == PoolFailed then p.batch else p.queue + p.batch
    ensures Content(Flush(p, outcome)) == p.stored + Newest(kept)
    ensures LostByFlush(p, outcome) == gone + Evicted(kept)
    ensures Content(p) == p.stored + gone + kept
  {
    assert gone == [] ==> gone + Evicted(kept) == Evicted(kept);
  }

  /** Keeping `stored` and the newest of `s` loses `gone` and what `s` pushes out. */
  lemma Conserved<T>(stored: seq<T>, gone: seq<T>, s: seq<T>)
    ensures multiset(stored + Newest(s)) + multiset(gone + Evicted(s)) == multiset(stored + gone + s)
    ensures gone + Evicted(s) == [] ==> stored + Newest(s) == stored + gone + s
  {
    Cut(stored + gone, s);
    Gather(stored, gone, Evicted(s), Newest(s));
    if gone + Evicted(s) == [] {
      assert |gone| + |Evicted(s)| == 0;
      assert stored + gone == stored;
    }
  }

  lemma Gather<T>(stored: seq<T>, a: seq<T>, b: seq<T>, kept: seq<T>)
    ensures multiset(stored + kept) + multiset(a + b) == multiset(stored + a + b + kept)
    ensures a + [] == a
  {
  }

  lemma Cut<T>(before: seq<T>, s: seq<T>)
    ensures before + s == before + Evicted(s) + Newest(s)
    ensures Evicted(s) == [] ==> Newest(s) == s
  {
    NewestKeepsRest(s);
  }

  lemma StepConserves<T>(p: Pipe<T>, act: Act, items: seq<T>, n: nat)
    requires act.Arrive? ==> n < |items|
    ensures
      var before := Content(p) + (if act.Arrive? then [items[n]] else []);
      var next := if act.Arrive? then Receive(p, items[n], act.outcome) else Flush(p, act.outcome);
      var lost := LostByAct(p, act, items, n);
      && multiset(Content(next)) + multiset(lost) == multiset(before)
      && (lost == [] ==> Content(next) == before)
  {
    if act.Arrive? {
      assert Content(Push(p, items[n])) == Content(p) + [items[n]];
      FlushConserves(Push(p, items[n]), act.outcome);
    } else {
      assert Content(p) + [] == Content(p);
      FlushConserves(p, act.outcome);
    }
  }

  /** Conservation of items: each one emitted is stored, waiting or lost, and only once. */
  lemma {:induction false} RunConserves<T>(acts: seq<Act>, items: seq<T>)
    requires Arrivals(acts) <= |items|
    ensures multiset(Content(Run(acts, items))) + multiset(Lost(acts, items)) == multiset(items[..Arrivals(acts)])
    ensures Lost(acts, items) == [] ==> Content(Run(acts, items)) == items[..Arrivals(acts)]
    decreases |acts|
  {
    if acts == [] {
      assert items[..0] == [];
    } else {
      var front, act := acts[..|acts| - 1], acts[|acts| - 1];
      RunConserves(front, items);
      ExtendConserves(acts, items, Run(front, items), Lost(front, items));
    }
  }

  lemma ArrivalsStep<T>(acts: seq<Act>, items: seq<T>)
    requires acts != [] && Arrivals(acts) <= |items|
    ensures
      var act, n := acts[|acts| - 1], Arrivals(acts[..|acts| - 1]);
      items[..Arrivals(acts)] == items[..n] + if act.Arrive? then [items[n]] else []
  {
  }

  lemma ExtendConserves<T>(acts: seq<Act>, items: seq<T>, p: Pipe<T>, lost: seq<T>)
    requires acts != [] && Arrivals(acts) <= |items|
    requires
      var front := acts[..|acts| - 1];
      && p == Run(front, items) && lost == Lost(front, items)
      && multiset(Content(p)) + multiset(lost) == multiset(items[..Arrivals(front)])
      && (lost == [] ==> Content(p) == items[..Arrivals(front)])
    ensures multiset(Content(Run(acts, items))) + multiset(Lost(acts, items)) == multiset(items[..Arrivals(acts)])
    ensures Lost(acts, items) == [] ==> Content(Run(acts, items)) == items[..Arrivals(acts)]
  {
    var act, n := acts[|acts| - 1], Arrivals(acts[..|acts| - 1]);
    var more := if act.Arrive? then [items[n]] else [];
    ArrivalsStep(acts, items);
    StepConserves(p, act, items, n);
    Chained(Content(p), lost, items[..n], more, Content(Run(acts, items)), LostByAct(p, act, items, n));
  }

  lemma Chained<T>(held: seq<T>, lost: seq<T>, emitted: seq<T>, more: seq<T>, held': seq<T>, lost': seq<T>)
    requires multiset(held) + multiset(lost) == multiset(emitted)
    requires multiset(held') + multiset(lost') == multiset(held + more)
    requires lost == [] ==> held == emitted
    requires lost' == [] ==> held' == held + more
    ensures multiset(held') + multiset(lost + lost') == multiset(emitted + more)
    ensures lost + lost' == [] ==> held' == emitted + more
  {
    assert |lost + lost'| == |lost| + |lost'|;
    var h, l, m, h', l' := multiset(held), multiset(lost), multiset(more), multiset(held'), multiset(lost');
    assert multiset(lost + lost') == l + l';
    assert h' + (l + l') == h' + l' + l;
    assert h + m + l == h + l + m;
  }

  /** The pipeline holds the whole emitted sequence, in order, exactly when the run lost nothing. */
  lemma ConservationExact<T>(acts: seq<Act>, items: seq<T>)
    requires Arrivals(acts) <= |items|
    ensures Content(Run(acts, items)) == items[..Arrivals(acts)] <==> Lost(acts, items) == []
  {
    RunConserves(acts, items);
    var c, l := Content(Run(acts, items)), Lost(acts, items);
    assert |multiset(c) + multiset(l)| == |c| + |l|;
    assert |multiset(items[..Arrivals(acts)])| == Arrivals(acts);
  }

  // ----- when nothing is lost -----

  lemma {:induction false} ArrivalsOfPrefix(acts: seq<Act>, k: nat)
    requires k < |acts|
    ensures Arrivals(acts[..k]) + (if acts[k].Arrive? then 1 else 0) <= Arrivals(acts)
    decreases |acts|
  {
    var n := |acts| - 1;
    if k < n {
      ArrivalsOfPrefix(acts[..n], k);
      assert acts[..n][..k] == acts[..k];
    }
  }

  /** A turn that flushes nothing, or whose flush loses nothing. */
  predicate LossFreeAct<T(==)>(p: Pipe<T>, act: Act, items: seq<T>, n: nat)
    requires act.Arrive? ==> n < |items|
  {
    match act
    case Tick(outcome) => LossFree(p, outcome)
    case Arrive(outcome) => |p.batch| + 1 < BATCH_SIZE || LossFree(Push(p, items[n]), outcome)
  }

  /** Turn `k` is loss-free in the state the turns before it lead to. */
  predicate LossFreeAt<T(==)>(acts: seq<Act>, items: seq<T>, k: nat)
    requires Arrivals(acts) <= |items| && k < |acts|
  {
    ArrivalsOfPrefix(acts, k);
    LossFreeAct(Run(acts[..k], items), acts[k], items, Arrivals(acts[..k]))
  }

  lemma ActLosesNothing<T>(p: Pipe<T>, act: Act, items: seq<T>, n: nat)
    requires act.Arrive? ==> n < |items|
    requires |p.batch| < BATCH_SIZE
    ensures LostByAct(p, act, items, n) == [] <==> LossFreeAct(p, act, items, n)
  {
    if act.Arrive? {
      LossFreeFlush(Push(p, items[n]), act.outcome);
    } else {
      LossFreeFlush(p, act.outcome);
    }
  }

  /** Each of the first `m` turns is loss-free. */
  predicate LossFreeTurns<T(==)>(acts: seq<Act>, items: seq<T>, m: nat)
    requires Arrivals(acts) <= |items| && m <= |acts|
  {
    m == 0 || (LossFreeTurns(acts, items, m - 1) && LossFreeAt(acts, items, m - 1))
  }

  /** A run loses nothing if and only if every turn of it is loss-free. */
  lemma {:induction false} LossFreeRun<T>(acts: seq<Act>, items: seq<T>)
    requires Arrivals(acts) <= |items|
    ensures Lost(acts, items) == [] <==> LossFreeTurns(acts, items, |acts|)
    decreases |acts|
  {
    if acts != [] {
      LossFreeRun(acts[..|acts| - 1], items);
      LastTurn(acts, items);
      TurnsSplit(acts, items);
    }
  }

  lemma LastTurn<T>(acts: seq<Act>, items: seq<T>)
    requires acts != [] && Arrivals(acts) <= |items|
    ensures
      var front := acts[..|acts| - 1];
      Lost(acts, items) == [] <==> Lost(front, items) == [] && LossFreeAt(acts, items, |acts| - 1)
  {
    var front, act := acts[..|acts| - 1], acts[|acts| - 1];
    RunIsBounded(front, items);
    ActLosesNothing(Run(front, items), act, items, Arrivals(front));
    LostGrows(Lost(front, items), LostByAct(Run(front, items), act, items, Arrivals(front)));
  }

  lemma TurnsSplit<T>(acts: seq<Act>, items: seq<T>)
    requires acts != [] && Arrivals(acts) <= |items|
    ensures
      var front := acts[..|acts| - 1];
      LossFreeTurns(acts, items, |acts|) <==>
        LossFreeTurns(front, items, |front|) && LossFreeAt(acts, items, |acts| - 1)
  {
    TurnsBefore(acts, items, |acts| - 1);
  }

  lemma {:induction false} TurnsBefore<T>(acts: seq<Act>, items: seq<T>, m: nat)
    requires acts != [] && Arrivals(acts) <= |items| && m < |acts|
    ensures LossFreeTurns(acts[..|acts| - 1], items, m) <==> LossFreeTurns(acts, items, m)
  {
    if m > 0 {
      TurnsBefore(acts, items, m - 1);
      SamePast(acts, items, m - 1);
    }
  }

  /** All turns, one by one. */
  lemma {:induction false} TurnsOneByOne<T>(acts: seq<Act>, items: seq<T>, m: nat)
    requires Arrivals(acts) <= |items| && m <= |acts|
    ensures LossFreeTurns(acts, items, m) <==> forall k | 0 <= k < m :: LossFreeAt(acts, items, k)
  {
    if m > 0 {
      TurnsOneByOne(acts, items, m - 1);
    }
  }

  lemma SamePast<T>(acts: seq<Act>, items: seq<T>, k: nat)
    requires Arrivals(acts) <= |items| && k < |acts| - 1
    ensures LossFreeAt(acts[..|acts| - 1], items, k) == LossFreeAt(acts, items, k)
  {
    assert acts[..|acts| - 1][..k] == acts[..k];
  }

  lemma LostGrows<T>(a: seq<T>, b: seq<T>)
    ensures a + b == [] <==> a == [] && b == []
  {
    assert |a + b| == |a| + |b|;
  }

  /**
   Stored, queued and batched together are the whole emitted sequence, in order, if and
   only if each turn writes nothing, succeeds, or can keep all it fails to write.
   */
  lemma ConservedByGuards<T>(acts: seq<Act>, items: seq<T>)
    requires Arrivals(acts) <= |items|
    ensures Content(Run(acts, items)) == items[..Arrivals(acts)]
       <==> forall k | 0 <= k < |acts| :: LossFreeAt(acts, items, k)
  {
    ConservationExact(acts, items);
    LossFreeRun(acts, items);
    TurnsOneByOne(acts, items, |acts|);
  }

  // ----- positions -----

  function Positions(n: nat): seq<nat> {
    seq(n, i => i)
  }

  predicate Increasing(ps: seq<nat>) {
    forall i, j | 0 <= i < j < |ps| :: ps[i] < ps[j]
  }

  predicate Below(ps: seq<nat>, n: nat) {
    forall i | 0 <= i < |ps| :: ps[i] < n
  }

  lemma FlushKeepsOrder(p: Pipe<nat>, outcome: Outcome, n: nat)
    requires Increasing(Content(p)) && Below(Content(p), n)
    ensures Increasing(Content(Flush(p, outcome))) && Below(Content(Flush(p, outcome)), n)
  {
    var qb := p.queue + p.batch;
    var f := Flush(p, outcome);
    assert Content(p) == p.stored + qb;
    if p.batch != [] && !outcome.Stored? {
      var drop := |qb| - |f.queue|;
      assert f.queue == qb[drop..];
      assert Content(f) == p.stored + qb[drop..];
      DropMiddle(p.stored, qb, drop, n);
    } else {
      assert Content(f) == Content(p);
    }
  }

  lemma DropMiddle(a: seq<nat>, b: seq<nat>, drop: nat, n: nat)
    requires drop <= |b| && Increasing(a + b) && Below(a + b, n)
    ensures Increasing(a + b[drop..]) && Below(a + b[drop..], n)
  {
    assert forall i | 0 <= i < |a| :: (a + b[drop..])[i] == (a + b)[i];
    assert forall i | |a| <= i < |a + b[drop..]| :: (a + b[drop..])[i] == (a + b)[i + drop];
  }

  lemma PushKeepsOrder(p: Pipe<nat>, k: nat)
    requires Increasing(Content(p)) && Below(Content(p), k)
    ensures Increasing(Content(Push(p, k))) && Below(Content(Push(p, k)), k + 1)
  {
    assert Content(Push(p, k)) == Content(p) + [k];
  }

  /** What the pipeline holds is an order-preserving, duplicate-free selection of what was emitted. */
  lemma {:induction false} RunKeepsOrder(acts: seq<Act>, n: nat)
    requires Arrivals(acts) <= n
    ensures Increasing(Content(Run(acts, Positions(n))))
    ensures Below(Content(Run(acts, Positions(n))), Arrivals(acts))
    decreases |acts|
  {
    if acts != [] {
      var front, act := acts[..|acts| - 1], acts[|acts| - 1];
      RunKeepsOrder(front, n);
      var p := Run(front, Positions(n));
      if act.Arrive? {
        PushKeepsOrder(p, Arrivals(front));
        FlushKeepsOrder(Push(p, Arrivals(front)), act.outcome, Arrivals(acts));
      } else {
        FlushKeepsOrder(p, act.outcome, Arrivals(acts));
      }
    }
  }

  /**
   Exact loss accounting: of the positions emitted, those missing from the pipeline
   are exactly those evicted at the cap or forgotten after a failed pool checkout.
   */
  lemma LossAccounting(acts: seq<Act>, n: nat)
    requires Arrivals(acts) <= n
    ensures
      var held, lost := Content(Run(acts, Positions(n))), Lost(acts, Positions(n));
      && Increasing(held)
      && (forall k: nat :: k < Arrivals(acts) <==> k in held || k in lost)
      && (forall k: nat :: !(k in held && k in lost))
      && |held| + |lost| == Arrivals(acts)
  {
    RunKeepsOrder(acts, n);
    RunConserves(acts, Positions(n));
    var held, lost, all := Content(Run(acts, Positions(n))), Lost(acts, Positions(n)), Positions(n)[..Arrivals(acts)];
    var inHeld: multiset<nat>, inLost: multiset<nat> := multiset(held), multiset(lost);
    var m := inHeld + inLost;
    assert |m| == |held| + |lost| && |multiset(all)| == Arrivals(acts);
    assert Increasing(all);
    forall k: nat
      ensures k < Arrivals(acts) <==> k in held || k in lost
      ensures !(k in held && k in lost)
    {
      IncreasingOnce(all, k);
      assert m[k] == inHeld[k] + inLost[k];
      assert k < Arrivals(acts) ==> all[k] == k;
      assert k in all <==> k < Arrivals(acts);
    }
  }

  lemma {:induction false} IncreasingOnce(ps: seq<nat>, k: nat)
    requires Increasing(ps)
    ensures multiset(ps)[k] == if k in ps then 1 else 0
    decreases |ps|
  {
    if ps != [] {
      var front, last := ps[..|ps| - 1], ps[|ps| - 1];
      assert ps == front + [last];
      IncreasingOnce(front, k);
      assert k in ps <==> k in front || k == last;
      assert last !in front;
    }
  }

  // ----- items and their positions -----

  ghost predicate Mirrors<T>(xs: seq<T>, ps: seq<nat>, items: seq<T>) {
    |xs| == |ps| && forall i | 0 <= i < |xs| :: ps[i] < |items| && xs[i] == items[ps[i]]
  }

  ghost predicate PipeMirrors<T>(p: Pipe<T>, r: Pipe<nat>, items: seq<T>) {
    Mirrors(p.stored, r.stored, items) && Mirrors(p.queue, r.queue, items) && Mirrors(p.batch, r.batch, items)
  }

  lemma FlushMirrors<T>(p: Pipe<T>, r: Pipe<nat>, items: seq<T>, outcome: Outcome)
    requires PipeMirrors(p, r, items)
    ensures PipeMirrors(Flush(p, outcome), Flush(r, outcome), items)
  {
    assert Mirrors(p.queue + p.batch, r.queue + r.batch, items);
  }

  /** A run on items is the run on their positions, read through the emitted sequence. */
  lemma {:induction false} RunMirrors<T>(acts: seq<Act>, items: seq<T>)
    requires Arrivals(acts) <= |items|
    ensures PipeMirrors(Run(acts, items), Run(acts, Positions(|items|)), items)
    decreases |acts|
  {
    if acts != [] {
      var front, act := acts[..|acts| - 1], acts[|acts| - 1];
      RunMirrors(front, items);
      var p, r := Run(front, items), Run(front, Positions(|items|));
      if act.Arrive? {
        var n := Arrivals(front);
        FlushMirrors(Push(p, items[n]), Push(r, n), items, act.outcome);
      } else {
        FlushMirrors(p, r, items, act.outcome);
      }
    }
  }
}
