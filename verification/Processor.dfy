/** The processor loop (forwarder/src/main.rs): chain, batch and write each event. */
module Processors {
  import opened Json
  import opened Chain
  import opened HashChains
  import opened Storage
  import opened Pipeline
  import opened Writer

  /** What wakes the loop, and how a write it may lead to ends. */
  datatype Input = Event(event: Json, outcome: Outcome, burnt: nat) | FlushTimer(outcome: Outcome, burnt: nat)

  /** The values the loop can take: setting a hash field on any other value panics. */
  predicate Chainable(event: Json) {
    event.Object? || event.Null?
  }

  function Acts(inputs: seq<Input>): seq<Act> {
    seq(|inputs|, i requires 0 <= i < |inputs| =>
        if inputs[i].Event? then Arrive(inputs[i].outcome) else Pipeline.Tick(inputs[i].outcome))
  }

  function Events(inputs: seq<Input>): seq<Json> {
    if inputs == [] then []
    else
      var last := inputs[|inputs| - 1];
      Events(inputs[..|inputs| - 1]) + (if last.Event? then [last.event] else [])
  }

  class Processor {
    const chain: HashChain
    const writer: BatchWriter
    var batch: seq<Json>

    ghost predicate Valid()
      reads this, chain, writer
    {
      chain.Valid() && writer.Valid() && |batch| < BATCH_SIZE
    }

    ghost function View(): Pipe<Json>
      reads this, writer
    {
      Pipe(writer.stored, writer.retryQueue, batch)
    }

    constructor (sha: Sha, ser: Serializer)
      ensures Valid() && fresh(chain) && fresh(writer)
      ensures chain.sha == sha && writer.ser == ser
      ensures chain.events == [] && View() == Pipe([], [], []) && writer.table == []
    {
      chain := new HashChain(sha);
      writer := new BatchWriter(ser);
      batch := [];
    }

    method OnEvent(event: Json, outcome: Outcome, burnt: nat)
      requires Valid() && Chainable(event)
      modifies this, chain, writer
      ensures Valid() && chain.events == old(chain.events) + [event]
      ensures old(writer.table) <= writer.table
      ensures
        var emitted := Emitted(chain.sha, chain.events);
        View() == Receive(old(View()), emitted[|emitted| - 1], outcome)
      ensures |batch| == if old(|batch|) == 99 then 0 else old(|batch|) + 1
    {
      var linked, _, _ := chain.Apply(event);
      ghost var emitted := Emitted(chain.sha, chain.events);
      assert emitted[|emitted| - 1] == linked;
      batch := batch + [linked];
      if |batch| >= BATCH_SIZE {
        writer.WriteBatch(batch, outcome, burnt);
        batch := [];
      }
    }

    method OnTick(outcome: Outcome, burnt: nat)
      requires Valid()
      modifies this, writer
      ensures Valid() && old(writer.table) <= writer.table
      ensures View() == Flush(old(View()), outcome)
    {
      if batch != [] {
        writer.WriteBatch(batch, outcome, burnt);
        batch := [];
      }
    }
  }

  /** Later items do not matter to a run that has not reached them. */
  lemma {:induction false} RunPrefix<T>(acts: seq<Act>, items: seq<T>, more: seq<T>)
    requires Arrivals(acts) <= |items|
    ensures Run(acts, items + more) == Run(acts, items)
    decreases |acts|
  {
    if acts != [] {
      RunPrefix(acts[..|acts| - 1], items, more);
    }
  }

  lemma {:induction false} ArrivalsOfInputs(inputs: seq<Input>)
    ensures Arrivals(Acts(inputs)) == |Events(inputs)|
    decreases |inputs|
  {
    if inputs != [] {
      var front := inputs[..|inputs| - 1];
      ArrivalsOfInputs(front);
      assert Acts(inputs)[..|inputs| - 1] == Acts(front);
    }
  }

  lemma RunStep(sha: Sha, inputs: seq<Input>, input: Input)
    ensures Arrivals(Acts(inputs)) == |Events(inputs)|
    ensures Arrivals(Acts(inputs + [input])) == |Events(inputs + [input])|
    ensures Events(inputs + [input]) == Events(inputs) + if input.Event? then [input.event] else []
    ensures
      var before, emitted := Run(Acts(inputs), Emitted(sha, Events(inputs))), Emitted(sha, Events(inputs + [input]));
      Run(Acts(inputs + [input]), emitted) ==
        if input.Event? then Receive(before, emitted[|emitted| - 1], input.outcome) else Flush(before, input.outcome)
  {
    var more := inputs + [input];
    ArrivalsOfInputs(inputs);
    ArrivalsOfInputs(more);
    assert more[..|inputs|] == inputs;
    assert Acts(more)[..|inputs|] == Acts(inputs);
    var events := Events(inputs);
    if input.Event? {
      EmittedAppend(sha, events, input.event);
      var emitted := Emitted(sha, events + [input.event]);
      RunPrefix(Acts(inputs), Emitted(sha, events), [emitted[|events|]]);
      assert emitted == Emitted(sha, events) + [emitted[|events|]];
    } else {
      assert events + [] == events;
    }
  }

  lemma NothingRun(sha: Sha)
    ensures Events([]) == [] && Arrivals(Acts([])) == 0
    ensures Run(Acts([]), Emitted(sha, Events([]))) == Pipe([], [], [])
  {
    assert Acts([]) == [];
  }

  /** The processor stands where the pipeline run on `past` does. */
  ghost predicate Reached(p: Processor, past: seq<Input>)
    reads p, p.chain, p.writer
  {
    && p.Valid()
    && Arrivals(Acts(past)) == |Events(past)|
    && p.chain.events == Events(past)
    && p.View() == Run(Acts(past), Emitted(p.chain.sha, Events(past)))
  }

  /** One turn of the loop. */
  method Turn(p: Processor, input: Input, ghost past: seq<Input>)
    requires Reached(p, past)
    requires input.Event? ==> Chainable(input.event)
    modifies p, p.chain, p.writer
    ensures Reached(p, past + [input])
    ensures old(p.writer.table) <= p.writer.table
  {
    RunStep(p.chain.sha, past, input);
    if input.Event? {
      p.OnEvent(input.event, input.outcome, input.burnt);
    } else {
      p.OnTick(input.outcome, input.burnt);
    }
  }

  /**
   The loop over one process life: after any inputs the state is that of the
   pipeline run on the emitted chain, and the table holds the stored events' rows.
   */
  method Process(sha: Sha, ser: Serializer, inputs: seq<Input>) returns (p: Processor)
    requires forall i | 0 <= i < |inputs| && inputs[i].Event? :: Chainable(inputs[i].event)
    ensures fresh(p) && p.chain.sha == sha && p.writer.ser == ser
    ensures Reached(p, inputs)
  {
    p := new Processor(sha, ser);
    NothingRun(sha);
    ghost var past: seq<Input> := [];
    assert Reached(p, past);
    var i := 0;
    while i < |inputs|
      invariant 0 <= i <= |inputs| && past == inputs[..i]
      invariant fresh(p) && fresh(p.chain) && fresh(p.writer)
      invariant p.chain.sha == sha && p.writer.ser == ser
      invariant Reached(p, past)
    {
      Turn(p, inputs[i], past);
      past := past + [inputs[i]];
      i := i + 1;
    }
    assert past == inputs;
  }
}
