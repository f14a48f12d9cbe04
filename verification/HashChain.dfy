/**
 The forwarder's hash chain (forwarder/src/hashchain.rs): an object that links each
 event to the one before it, and the sequence of events it produces in one life.
 */
module HashChains {
  import opened Json
  import opened Chain
  import opened Payload

  function Payloads(events: seq<Json>): seq<string> {
    seq(|events|, i requires 0 <= i < |events| => BuildPayload(events[i]))
  }

  /** The event with its two hash fields set; a null event becomes an object. */
  function Linked(event: Json, prev: string, hash: string): Json {
    var fields := if event.Object? then event.fields else map[];
    Object(fields["prev_hash" := String(prev)]["event_hash" := String(hash)])
  }

  /** Linking sets the two hash fields and leaves every other field of the event as it is. */
  lemma LinkedIs(event: Json, prev: string, hash: string)
    requires event.Object? || event.Null?
    ensures
      var linked := Linked(event, prev, hash);
      && linked.Object?
      && linked.fields.Keys == (if event.Object? then event.fields.Keys else {}) + {"prev_hash", "event_hash"}
      && At(linked, "prev_hash") == String(prev) && At(linked, "event_hash") == String(hash)
      && (forall k | k != "prev_hash" && k != "event_hash" :: At(linked, k) == At(event, k))
  {
    assert "prev_hash"[0] == 'p' && "event_hash"[0] == 'e';
  }

  /** What the chain hands on for each event of one process life. */
  function Emitted(sha: Sha, events: seq<Json>): seq<Json> {
    seq(|events|, i requires 0 <= i < |events| =>
        Linked(events[i], Head(sha, Payloads(events[..i])), Head(sha, Payloads(events[..i + 1]))))
  }

  lemma PayloadsAppend(events: seq<Json>, event: Json)
    ensures Payloads(events + [event]) == Payloads(events) + [BuildPayload(event)]
  {
  }

  lemma HeadAppend(sha: Sha, events: seq<Json>, event: Json)
    ensures Head(sha, Payloads(events + [event])) == sha(Head(sha, Payloads(events)) + BuildPayload(event))
  {
    PayloadsAppend(events, event);
    var payloads := Payloads(events) + [BuildPayload(event)];
    assert payloads[..|payloads| - 1] == Payloads(events);
  }

  lemma EmittedAppend(sha: Sha, events: seq<Json>, event: Json)
    ensures Emitted(sha, events + [event])
         == Emitted(sha, events)
            + [Linked(event, Head(sha, Payloads(events)), Head(sha, Payloads(events + [event])))]
  {
    var more := events + [event];
    assert forall i | 0 <= i <= |events| :: more[..i] == events[..i];
    assert more[..|more|] == more && events[..|events|] == events;
  }

  /** Setting the hash fields does not change the payload, so chaining and hashing commute. */
  lemma LinkedKeepsPayload(event: Json, prev: string, hash: string)
    requires event.Object? || event.Null?
    ensures BuildPayload(Linked(event, prev, hash)) == BuildPayload(event)
  {
  }

  lemma LinkStep(sha: Sha, events: seq<Json>, event: Json, payload: string, linked: Json)
    requires payload == BuildPayload(event)
    requires
      var prev := Head(sha, Payloads(events));
      linked == Linked(event, prev, sha(prev + payload))
    ensures Head(sha, Payloads(events + [event])) == sha(Head(sha, Payloads(events)) + payload)
    ensures Emitted(sha, events + [event]) == Emitted(sha, events) + [linked]
  {
    HeadAppend(sha, events, event);
    EmittedAppend(sha, events, event);
  }

  /** The hashing in `apply`: the previous hash and the payload, fed to the digest one after the other. */
  method HashNext(sha: Sha, ghost events: seq<Json>, prev: string, event: Json) returns (linked: Json, hash: string)
    requires prev == Head(sha, Payloads(events))
    ensures hash == Head(sha, Payloads(events + [event]))
    ensures linked == Linked(event, prev, hash) && hash == sha(prev + BuildPayload(event))
    ensures Emitted(sha, events + [event]) == Emitted(sha, events) + [linked]
  {
    var payload := BuildPayload(event);
    hash := sha(prev + payload);
    linked := Linked(event, prev, hash);
    LinkStep(sha, events, event, payload, linked);
  }

  class HashChain {
    const sha: Sha
    var prevHash: string
    var chainLength: nat
    ghost var events: seq<Json>

    ghost predicate Valid()
      reads this
    {
      && prevHash == Head(sha, Payloads(events))
      && chainLength == |events|
    }

    constructor (sha: Sha)
      ensures Valid() && this.sha == sha && events == []
    {
      this.sha := sha;
      prevHash := "";
      chainLength := 0;
      events := [];
    }

    /** `apply`. Setting a field of a value that is neither object nor null panics. */
    method Apply(event: Json) returns (linked: Json, prev: string, hash: string)
      requires Valid()
      requires event.Object? || event.Null?
      modifies this
      ensures Valid()
      ensures events == old(events) + [event]
      ensures Emitted(sha, events) == Emitted(sha, old(events)) + [linked]
      ensures linked == Linked(event, prev, hash)
      ensures prev == old(prevHash) && hash == prevHash && hash == sha(prev + BuildPayload(event))
      ensures linked.Object?
      ensures linked.fields.Keys == (if event.Object? then event.fields.Keys else {}) + {"prev_hash", "event_hash"}
      ensures At(linked, "prev_hash") == String(prev) && At(linked, "event_hash") == String(hash)
      ensures forall k | k != "prev_hash" && k != "event_hash" :: At(linked, k) == At(event, k)
    {
      LinkedIs(event, prevHash, sha(prevHash + BuildPayload(event)));
      linked, hash := HashNext(sha, events, prevHash, event);
      prev := prevHash;
      prevHash := hash;
      chainLength := chainLength + 1;
      events := events + [event];
    }
  }
}
