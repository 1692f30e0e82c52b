/**
 * The child bridge as the code has it: an object whose fields the regions under the mutex update in place.
 * Each method is one region, proved against the function the transition system uses for it.
 */
module RawChildObject {
  import opened Wrappers
  import opened Channels
  import opened Text
  import opened Bridge

  /** Every entry names an existing channel made for its key, not yet sent to or closed. */
  ghost predicate EntriesFresh(pending: map<string, ChanId>, chans: map<ChanId, Chan>) {
    forall k :: k in pending ==>
      && pending[k] in chans && chans[pending[k]].key == k
      && chans[pending[k]].slot.None? && !chans[pending[k]].closed
  }

  /** Part of the entries has been answered: exactly those channels are signalled, the rest is untouched. */
  ghost predicate Draining(all: map<string, ChanId>, before: map<ChanId, Chan>,
                           pending: map<string, ChanId>, chans: map<ChanId, Chan>)
  {
    && EntriesFresh(all, before) && chans.Keys == before.Keys
    && (forall k :: k in pending ==> k in all && pending[k] == all[k])
    && (forall k :: k in all ==>
          chans[all[k]] == if k in pending then before[all[k]] else Close(TrySend(before[all[k]], Gone)))
    && (forall ch :: ch in before && ch !in all.Values ==> chans[ch] == before[ch])
  }

  /** Answering one more entry with nil. */
  lemma DrainOne(all: map<string, ChanId>, before: map<ChanId, Chan>,
                 pending: map<string, ChanId>, chans: map<ChanId, Chan>, key: string)
    requires Draining(all, before, pending, chans) && key in pending
    ensures pending[key] in chans && chans[pending[key]] == before[pending[key]]
    ensures Draining(all, before, pending - {key}, chans[pending[key] := Close(TrySend(chans[pending[key]], Gone))])
  {
    forall k | k in all && k != key ensures all[k] != all[key] {
      assert before[all[k]].key == k && before[all[key]].key == key;
    }
  }

  lemma RemoveShrinks<V>(m: map<string, V>, k: string)
    requires k in m
    ensures |m - {k}| < |m|
  {
    assert m.Keys == (m - {k}).Keys + {k};
  }

  lemma AllDrained(all: map<string, ChanId>, before: map<ChanId, Chan>, chans: map<ChanId, Chan>)
    requires Draining(all, before, map[], chans)
    ensures chans == Signal(before, all.Values)
  {
    forall ch | ch in before ensures chans[ch] == Signal(before, all.Values)[ch] {
      if ch in all.Values {
        var k :| k in all && all[k] == ch;
      }
    }
  }

  class RawChild {
    var alive: bool
    var starting: bool
    var stop: bool
    var bootstrapped: bool
    var generation: nat
    var seqNo: nat
    var cmd: Option<Child>
    var stdin: Option<Child>
    var pending: map<string, ChanId>
    var chans: map<ChanId, Chan>

    ghost function Core(): Shared
      reads this
    {
      Shared(alive, starting, stop, bootstrapped, generation, seqNo, cmd, stdin, pending, chans)
    }

    ghost predicate Valid()
      reads this
    {
      EntriesFresh(pending, chans)
    }

    constructor ()
      ensures Core() == FRESH && Valid()
    {
      alive, starting, stop, bootstrapped := false, false, false, false;
      generation, seqNo := 0, 0;
      cmd, stdin := None, None;
      pending, chans := map[], map[];
    }

    method EnsureEnter() returns (e: Entry)
      modifies this`starting
      ensures (Core(), e) == EnsureEntry(old(Core()))
      ensures old(Valid()) ==> Valid()
    {
      if alive { return Ready; }
      if starting { return MustWait; }
      starting := true;
      return MustSpawn;
    }

    method EnsureLeave(spawned: bool)
      modifies this`starting, this`alive, this`generation
      ensures Core() == EnsureExit(old(Core()), spawned)
      ensures old(Valid()) ==> Valid()
    {
      starting := false;
      if spawned {
        alive := true;
        generation := generation + 1;
      }
    }

    method PublishChild(child: Child)
      modifies this`cmd, this`stdin
      ensures Core() == Publish(old(Core()), child)
      ensures old(Valid()) ==> Valid()
    {
      cmd := Some(child);
      stdin := Some(child);
    }

    /** The registering region of `sendRaw`; `ch` is the channel it has just made. */
    method RegisterRequest(key: string, ch: ChanId, owner: Tid) returns (pipe: Result<Option<Child>, bool>)
      requires Valid() && ch !in chans
      modifies this`pending, this`chans
      ensures Valid()
      ensures Core() == Register(old(Core()), key, ch, owner)
      ensures pipe == if alive then Ok(stdin) else Err(false)
    {
      if !alive { return Err(false); }
      chans := chans[ch := Make(key, owner)];
      pending := pending[key := ch];
      return Ok(stdin);
    }

    method WithdrawRequest(key: string)
      modifies this`pending
      ensures Core() == Unregister(old(Core()), key)
      ensures old(Valid()) ==> Valid()
    {
      pending := pending - {key};
    }

    /** The reader's lookup for a decoded response. */
    method ClaimEntry(key: string) returns (ch: Option<ChanId>)
      modifies this`pending
      ensures (Core(), ch) == Claim(old(Core()), key)
      ensures old(Valid()) ==> Valid()
    {
      if key in pending {
        ch := Some(pending[key]);
        pending := pending - {key};
      } else {
        ch := None;
      }
    }

    /** The reader's non-blocking send, outside the mutex. */
    method SendLine(ch: ChanId, line: Msg)
      requires ch in chans
      modifies this`chans
      ensures Core() == Deliver(old(Core()), ch, line)
    {
      chans := chans[ch := TrySend(chans[ch], line)];
    }

    /** The reader's close, outside the mutex. */
    method CloseReplyChannel(ch: ChanId)
      requires ch in chans
      modifies this`chans
      ensures Core() == CloseChan(old(Core()), ch)
    {
      chans := chans[ch := Close(chans[ch])];
    }

    /** One response line, nothing else happening meanwhile: the waiter of its id, if there is one, now has it. */
    method HandleResponse(key: string, body: string) returns (ch: Option<ChanId>)
      requires Valid()
      modifies this`pending, this`chans
      ensures Valid()
      ensures ch == if key in old(pending) then Some(old(pending)[key]) else None
      ensures pending == old(pending) - {key} && (ch.None? ==> chans == old(chans))
      ensures ch.Some? ==>
                && chans.Keys == old(chans).Keys && Received(chans[ch.value]) == Line(key, body)
                && forall x :: x in chans && x != ch.value ==> chans[x] == old(chans)[x]
    {
      ch := ClaimEntry(key);
      if ch.Some? {
        SendLine(ch.value, Line(key, body));
        CloseReplyChannel(ch.value);
      }
    }

    /** The draining loop shared by `waitLoop` and `failRead`; the map is walked in any order. */
    method FailPending()
      requires Valid()
      modifies this`pending, this`chans, this`alive
      ensures Valid() && Core() == Drain(old(Core()))
    {
      alive := false;
      ghost var all, before := pending, chans;
      while pending != map[]
        invariant !alive && Draining(all, before, pending, chans)
        decreases |pending|
      {
        var key :| key in pending;
        var ch := pending[key];
        DrainOne(all, before, pending, chans, key);
        RemoveShrinks(pending, key);
        pending := pending - {key};
        var sent := TrySend(chans[ch], Gone);
        chans := chans[ch := Close(sent)];
      }
      AllDrained(all, before, chans);
    }

    /** `waitLoop` after the process ended, and `failRead`: only for the child currently published. */
    method ChildLost(child: Child)
      requires Valid()
      modifies this`pending, this`chans, this`alive
      ensures Valid() && Core() == ChildGone(old(Core()), child)
    {
      if cmd != Some(child) { return; }
      FailPending();
    }

    method NextSyntheticId() returns (id: string)
      modifies this`seqNo
      ensures Core() == old(Core()).(seqNo := old(seqNo) + 1)
      ensures "\"" + id + "\"" == SyntheticKey(seqNo)
      ensures old(Valid()) ==> Valid()
    {
      seqNo := seqNo + 1;
      id := "shim-" + Itoa(seqNo);
    }

    method MarkBootstrapped()
      modifies this`bootstrapped
      ensures Core() == old(Core()).(bootstrapped := true)
      ensures old(Valid()) ==> Valid()
    {
      bootstrapped := true;
    }

    method Stop()
      modifies this`stop
      ensures Core() == old(Core()).(stop := true)
      ensures old(Valid()) ==> Valid()
    {
      stop := true;
    }
  }
}

/** The admission queue: a buffered channel used as a counting semaphore. */
module AdmissionQueue {
  import opened Wrappers
  import opened Bridge

  class Queue {
    var tokens: nat

    constructor ()
      ensures tokens == 0
    {
      tokens := 0;
    }

    method Acquire() returns (ok: bool)
      modifies this
      ensures ok <==> TryAcquire(old(tokens)).Some?
      ensures tokens == if ok then TryAcquire(old(tokens)).value else old(tokens)
    {
      ok := tokens < CAPACITY;
      if ok { tokens := tokens + 1; }
    }

    method Release()
      modifies this
      ensures tokens == GiveBack(old(tokens)) == if old(tokens) > 0 then old(tokens) - 1 else 0
    {
      if tokens > 0 { tokens := tokens - 1; }
    }

    /** A request alone: it is let in if there is room, and leaves the queue as it was. */
    method Serve() returns (admitted: bool)
      modifies this
      ensures admitted <==> old(tokens) < 8
      ensures tokens == old(tokens)
    {
      admitted := Acquire();
      if admitted { Release(); }
    }
  }
}
