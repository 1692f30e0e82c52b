/** What every step of the bridge keeps. */
module BridgeInvariants {
  import opened Wrappers
  import opened Channels
  import opened Bridge

  // ---------- Channels: one signaller each ----------

  predicate Claimed(r: Reader) {
    r.Holding? || r.Closing?
  }

  predicate ReaderOk(sh: Shared, r: Reader) {
    Claimed(r) ==>
      && r.ch in sh.chans && !Registered(sh, r.ch)
      && (r.Holding? ==> sh.chans[r.ch].sends == 0 && r.line.Line? && r.line.key == sh.chans[r.ch].key)
      && (r.Closing? ==> sh.chans[r.ch].sends == 1 && !sh.chans[r.ch].closed)
  }

  /** Pending entries are untouched channels of their own key; a reader's channel is no one else's. */
  ghost predicate ChanInv(sh: Shared, readers: map<Child, Reader>) {
    && (forall ch :: ch in sh.chans ==> Sound(sh.chans[ch]))
    && (forall k :: k in sh.pending ==>
          && sh.pending[k] in sh.chans
          && sh.chans[sh.pending[k]].key == k && sh.chans[sh.pending[k]].sends == 0)
    && (forall c :: c in readers ==> ReaderOk(sh, readers[c]))
    && (forall c, d :: c in readers && d in readers && c != d && Claimed(readers[c]) && Claimed(readers[d]) ==>
          readers[c].ch != readers[d].ch)
  }

  // ---------- Owners ----------

  /** The thread is between registering its request and leaving `sendRaw`. */
  predicate Holds(pc: PC) {
    pc.Writing? || pc.Awaiting? || pc.Leaving?
  }

  predicate ThreadOwns(sh: Shared, t: Tid, pc: PC) {
    Holds(pc) ==> pc.ch in sh.chans && sh.chans[pc.ch].owner == t && sh.chans[pc.ch].key == pc.key
  }

  predicate EntryOwned(sh: Shared, threads: map<Tid, Thread>, k: string)
    requires k in sh.pending
  {
    && sh.pending[k] in sh.chans
    && var t := sh.chans[sh.pending[k]].owner;
       t in threads && Holds(threads[t].pc) && threads[t].pc.ch == sh.pending[k]
  }

  /** Every pending entry belongs to a handler that is inside `sendRaw` with that very channel. */
  ghost predicate OwnerInv(sh: Shared, threads: map<Tid, Thread>) {
    && (forall t :: t in threads ==> ThreadOwns(sh, t, threads[t].pc))
    && (forall k :: k in sh.pending ==> EntryOwned(sh, threads, k))
  }

  // ---------- Each region keeps ChanInv ----------

  lemma RegisterKeepsChannels(sh: Shared, readers: map<Child, Reader>, key: string, ch: ChanId, owner: Tid)
    requires ChanInv(sh, readers) && ch !in sh.chans
    ensures ChanInv(Register(sh, key, ch, owner), readers)
  {
  }

  lemma UnregisterKeepsChannels(sh: Shared, readers: map<Child, Reader>, key: string)
    requires ChanInv(sh, readers)
    ensures ChanInv(Unregister(sh, key), readers)
  {
  }

  lemma ClaimKeepsChannels(sh: Shared, readers: map<Child, Reader>, c: Child, key: string, body: string)
    requires ChanInv(sh, readers) && c in readers && !Claimed(readers[c]) && key in sh.pending
    ensures ChanInv(Unregister(sh, key), readers[c := Holding(sh.pending[key], Line(key, body))])
  {
  }

  lemma DrainKeepsChannels(sh: Shared, readers: map<Child, Reader>)
    requires ChanInv(sh, readers)
    ensures ChanInv(Drain(sh), readers)
    ensures forall k :: k in sh.pending ==>
              && Drain(sh).chans[sh.pending[k]].slot == Some(Gone) && Drain(sh).chans[sh.pending[k]].closed
  {
    var sh' := Drain(sh);
    forall ch | ch in sh.chans && ch in sh.pending.Values
      ensures sh.chans[ch].sends == 0 && Registered(sh, ch)
    {
      var k :| k in sh.pending && sh.pending[k] == ch;
    }
  }

  lemma DeliverKeepsChannels(sh: Shared, readers: map<Child, Reader>, c: Child)
    requires ChanInv(sh, readers) && c in readers && readers[c].Holding?
    ensures ChanInv(Deliver(sh, readers[c].ch, readers[c].line), readers[c := Closing(readers[c].ch)])
  {
    assert ReaderOk(sh, readers[c]);
  }

  lemma CloseKeepsChannels(sh: Shared, readers: map<Child, Reader>, c: Child)
    requires ChanInv(sh, readers) && c in readers && readers[c].Closing?
    ensures ChanInv(CloseChan(sh, readers[c].ch), readers[c := Reading])
  {
    assert ReaderOk(sh, readers[c]);
  }

  lemma TakeKeepsChannels(sh: Shared, readers: map<Child, Reader>, ch: ChanId)
    requires ChanInv(sh, readers) && ch in sh.chans && CanReceive(sh.chans[ch])
    ensures ChanInv(Take(sh, ch), readers)
  {
  }

  lemma ReaderTurnKeepsChannels(sh: Shared, readers: map<Child, Reader>, c: Child, r: Reader)
    requires ChanInv(sh, readers) && !Claimed(r)
    ensures ChanInv(sh, readers[c := r])
  {
  }

  /** Only the channels, the pending map and the readers matter. */
  lemma ChanFrame(sh: Shared, sh': Shared, readers: map<Child, Reader>)
    requires ChanInv(sh, readers) && sh'.chans == sh.chans && sh'.pending == sh.pending
    ensures ChanInv(sh', readers)
  {
    forall c | c in readers ensures ReaderOk(sh', readers[c]) {
      assert ReaderOk(sh, readers[c]);
    }
  }

  /** The acts that change a channel or the pending map. */
  predicate Channelled(h: Act) {
    h.RegisterCall? || h.Receive? || h.UnregisterCall?
  }

  /** Every other act leaves both alone, and takes up or drops no channel (a write to a missing pipe apart). */
  lemma OtherActs(sh: Shared, t: Tid, th: Thread, h: Act)
    requires CanAct(sh, th.pc, h) && !Channelled(h)
    ensures var e := ActEffect(sh, t, th, h);
      && e.sh.chans == sh.chans && e.sh.pending == sh.pending
      && (Holds(e.pc) ==> Holds(th.pc))
      && (Holds(th.pc) && (th.pc.Writing? ==> th.pc.stdin.Some?) ==>
            Holds(e.pc) && e.pc.ch == th.pc.ch && e.pc.key == th.pc.key)
  {
  }

  lemma ActKeepsChannels(sh: Shared, readers: map<Child, Reader>, t: Tid, th: Thread, h: Act)
    requires ChanInv(sh, readers) && CanAct(sh, th.pc, h)
    ensures ChanInv(ActEffect(sh, t, th, h).sh, readers)
  {
    if !Channelled(h) {
      OtherActs(sh, t, th, h);
      ChanFrame(sh, ActEffect(sh, t, th, h).sh, readers);
    } else if h.RegisterCall? {
      RegisterKeepsChannels(sh, readers, th.pc.key, h.ch, t);
    } else if h.Receive? {
      TakeKeepsChannels(sh, readers, th.pc.ch);
    } else {
      UnregisterKeepsChannels(sh, readers, th.pc.key);
    }
  }

  lemma ReadKeepsChannels(sh: Shared, readers: map<Child, Reader>, c: Child, ra: ReaderAct)
    requires ChanInv(sh, readers) && c in readers && CanRead(sh, readers[c], ra)
    ensures var (sh', r') := ReadEffect(sh, c, readers[c], ra); ChanInv(sh', readers[c := r'])
  {
    match ra
    case ReadLine(key, body) =>
      if key in sh.pending { ClaimKeepsChannels(sh, readers, c, key, body); }
      else { ReaderTurnKeepsChannels(sh, readers, c, Reading); }
    case SendReply => DeliverKeepsChannels(sh, readers, c);
    case CloseReply => CloseKeepsChannels(sh, readers, c);
    case ReadEnds => ReaderTurnKeepsChannels(sh, readers, c, Ended);
    case ReadBreaks => ReaderTurnKeepsChannels(sh, readers, c, Failing);
    case FailRead =>
      if sh.cmd == Some(c) { DrainKeepsChannels(sh, readers); }
      ReaderTurnKeepsChannels(ChildGone(sh, c), readers, c, Ended);
  }

  lemma ChanInvStep(s: State, a: Action)
    requires Enabled(s, a) && ChanInv(s.sh, s.readers)
    ensures ChanInv(Apply(s, a).sh, Apply(s, a).readers)
  {
    match a
    case Do(t, h) => ActKeepsChannels(s.sh, s.readers, t, s.threads[t], h);
    case Launch(t, child) =>
      ChanFrame(s.sh, Publish(s.sh, child), s.readers);
      ReaderTurnKeepsChannels(Publish(s.sh, child), s.readers, child, Reading);
    case Read(child, ra) => ReadKeepsChannels(s.sh, s.readers, child, ra);
    case WaitReturns(child) =>
      if s.sh.cmd == Some(child) { DrainKeepsChannels(s.sh, s.readers); }
    case Shutdown => ChanFrame(s.sh, s.sh.(stop := true), s.readers);
    case _ =>
  }

  // ---------- Spawning: one thread at a time ----------

  predicate Spawner(pc: PC) {
    pc.Spawning? || pc.Launched? || pc.Ending?
  }

  /** A thread past the publication of its child, or holding a registered request, finds a pipe. */
  predicate HasStdin(sh: Shared, pc: PC) {
    && (pc.Launched? || (pc.Ending? && pc.spawned) ==> sh.stdin.Some?)
    && (pc.Writing? ==> pc.stdin.Some?)
  }

  ghost predicate SpawnInv(sh: Shared, threads: map<Tid, Thread>) {
    && (forall t, u :: t in threads && u in threads && Spawner(threads[t].pc) && Spawner(threads[u].pc) ==> t == u)
    && (sh.starting <==> exists t :: t in threads && Spawner(threads[t].pc))
    && (sh.alive ==> !sh.starting && sh.stdin.Some?)
    && (forall t :: t in threads ==> HasStdin(sh, threads[t].pc))
  }

  /** Thread `t` becomes `th`; `threads` is otherwise the same. */
  lemma SpawnActStep(sh: Shared, threads: map<Tid, Thread>, t: Tid, h: Act)
    requires SpawnInv(sh, threads) && t in threads && CanAct(sh, threads[t].pc, h)
    ensures var e := ActEffect(sh, t, threads[t], h); SpawnInv(e.sh, threads[t := threads[t].(pc := e.pc)])
  {
    var e := ActEffect(sh, t, threads[t], h);
    var threads' := threads[t := threads[t].(pc := e.pc)];
    assert forall u :: u in threads && u != t ==> threads'[u] == threads[u];
    SpawnActLocal(sh, t, threads[t], h);
    forall u | u in threads' ensures HasStdin(e.sh, threads'[u].pc) {
      assert HasStdin(sh, threads[u].pc);
    }
    if Spawner(threads[t].pc) {
      assert sh.starting;
    }
    if Spawner(e.pc) {
      assert Spawner(threads'[t].pc);
    } else if e.sh.starting {
      var u :| u in threads && Spawner(threads[u].pc);
      assert u in threads' && Spawner(threads'[u].pc);
    }
  }

  /** What one act does to the spawning flags. */
  lemma SpawnActLocal(sh: Shared, t: Tid, th: Thread, h: Act)
    requires CanAct(sh, th.pc, h) && HasStdin(sh, th.pc) && (sh.alive ==> sh.stdin.Some? && !sh.starting)
    requires Spawner(th.pc) ==> sh.starting
    ensures var e := ActEffect(sh, t, th, h);
      && HasStdin(e.sh, e.pc) && e.sh.stdin == sh.stdin
      && (e.sh.alive ==> e.sh.stdin.Some? && !e.sh.starting)
      && (Spawner(e.pc) ==> e.sh.starting)
      && (Spawner(th.pc) ==> Spawner(e.pc) || !e.sh.starting)
      && (!Spawner(th.pc) ==> (e.sh.starting <==> (sh.starting || Spawner(e.pc))))
      && (!Spawner(th.pc) && Spawner(e.pc) ==> !sh.starting)
  {
  }

  lemma SpawnInvStep(s: State, a: Action)
    requires Enabled(s, a) && SpawnInv(s.sh, s.threads)
    ensures SpawnInv(Apply(s, a).sh, Apply(s, a).threads)
  {
    var s' := Apply(s, a);
    match a
    case Do(t, h) => SpawnActStep(s.sh, s.threads, t, h);
    case Launch(t, child) =>
      assert Spawner(s'.threads[t].pc);
      assert forall u :: u in s.threads && u != t ==> s'.threads[u] == s.threads[u];
    case Release(t) =>
      if s.sh.starting {
        var u :| u in s.threads && Spawner(s.threads[u].pc);
        assert u in s'.threads && Spawner(s'.threads[u].pc);
      }
    case Arrive(t, id) =>
      if s.sh.starting {
        var u :| u in s.threads && Spawner(s.threads[u].pc);
        assert u in s'.threads && Spawner(s'.threads[u].pc);
      }
    case _ =>
      assert s'.threads == s.threads;
      assert s'.sh.starting == s.sh.starting && s'.sh.stdin == s.sh.stdin && (s'.sh.alive ==> s.sh.alive);
  }

  // ---------- Owners of channels ----------

  /** Channels keep their key and their owner. */
  ghost predicate SameChannels(sh: Shared, sh': Shared) {
    forall ch :: ch in sh.chans ==>
      && ch in sh'.chans && sh'.chans[ch].owner == sh.chans[ch].owner && sh'.chans[ch].key == sh.chans[ch].key
  }

  /** If the only thread that changed is `t` and it still holds what it held, ownership is kept. */
  lemma OwnerFrame(sh: Shared, sh': Shared, threads: map<Tid, Thread>, t: Tid, th': Thread)
    requires OwnerInv(sh, threads) && SameChannels(sh, sh') && t in threads
    requires FewerEntries(sh, sh') && ThreadOwns(sh', t, th'.pc)
    requires forall k :: k in sh'.pending && Holds(threads[t].pc) && sh'.pending[k] == threads[t].pc.ch ==>
               Holds(th'.pc) && th'.pc.ch == threads[t].pc.ch
    ensures OwnerInv(sh', threads[t := th'])
  {
    var threads' := threads[t := th'];
    forall u | u in threads' ensures ThreadOwns(sh', u, threads'[u].pc) {
      assert ThreadOwns(sh, u, threads[u].pc);
    }
    forall k | k in sh'.pending ensures EntryOwned(sh', threads', k) {
      assert EntryOwned(sh, threads, k);
    }
  }

  lemma OwnerRegisterStep(sh: Shared, threads: map<Tid, Thread>, t: Tid, th': Thread, ch: ChanId, key: string)
    requires OwnerInv(sh, threads) && t in threads && !Holds(threads[t].pc) && ch !in sh.chans && sh.alive
    requires Holds(th'.pc) && th'.pc.ch == ch && th'.pc.key == key
    ensures OwnerInv(Register(sh, key, ch, t), threads[t := th'])
  {
    var sh', threads' := Register(sh, key, ch, t), threads[t := th'];
    forall u | u in threads' ensures ThreadOwns(sh', u, threads'[u].pc) {
      assert ThreadOwns(sh, u, threads[u].pc);
    }
    forall k | k in sh'.pending ensures EntryOwned(sh', threads', k) {
      if k != key { assert EntryOwned(sh, threads, k); }
    }
  }

  lemma OwnerReceiveStep(sh: Shared, readers: map<Child, Reader>, threads: map<Tid, Thread>, t: Tid, th': Thread)
    requires ChanInv(sh, readers) && OwnerInv(sh, threads) && t in threads && CanAct(sh, threads[t].pc, Receive)
    requires !Holds(th'.pc)
    ensures OwnerInv(Take(sh, threads[t].pc.ch), threads[t := th'])
  {
    assert Sound(sh.chans[threads[t].pc.ch]);
    OwnerFrame(sh, Take(sh, threads[t].pc.ch), threads, t, th');
  }

  lemma OwnerUnregisterStep(sh: Shared, readers: map<Child, Reader>, threads: map<Tid, Thread>, t: Tid, th': Thread)
    requires ChanInv(sh, readers) && OwnerInv(sh, threads) && t in threads && threads[t].pc.Leaving? && !Holds(th'.pc)
    ensures OwnerInv(Unregister(sh, threads[t].pc.key), threads[t := th'])
  {
    assert ThreadOwns(sh, t, threads[t].pc);
    OwnerFrame(sh, Unregister(sh, threads[t].pc.key), threads, t, th');
  }

  lemma OwnerPlainStep(sh: Shared, threads: map<Tid, Thread>, t: Tid, h: Act)
    requires OwnerInv(sh, threads) && t in threads && CanAct(sh, threads[t].pc, h) && !Channelled(h)
    requires HasStdin(sh, threads[t].pc)
    ensures var e := ActEffect(sh, t, threads[t], h); OwnerInv(e.sh, threads[t := threads[t].(pc := e.pc)])
  {
    var e := ActEffect(sh, t, threads[t], h);
    assert ThreadOwns(sh, t, threads[t].pc);
    OtherActs(sh, t, threads[t], h);
    OwnerFrame(sh, e.sh, threads, t, threads[t].(pc := e.pc));
  }

  lemma OwnerActStep(sh: Shared, readers: map<Child, Reader>, threads: map<Tid, Thread>, t: Tid, h: Act)
    requires ChanInv(sh, readers) && OwnerInv(sh, threads) && t in threads && CanAct(sh, threads[t].pc, h)
    requires HasStdin(sh, threads[t].pc)
    ensures var e := ActEffect(sh, t, threads[t], h); OwnerInv(e.sh, threads[t := threads[t].(pc := e.pc)])
  {
    var th' := threads[t].(pc := ActEffect(sh, t, threads[t], h).pc);
    if !Channelled(h) {
      OwnerPlainStep(sh, threads, t, h);
    } else if h.Receive? {
      OwnerReceiveStep(sh, readers, threads, t, th');
    } else if h.UnregisterCall? {
      OwnerUnregisterStep(sh, readers, threads, t, th');
    } else if sh.alive {
      OwnerRegisterStep(sh, threads, t, th', h.ch, threads[t].pc.key);
    } else {
      OwnerFrame(sh, sh, threads, t, th');
    }
  }

  lemma OwnerInvStep(s: State, a: Action)
    requires Enabled(s, a) && ChanInv(s.sh, s.readers) && OwnerInv(s.sh, s.threads) && SpawnInv(s.sh, s.threads)
    ensures OwnerInv(Apply(s, a).sh, Apply(s, a).threads)
  {
    if a.Do? {
      assert HasStdin(s.sh, s.threads[a.t].pc);
      OwnerActStep(s.sh, s.readers, s.threads, a.t, a.h);
    } else {
      OwnerOtherStep(s, a);
    }
  }

  /** Entries are only ever removed, never redirected. */
  ghost predicate FewerEntries(sh: Shared, sh': Shared) {
    forall k :: k in sh'.pending ==> k in sh.pending && sh'.pending[k] == sh.pending[k]
  }

  lemma ReadsKeepChannels(sh: Shared, c: Child, r: Reader, ra: ReaderAct)
    requires CanRead(sh, r, ra)
    ensures SameChannels(sh, ReadEffect(sh, c, r, ra).0) && FewerEntries(sh, ReadEffect(sh, c, r, ra).0)
  {
  }

  /** Steps of other kinds leave alone every thread that holds a channel, and add no such thread. */
  lemma OtherStepsKeepHolders(s: State, a: Action, t: Tid)
    requires Enabled(s, a) && !a.Do?
    ensures t in s.threads && Holds(s.threads[t].pc) <==> t in Apply(s, a).threads && Holds(Apply(s, a).threads[t].pc)
    ensures t in s.threads && Holds(s.threads[t].pc) ==> Apply(s, a).threads[t] == s.threads[t]
  {
  }

  lemma OwnerOtherStep(s: State, a: Action)
    requires Enabled(s, a) && OwnerInv(s.sh, s.threads) && !a.Do?
    ensures OwnerInv(Apply(s, a).sh, Apply(s, a).threads)
  {
    var s' := Apply(s, a);
    assert SameChannels(s.sh, s'.sh) && FewerEntries(s.sh, s'.sh) by {
      if a.Read? { ReadsKeepChannels(s.sh, a.child, s.readers[a.child], a.ra); }
    }
    forall u ensures u in s.threads && Holds(s.threads[u].pc) <==> u in s'.threads && Holds(s'.threads[u].pc)
             ensures u in s.threads && Holds(s.threads[u].pc) ==> s'.threads[u] == s.threads[u] {
      OtherStepsKeepHolders(s, a, u);
    }
    HoldersKept(s.sh, s'.sh, s.threads, s'.threads);
  }

  /** With the same channels and holders, and no new entries, every channel keeps its owner. */
  lemma HoldersKept(sh: Shared, sh': Shared, threads: map<Tid, Thread>, threads': map<Tid, Thread>)
    requires OwnerInv(sh, threads) && SameChannels(sh, sh') && FewerEntries(sh, sh')
    requires forall u :: u in threads && Holds(threads[u].pc) <==> u in threads' && Holds(threads'[u].pc)
    requires forall u :: u in threads && Holds(threads[u].pc) ==> threads'[u] == threads[u]
    ensures OwnerInv(sh', threads')
  {
    forall u | u in threads' ensures ThreadOwns(sh', u, threads'[u].pc) {
      if u in threads { assert ThreadOwns(sh, u, threads[u].pc); }
    }
    forall k | k in sh'.pending ensures EntryOwned(sh', threads', k) {
      assert EntryOwned(sh, threads, k);
    }
  }
}
