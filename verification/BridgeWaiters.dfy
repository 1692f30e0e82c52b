/** Who answers a blocked handler, and exactly how a waiter can get lost. */
module BridgeWaiters {
  import opened Wrappers
  import opened Channels
  import opened Bridge
  import opened BridgeInvariants
  import opened BridgeTheorems

  ghost predicate HeldByReader(readers: map<Child, Reader>, ch: ChanId) {
    exists c :: c in readers && Claimed(readers[c]) && readers[c].ch == ch
  }

  /** The waiter on `ch` is registered, or claimed by a reader, or has been sent its value. */
  ghost predicate Tracked(sh: Shared, readers: map<Child, Reader>, ch: ChanId) {
    Registered(sh, ch) || HeldByReader(readers, ch) || (ch in sh.chans && sh.chans[ch].sends == 1)
  }

  predicate WaitsOn(threads: map<Tid, Thread>, t: Tid, ch: ChanId) {
    t in threads && Holds(threads[t].pc) && threads[t].pc.ch == ch
  }

  /** Another handler registers, or withdraws, a request under the key thread `t` waits on. */
  predicate Collides(s: State, a: Action, t: Tid)
    requires Enabled(s, a) && t in s.threads && Holds(s.threads[t].pc)
  {
    && a.Do? && a.t != t
    && ((a.h.RegisterCall? && s.sh.alive) || a.h.UnregisterCall?)
    && s.threads[a.t].pc.key == s.threads[t].pc.key
  }

  /** One signaller at a time: a registered waiter is claimed by no one and unsent, a claimed one by a single reader. */
  lemma OneSignaller(sh: Shared, readers: map<Child, Reader>, ch: ChanId)
    requires ChanInv(sh, readers)
    ensures Registered(sh, ch) ==> !HeldByReader(readers, ch) && sh.chans[ch].sends == 0
    ensures forall c, d | c in readers && d in readers && Claimed(readers[c]) && Claimed(readers[d]) ::
              readers[c].ch == ch && readers[d].ch == ch ==> c == d
    ensures forall c | c in readers && readers[c].Holding? :: readers[c].ch == ch ==>
              ch in sh.chans && sh.chans[ch].sends == 0
  {
    forall c | c in readers && readers[c].Holding? && readers[c].ch == ch
      ensures ch in sh.chans && sh.chans[ch].sends == 0
    {
      assert ReaderOk(sh, readers[c]);
    }
    forall c | c in readers && Claimed(readers[c]) && readers[c].ch == ch ensures !Registered(sh, ch) {
      assert ReaderOk(sh, readers[c]);
    }
  }

  lemma ReadKeepsTracked(sh: Shared, readers: map<Child, Reader>, c: Child, ra: ReaderAct, ch: ChanId)
    requires ChanInv(sh, readers) && c in readers && CanRead(sh, readers[c], ra) && Tracked(sh, readers, ch)
    ensures var (sh', r') := ReadEffect(sh, c, readers[c], ra); Tracked(sh', readers[c := r'], ch)
  {
    var (sh', r') := ReadEffect(sh, c, readers[c], ra);
    var readers' := readers[c := r'];
    assert ReaderOk(sh, readers[c]);
    if HeldByReader(readers, ch) {
      var d :| d in readers && Claimed(readers[d]) && readers[d].ch == ch;
      assert d in readers' && (d != c ==> readers'[d] == readers[d]);
    } else if Registered(sh, ch) {
      ReadKeepsEntry(sh, readers, c, ra, ch);
    } else {
      assert Sound(sh.chans[ch]);
      ReadKeepsSent(sh, readers[c], c, ra, ch);
    }
  }

  lemma ReadKeepsSent(sh: Shared, r: Reader, c: Child, ra: ReaderAct, ch: ChanId)
    requires CanRead(sh, r, ra) && ch in sh.chans && sh.chans[ch].sends == 1
    requires r.Holding? ==> r.ch != ch
    requires forall k :: k in sh.pending ==> sh.pending[k] != ch
    ensures ch in ReadEffect(sh, c, r, ra).0.chans && ReadEffect(sh, c, r, ra).0.chans[ch].sends == 1
  {
  }

  /** A reader leaves an entry alone, claims it, or fails it together with all the others. */
  lemma ReadKeepsEntry(sh: Shared, readers: map<Child, Reader>, c: Child, ra: ReaderAct, ch: ChanId)
    requires ChanInv(sh, readers) && c in readers && CanRead(sh, readers[c], ra) && Registered(sh, ch)
    ensures var (sh', r') := ReadEffect(sh, c, readers[c], ra); Tracked(sh', readers[c := r'], ch)
  {
    var (sh', r') := ReadEffect(sh, c, readers[c], ra);
    OneSignaller(sh, readers, ch);
    if ra.ReadLine? && ra.key == sh.chans[ch].key {
      assert Claimed(readers[c := r'][c]) && readers[c := r'][c].ch == ch;
    } else if ra.FailRead? && sh.cmd == Some(c) {
      DrainKeepsChannels(sh, readers);
      DrainSends(sh, ch);
    }
  }

  lemma DrainSends(sh: Shared, ch: ChanId)
    requires ch in sh.chans && Registered(sh, ch) && Sound(sh.chans[ch]) && sh.chans[ch].sends == 0
    ensures Drain(sh).chans[ch].sends == 1 && Drain(sh).chans[ch].slot == Some(Gone) && Drain(sh).chans[ch].closed
  {
    assert ch in sh.pending.Values;
  }

  lemma GoneKeepsTracked(sh: Shared, readers: map<Child, Reader>, c: Child, ch: ChanId)
    requires ChanInv(sh, readers) && Tracked(sh, readers, ch)
    ensures Tracked(ChildGone(sh, c), readers, ch)
  {
    OneSignaller(sh, readers, ch);
    if sh.cmd == Some(c) && !HeldByReader(readers, ch) {
      if Registered(sh, ch) { DrainSends(sh, ch); } else { assert ch !in sh.pending.Values; }
    }
  }

  /** An act of thread `u` under another key, or one that does not touch the pending map, loses no one. */
  lemma ActKeepsTracked(sh: Shared, readers: map<Child, Reader>, threads: map<Tid, Thread>, u: Tid, h: Act, t: Tid)
    requires ChanInv(sh, readers) && OwnerInv(sh, threads) && u in threads && CanAct(sh, threads[u].pc, h)
    requires t in threads && Holds(threads[t].pc) && Registered(sh, threads[t].pc.ch)
    requires (h.RegisterCall? && sh.alive) || h.UnregisterCall? ==> threads[u].pc.key != threads[t].pc.key
    ensures Registered(ActEffect(sh, u, threads[u], h).sh, threads[t].pc.ch)
  {
    assert ThreadOwns(sh, t, threads[t].pc);
    if !Channelled(h) { OtherActs(sh, u, threads[u], h); }
  }

  /** An act under the same key removes or replaces the entry, and nobody else knows the channel. */
  lemma CollisionLoses(sh: Shared, readers: map<Child, Reader>, threads: map<Tid, Thread>, u: Tid, h: Act, t: Tid)
    requires ChanInv(sh, readers) && OwnerInv(sh, threads) && u in threads && CanAct(sh, threads[u].pc, h)
    requires t in threads && Holds(threads[t].pc) && Registered(sh, threads[t].pc.ch)
    requires (h.RegisterCall? && sh.alive) || h.UnregisterCall?
    requires threads[u].pc.key == threads[t].pc.key
    ensures !Tracked(ActEffect(sh, u, threads[u], h).sh, readers, threads[t].pc.ch)
  {
    assert ThreadOwns(sh, t, threads[t].pc);
    OneSignaller(sh, readers, threads[t].pc.ch);
  }

  lemma SentStays(sh: Shared, readers: map<Child, Reader>, threads: map<Tid, Thread>, u: Tid, h: Act, t: Tid)
    requires ChanInv(sh, readers) && OwnerInv(sh, threads) && u in threads && CanAct(sh, threads[u].pc, h)
    requires t in threads && Holds(threads[t].pc)
    requires !Registered(sh, threads[t].pc.ch) && Tracked(sh, readers, threads[t].pc.ch)
    ensures Tracked(ActEffect(sh, u, threads[u], h).sh, readers, threads[t].pc.ch)
  {
    assert ThreadOwns(sh, t, threads[t].pc);
    if !Channelled(h) { OtherActs(sh, u, threads[u], h); }
  }

  /**
   * Exactly how a waiter gets lost: its entry was still in the pending map, and another handler registered
   * or withdrew a request under the same key.
   */
  lemma LostExactlyByCollision(s: State, a: Action, t: Tid, ch: ChanId)
    requires Inv(s) && Enabled(s, a)
    requires WaitsOn(s.threads, t, ch) && WaitsOn(Apply(s, a).threads, t, ch)
    requires Tracked(s.sh, s.readers, ch)
    ensures !Tracked(Apply(s, a).sh, Apply(s, a).readers, ch) <==> Registered(s.sh, ch) && Collides(s, a, t)
  {
    match a
    case Do(u, h) =>
      if !Registered(s.sh, ch) {
        SentStays(s.sh, s.readers, s.threads, u, h, t);
      } else if Collides(s, a, t) {
        CollisionLoses(s.sh, s.readers, s.threads, u, h, t);
      } else {
        ActKeepsTracked(s.sh, s.readers, s.threads, u, h, t);
      }
    case Read(c, ra) => ReadKeepsTracked(s.sh, s.readers, c, ra, ch);
    case WaitReturns(c) => GoneKeepsTracked(s.sh, s.readers, c, ch);
    case Launch(u, c) => LaunchKeepsTracked(s.sh, s.readers, c, ch);
    case _ =>
  }

  lemma LaunchKeepsTracked(sh: Shared, readers: map<Child, Reader>, c: Child, ch: ChanId)
    requires Tracked(sh, readers, ch) && c !in readers
    ensures Tracked(Publish(sh, c), readers[c := Reading], ch)
  {
    if HeldByReader(readers, ch) {
      var d :| d in readers && Claimed(readers[d]) && readers[d].ch == ch;
      assert d in readers[c := Reading] && readers[c := Reading][d] == readers[d];
    }
  }

  // ---------- Runs without shared keys ----------

  /** No two handlers inside `sendRaw` use the same key. */
  ghost predicate KeysApart(s: State) {
    forall t, u :: t in s.threads && u in s.threads && t != u && Holds(s.threads[t].pc) && Holds(s.threads[u].pc) ==>
      s.threads[t].pc.key != s.threads[u].pc.key
  }

  ghost predicate NoneLost(s: State) {
    forall t :: t in s.threads && Holds(s.threads[t].pc) ==> Tracked(s.sh, s.readers, s.threads[t].pc.ch)
  }

  lemma WaiterKept(s: State, a: Action, t: Tid)
    requires Inv(s) && Enabled(s, a) && NoneLost(s) && KeysApart(s) && KeysApart(Apply(s, a))
    requires t in s.threads && t in Apply(s, a).threads && Holds(s.threads[t].pc)
    requires WaitsOn(Apply(s, a).threads, t, s.threads[t].pc.ch)
    ensures Tracked(Apply(s, a).sh, Apply(s, a).readers, s.threads[t].pc.ch)
  {
    if Collides(s, a, t) { CollisionShares(s, a, t); }
    LostExactlyByCollision(s, a, t, s.threads[t].pc.ch);
  }

  lemma NoneLostStep(s: State, a: Action)
    requires Inv(s) && Enabled(s, a) && NoneLost(s) && KeysApart(s) && KeysApart(Apply(s, a))
    ensures NoneLost(Apply(s, a))
  {
    var s' := Apply(s, a);
    forall t | t in s'.threads && Holds(s'.threads[t].pc)
      ensures Tracked(s'.sh, s'.readers, s'.threads[t].pc.ch)
    {
      HoldersComeFrom(s, a, t);
      if !Registered(s'.sh, s'.threads[t].pc.ch) { WaiterKept(s, a, t); }
    }
  }

  /** A handler inside `sendRaw` after a step was there before it, or has just registered. */
  lemma HoldersComeFrom(s: State, a: Action, t: Tid)
    requires Inv(s) && Enabled(s, a) && t in Apply(s, a).threads && Holds(Apply(s, a).threads[t].pc)
    ensures var pc' := Apply(s, a).threads[t].pc;
      || (t in s.threads && Holds(s.threads[t].pc) && s.threads[t].pc.ch == pc'.ch)
      || Registered(Apply(s, a).sh, pc'.ch)
  {
    if a.Do? && a.t == t {
      if !Channelled(a.h) {
        assert HasStdin(s.sh, s.threads[t].pc);
        OtherActs(s.sh, t, s.threads[t], a.h);
      }
    } else if !a.Do? {
      OtherStepsKeepHolders(s, a, t);
    }
  }

  lemma CollisionShares(s: State, a: Action, t: Tid)
    requires Inv(s) && Enabled(s, a) && t in s.threads && Holds(s.threads[t].pc) && Collides(s, a, t)
    ensures !KeysApart(s) || !KeysApart(Apply(s, a))
  {
    var u, s' := a.t, Apply(s, a);
    if a.h.UnregisterCall? {
      assert Holds(s.threads[u].pc);
    } else {
      assert s'.threads[t] == s.threads[t] && Holds(s'.threads[u].pc) && s'.threads[u].pc.key == s.threads[u].pc.key;
    }
  }

  /** In a run where keys stay apart, every handler inside `sendRaw` has someone left to answer it. */
  lemma {:induction false} NoLostWaiter(run: seq<State>, i: nat)
    requires IsRun(run) && i < |run|
    requires forall j :: 0 <= j <= i ==> KeysApart(run[j])
    ensures NoneLost(run[i])
  {
    if i > 0 {
      NoLostWaiter(run, i - 1);
      NoneLostNext(run, i);
    }
  }

  lemma NoneLostNext(run: seq<State>, i: nat)
    requires IsRun(run) && 0 < i < |run| && NoneLost(run[i - 1]) && KeysApart(run[i - 1]) && KeysApart(run[i])
    ensures NoneLost(run[i])
  {
    InvAlways(run, i - 1);
    assert StepAt(run, i);
    var a :| Enabled(run[i - 1], a) && run[i] == Apply(run[i - 1], a);
    NoneLostStep(run[i - 1], a);
  }

  /** Handling the exit or the read failure of the current child answers every registered waiter with nil. */
  lemma ChildLossAnswersAll(s: State, a: Action)
    requires Inv(s) && Enabled(s, a) && (a.WaitReturns? || (a.Read? && a.ra.FailRead?)) && s.sh.cmd == Some(a.child)
    ensures Apply(s, a).sh.pending == map[] && !Apply(s, a).sh.alive
    ensures forall k :: k in s.sh.pending ==>
              && Received(Apply(s, a).sh.chans[s.sh.pending[k]]) == Gone
              && Apply(s, a).sh.chans[s.sh.pending[k]].sends == 1
  {
    DrainKeepsChannels(s.sh, s.readers);
    forall k | k in s.sh.pending ensures Drain(s.sh).chans[s.sh.pending[k]].sends == 1 {
      DrainSends(s.sh, s.sh.pending[k]);
    }
  }

  // ---------- A lost waiter stays lost ----------

  ghost predicate Lost(s: State, ch: ChanId) {
    ch in s.sh.chans && !Tracked(s.sh, s.readers, ch)
  }

  lemma LostActStep(sh: Shared, readers: map<Child, Reader>, t: Tid, th: Thread, h: Act, ch: ChanId)
    requires ChanInv(sh, readers) && CanAct(sh, th.pc, h) && ch in sh.chans && !Tracked(sh, readers, ch)
    ensures ch in ActEffect(sh, t, th, h).sh.chans && !Tracked(ActEffect(sh, t, th, h).sh, readers, ch)
  {
    if !Channelled(h) { OtherActs(sh, t, th, h); }
  }

  lemma TurnKeepsLost(readers: map<Child, Reader>, c: Child, r: Reader, ch: ChanId)
    requires !HeldByReader(readers, ch) && !(Claimed(r) && r.ch == ch)
    ensures !HeldByReader(readers[c := r], ch)
  {
    var readers' := readers[c := r];
    forall d | d in readers' ensures !(Claimed(readers'[d]) && readers'[d].ch == ch) {
      if d != c { assert readers'[d] == readers[d]; }
    }
  }

  lemma LostReadStep(sh: Shared, readers: map<Child, Reader>, c: Child, ra: ReaderAct, ch: ChanId)
    requires ChanInv(sh, readers) && c in readers && CanRead(sh, readers[c], ra)
    requires ch in sh.chans && !Tracked(sh, readers, ch)
    ensures var (sh', r') := ReadEffect(sh, c, readers[c], ra); ch in sh'.chans && !Tracked(sh', readers[c := r'], ch)
  {
    var (sh', r') := ReadEffect(sh, c, readers[c], ra);
    assert !(Claimed(readers[c]) && readers[c].ch == ch);
    NotPending(sh, readers, ch);
    TurnKeepsLost(readers, c, r', ch);
  }

  lemma NotPending(sh: Shared, readers: map<Child, Reader>, ch: ChanId)
    requires ChanInv(sh, readers) && !Registered(sh, ch)
    ensures ch !in sh.pending.Values
  {
  }

  lemma LostStep(s: State, a: Action, ch: ChanId)
    requires Inv(s) && Enabled(s, a) && Lost(s, ch)
    ensures Lost(Apply(s, a), ch)
  {
    NotPending(s.sh, s.readers, ch);
    match a
    case Do(t, h) => LostActStep(s.sh, s.readers, t, s.threads[t], h, ch);
    case Read(c, ra) => LostReadStep(s.sh, s.readers, c, ra, ch);
    case Launch(t, c) => TurnKeepsLost(s.readers, c, Reading, ch);
    case _ =>
  }

  /** Once lost, a waiter never has anything to receive: only its deadline ends the wait. */
  lemma {:induction false} LostForever(run: seq<State>, i: nat, j: nat, ch: ChanId)
    requires IsRun(run) && i <= j < |run| && Lost(run[i], ch)
    ensures Lost(run[j], ch) && !CanReceive(run[j].sh.chans[ch])
  {
    if i < j {
      LostForever(run, i, j - 1, ch);
      InvAlways(run, j - 1);
      assert StepAt(run, j);
      var a :| Enabled(run[j - 1], a) && run[j] == Apply(run[j - 1], a);
      LostStep(run[j - 1], a, ch);
    }
    InvAlways(run, j);
    assert Sound(run[j].sh.chans[ch]);
  }
}
