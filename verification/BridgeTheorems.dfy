/** What holds in every state of every run of the bridge. */
module BridgeTheorems {
  import opened Channels
  import opened Text
  import opened Bridge
  import opened BridgeInvariants
  import opened BridgeHandshake

  // ---------- Ids ----------

  /** The key a client request travels under: its own id, or a synthetic one standing for null. */
  predicate KeyFits(id: string, key: string) {
    |id| > 0 && (IsNullId(id) || key == IdKey(id))
  }

  predicate ThreadIdOk(th: Thread) {
    match th.pc
    case Registering(Forward, key) => KeyFits(th.id, key)
    case Noting(Forward) => |th.id| == 0
    case NoteWriting(Forward, _, _) => |th.id| == 0
    case Writing(Forward, key, _, _, _) => KeyFits(th.id, key)
    case Awaiting(Forward, key, _) => KeyFits(th.id, key)
    case _ => true
  }

  /** Synthetic ids are numbered upwards. */
  ghost predicate MintedInOrder(log: seq<Event>, n: nat) {
    && (forall k :: 0 <= k < |log| && log[k].Minted? ==> exists m: nat :: 1 <= m <= n && log[k].key == SyntheticKey(m))
    && (forall j, k :: 0 <= j < k < |log| && log[j].Minted? && log[k].Minted? ==> log[j].key != log[k].key)
  }

  /** An answer shows the request's own id; a request forwarded without waiting for an answer has none. */
  predicate EventIdOk(e: Event) {
    && (e.Answered? ==> |e.id| > 0 && e.seen == IdKey(e.id))
    && (e.NotificationForwarded? ==> |e.id| == 0)
  }

  ghost predicate IdLog(log: seq<Event>, n: nat) {
    && (forall k :: 0 <= k < |log| ==> EventIdOk(log[k]))
    && MintedInOrder(log, n)
  }

  ghost predicate IdInv(s: State) {
    && (forall t :: t in s.threads ==> ThreadIdOk(s.threads[t]))
    && IdLog(s.log, s.sh.seqNo)
  }

  lemma SyntheticInjective(m: nat, n: nat)
    requires SyntheticKey(m) == SyntheticKey(n)
    ensures m == n
  {
    var p, q := SyntheticKey(m), SyntheticKey(n);
    assert p[6..|p| - 1] == Itoa(m) && q[6..|q| - 1] == Itoa(n);
    ItoaInjective(m, n);
  }

  lemma MintNext(log: seq<Event>, n: nat)
    requires MintedInOrder(log, n)
    ensures MintedInOrder(log + [Minted(SyntheticKey(n + 1))], n + 1)
  {
    var log' := log + [Minted(SyntheticKey(n + 1))];
    forall k | 0 <= k < |log| && log[k].Minted?
      ensures exists m: nat :: 1 <= m <= n + 1 && log'[k].key == SyntheticKey(m)
      ensures log'[k].key != SyntheticKey(n + 1)
    {
      var m: nat :| 1 <= m <= n && log[k].key == SyntheticKey(m);
      if log[k].key == SyntheticKey(n + 1) { SyntheticInjective(m, n + 1); }
    }
    assert 1 <= n + 1 <= n + 1 && log'[|log|].key == SyntheticKey(n + 1);
  }

  /** The reply a thread takes out of its channel answers the key it registered. */
  lemma ReplyFits(s: State, t: Tid)
    requires ChanInv(s.sh, s.readers) && OwnerInv(s.sh, s.threads)
    requires t in s.threads && CanAct(s.sh, s.threads[t].pc, Receive)
    ensures var m := Received(s.sh.chans[s.threads[t].pc.ch]); m.Line? ==> m.key == s.threads[t].pc.key
  {
    assert Sound(s.sh.chans[s.threads[t].pc.ch]) && ThreadOwns(s.sh, t, s.threads[t].pc);
  }

  /** At most one event per act, and what it says about ids. */
  lemma IdActLocal(sh: Shared, t: Tid, th: Thread, h: Act)
    requires CanAct(sh, th.pc, h) && ThreadIdOk(th)
    requires h.Receive? && Received(sh.chans[th.pc.ch]).Line? ==> Received(sh.chans[th.pc.ch]).key == th.pc.key
    ensures var e := ActEffect(sh, t, th, h);
      && ThreadIdOk(th.(pc := e.pc)) && |e.events| <= 1
      && (|e.events| == 1 ==> EventIdOk(e.events[0]))
      && (if |e.events| == 1 && e.events[0].Minted?
          then e.events[0].key == SyntheticKey(sh.seqNo + 1) && e.sh.seqNo == sh.seqNo + 1
          else e.sh.seqNo == sh.seqNo)
  {
  }

  lemma IdInvStep(s: State, a: Action)
    requires Enabled(s, a) && ChanInv(s.sh, s.readers) && OwnerInv(s.sh, s.threads) && IdInv(s)
    ensures IdInv(Apply(s, a))
  {
    if a.Do? {
      IdDoStep(s, a.t, a.h);
    } else {
      assert Apply(s, a).log == s.log && Apply(s, a).sh.seqNo == s.sh.seqNo;
    }
  }

  lemma IdDoStep(s: State, t: Tid, h: Act)
    requires Enabled(s, Do(t, h)) && ChanInv(s.sh, s.readers) && OwnerInv(s.sh, s.threads) && IdInv(s)
    ensures IdInv(Apply(s, Do(t, h)))
  {
    var e := ActEffect(s.sh, t, s.threads[t], h);
    if h.Receive? { ReplyFits(s, t); }
    IdActLocal(s.sh, t, s.threads[t], h);
    IdLogStep(s.log, s.sh.seqNo, e.events, e.sh.seqNo);
  }

  lemma IdLogStep(log: seq<Event>, n: nat, events: seq<Event>, n': nat)
    requires IdLog(log, n) && |events| <= 1
    requires |events| == 1 ==> EventIdOk(events[0])
    requires if |events| == 1 && events[0].Minted? then events[0].key == SyntheticKey(n + 1) && n' == n + 1 else n' == n
    ensures IdLog(log + events, n')
  {
    if events == [] {
      assert log + events == log;
    } else if events[0].Minted? {
      assert events == [Minted(SyntheticKey(n + 1))];
      MintNext(log, n);
    } else {
      assert forall k :: 0 <= k < |log| ==> (log + events)[k] == log[k];
    }
  }

  // ---------- Counting ----------

  function Spawns(log: seq<Event>): nat {
    if log == [] then 0 else Spawns(log[..|log| - 1]) + (if log[|log| - 1].Spawned? then 1 else 0)
  }

  lemma SpawnsOne(log: seq<Event>, e: Event)
    ensures Spawns(log + [e]) == Spawns(log) + (if e.Spawned? then 1 else 0)
  {
    assert (log + [e])[..|log + [e]| - 1] == log;
  }

  ghost predicate CountInv(s: State) {
    && s.queue == |s.threads| && s.queue <= 8
    && s.sh.generation == Spawns(s.log)
  }

  lemma CountActLocal(sh: Shared, t: Tid, th: Thread, h: Act)
    requires CanAct(sh, th.pc, h)
    ensures var e := ActEffect(sh, t, th, h);
      || (e.events == [] && e.sh.generation == sh.generation)
      || (exists ev :: e.events == [ev] && e.sh.generation == sh.generation + (if ev.Spawned? then 1 else 0))
  {
    var e := ActEffect(sh, t, th, h);
    if e.events != [] { assert e.events == [e.events[0]]; }
  }

  lemma CountInvStep(s: State, a: Action)
    requires Enabled(s, a) && CountInv(s)
    ensures CountInv(Apply(s, a))
  {
    if a.Do? { CountDoStep(s, a.t, a.h); } else { CountOtherStep(s, a); }
  }

  lemma CountDoStep(s: State, t: Tid, h: Act)
    requires Enabled(s, Do(t, h)) && CountInv(s)
    ensures CountInv(Apply(s, Do(t, h)))
  {
    var e := ActEffect(s.sh, t, s.threads[t], h);
    CountActLocal(s.sh, t, s.threads[t], h);
    if e.events == [] { assert s.log + e.events == s.log; } else { SpawnsOne(s.log, e.events[0]); }
    SameSize(s.threads, t, s.threads[t].(pc := e.pc));
  }

  lemma SameSize<K, V>(m: map<K, V>, k: K, v: V)
    requires k in m
    ensures |m[k := v]| == |m|
  {
    assert m[k := v].Keys == m.Keys;
  }

  lemma CountOtherStep(s: State, a: Action)
    requires Enabled(s, a) && CountInv(s) && !a.Do?
    ensures CountInv(Apply(s, a))
  {
    match a
    case Launch(t, child) => SameSize(s.threads, t, Apply(s, a).threads[t]);
    case Arrive(t, id) => OneMore(s.threads, t, Thread(id, Admitted));
    case Release(t) => OneLess(s.threads, t);
    case Read(child, ra) => ReadKeepsGeneration(s.sh, child, s.readers[child], ra);
    case _ =>
  }

  lemma OneMore<K, V>(m: map<K, V>, k: K, v: V)
    requires k !in m
    ensures |m[k := v]| == |m| + 1
  {
    assert m[k := v].Keys == m.Keys + {k};
  }

  lemma OneLess<K, V>(m: map<K, V>, k: K)
    requires k in m
    ensures |m| > 0 && |m - {k}| == |m| - 1
  {
    assert (m - {k}).Keys == m.Keys - {k};
  }

  lemma ReadKeepsGeneration(sh: Shared, child: Child, r: Reader, ra: ReaderAct)
    requires CanRead(sh, r, ra)
    ensures ReadEffect(sh, child, r, ra).0.generation == sh.generation
  {
  }

  // ---------- All runs ----------

  ghost predicate Inv(s: State) {
    && ChanInv(s.sh, s.readers) && OwnerInv(s.sh, s.threads) && SpawnInv(s.sh, s.threads)
    && BootInv(s) && IdInv(s) && CountInv(s)
  }

  lemma InvInit()
    ensures Inv(INIT)
  {
  }

  lemma InvStep(s: State, a: Action)
    requires Enabled(s, a) && Inv(s)
    ensures Inv(Apply(s, a))
  {
    ChanInvStep(s, a);
    SpawnInvStep(s, a);
    OwnerInvStep(s, a);
    BootInvStep(s, a);
    IdInvStep(s, a);
    CountInvStep(s, a);
  }

  lemma {:induction false} InvAlways(run: seq<State>, i: nat)
    requires IsRun(run) && i < |run|
    ensures Inv(run[i])
  {
    if i == 0 {
      InvInit();
    } else {
      InvAlways(run, i - 1);
      assert StepAt(run, i);
      var a :| Enabled(run[i - 1], a) && run[i] == Apply(run[i - 1], a);
      InvStep(run[i - 1], a);
    }
  }

  /**
   * In every interleaving, duplicate ids included: no channel is closed twice, is sent to after its close,
   * receives two values, or makes the non-blocking send take its default branch; and a line that reaches a
   * channel carries the key the channel was registered under.
   */
  lemma ChannelDiscipline(run: seq<State>, i: nat, ch: ChanId)
    requires IsRun(run) && i < |run| && ch in run[i].sh.chans
    ensures var c := run[i].sh.chans[ch];
      && !c.panicked && !c.dropped && c.sends <= 1
      && (c.slot.Some? && c.slot.value.Line? ==> c.slot.value.key == c.key)
  {
    InvAlways(run, i);
    assert Sound(run[i].sh.chans[ch]);
  }

  /** Spawning is single-flight, and the generation counts the spawns that succeeded. */
  lemma SingleFlight(run: seq<State>, i: nat, t: Tid, u: Tid)
    requires IsRun(run) && i < |run| && t in run[i].threads && u in run[i].threads
    ensures Spawner(run[i].threads[t].pc) && Spawner(run[i].threads[u].pc) ==> t == u
    ensures !(run[i].sh.alive && run[i].sh.starting)
    ensures run[i].sh.generation == Spawns(run[i].log)
  {
    InvAlways(run, i);
  }

  /**
   * Every client request and every forwarded notification was written after some handler had written
   * initialize, received its reply and written the initialized notification. If the request's pipe was
   * read in the first generation, both of those writes went to the same child.
   */
  lemma RequestsFollowHandshake(run: seq<State>, i: nat, k: nat)
    requires IsRun(run) && i < |run| && k < |run[i].log|
    ensures var e := run[i].log[k];
      && (e.RequestWritten? || e.NotificationForwarded? ==> Greeted(run[i].log, k))
      && (e.RequestWritten? && e.gen == 1 ==> GreetedOn(run[i].log, k, e.child))
  {
    InvAlways(run, i);
    assert RequestOk(run[i].log, k);
  }

  /** The client sees its own id back, null included, and no synthetic id is ever issued twice. */
  lemma IdsComeBack(run: seq<State>, i: nat, j: nat, k: nat)
    requires IsRun(run) && i < |run| && j < |run[i].log| && k < |run[i].log|
    ensures run[i].log[k].Answered? ==> run[i].log[k].seen == IdKey(run[i].log[k].id)
    ensures run[i].log[j].Minted? && run[i].log[k].Minted? && run[i].log[j].key == run[i].log[k].key ==> j == k
  {
    InvAlways(run, i);
    assert EventIdOk(run[i].log[k]);
  }

  /** What is forwarded without an answer is exactly what has no id; whatever is answered has one. */
  lemma AnsweredIffId(run: seq<State>, i: nat, k: nat)
    requires IsRun(run) && i < |run| && k < |run[i].log|
    ensures var e := run[i].log[k]; e.Answered? || e.NotificationForwarded? ==> (e.Answered? <==> |e.id| > 0)
  {
    InvAlways(run, i);
    assert EventIdOk(run[i].log[k]);
  }

  // ---------- Admission ----------

  lemma {:induction false} ValuesOfInjective<K, V>(m: map<K, V>)
    requires forall j, k :: j in m && k in m && m[j] == m[k] ==> j == k
    ensures |m.Values| == |m|
  {
    if m != map[] {
      var k :| k in m;
      var m' := m - {k};
      assert m'.Keys == m.Keys - {k};
      assert m.Values == m'.Values + {m[k]} by {
        forall v | v in m.Values ensures v in m'.Values + {m[k]} {
          var j :| j in m && m[j] == v;
          if j != k { assert j in m' && m'[j] == v; }
        }
      }
      assert m[k] !in m'.Values;
      ValuesOfInjective(m');
    } else {
      assert m.Values == {};
    }
  }

  lemma SubsetSize<T>(a: set<T>, b: set<T>)
    requires a <= b
    ensures |a| <= |b|
  {
    assert b == a + (b - a);
  }

  function EntryOwner(sh: Shared, k: string): Tid
    requires k in sh.pending && sh.pending[k] in sh.chans
  {
    sh.chans[sh.pending[k]].owner
  }

  lemma EntriesApart(sh: Shared, readers: map<Child, Reader>, threads: map<Tid, Thread>, j: string, k: string)
    requires ChanInv(sh, readers) && OwnerInv(sh, threads) && j in sh.pending && k in sh.pending
    ensures EntryOwner(sh, k) in threads
    ensures EntryOwner(sh, j) == EntryOwner(sh, k) ==> j == k
  {
    assert EntryOwned(sh, threads, j) && EntryOwned(sh, threads, k);
  }

  /** No more entries than handlers: distinct entries have distinct owners. */
  lemma PendingBounded(sh: Shared, readers: map<Child, Reader>, threads: map<Tid, Thread>)
    requires ChanInv(sh, readers) && OwnerInv(sh, threads)
    ensures |sh.pending| <= |threads|
  {
    assert forall k :: k in sh.pending ==> sh.pending[k] in sh.chans;
    var owners := map k | k in sh.pending :: EntryOwner(sh, k);
    forall j, k | j in owners && k in owners
      ensures owners[k] in threads && (owners[j] == owners[k] ==> j == k)
    {
      EntriesApart(sh, readers, threads, j, k);
    }
    ValuesOfInjective(owners);
    assert owners.Keys == sh.pending.Keys;
    SubsetSize(owners.Values, threads.Keys);
  }

  /**
   * The queue holds one token for each handler in the guarded region, so a release always finds one; the
   * pending map never exceeds the queue's capacity; and a registered request always has a pipe to go to.
   */
  lemma Admission(run: seq<State>, i: nat)
    requires IsRun(run) && i < |run|
    ensures run[i].queue == |run[i].threads| <= 8
    ensures forall t :: t in run[i].threads ==> run[i].queue > 0
    ensures |run[i].sh.pending| <= 8
    ensures forall k :: k in run[i].sh.pending ==> EntryOwned(run[i].sh, run[i].threads, k)
    ensures forall t :: t in run[i].threads && run[i].threads[t].pc.Writing? ==> run[i].threads[t].pc.stdin.Some?
  {
    InvAlways(run, i);
    PendingBounded(run[i].sh, run[i].readers, run[i].threads);
    forall t | t in run[i].threads ensures HasStdin(run[i].sh, run[i].threads[t].pc) {}
  }

  /** A request is let in exactly if fewer than eight handlers are inside. */
  lemma AdmittedExactly(run: seq<State>, i: nat, t: Tid, id: string)
    requires IsRun(run) && i < |run| && t !in run[i].threads
    ensures t in Apply(run[i], Arrive(t, id)).threads <==> |run[i].threads| < 8
  {
    InvAlways(run, i);
  }

  /** A release takes exactly one token back, after which the next request is let in. */
  lemma ReleaseMakesRoom(run: seq<State>, i: nat, t: Tid, u: Tid, id: string)
    requires IsRun(run) && i < |run| && Enabled(run[i], Release(t)) && u !in run[i].threads
    ensures var s := Apply(run[i], Release(t));
      s.queue == |run[i].threads| - 1 == |s.threads| && u in Apply(s, Arrive(u, id)).threads
  {
    InvAlways(run, i);
    CountInvStep(run[i], Release(t));
    assert run[i].threads.Keys == Apply(run[i], Release(t)).threads.Keys + {t};
  }
}
