/** A child that is taken for alive with nobody left to notice that it is not; and answers from dead children. */
module BridgeWedge {
  import opened Wrappers
  import opened Channels
  import opened Bridge
  import opened BridgeInvariants
  import opened BridgeTheorems
  import opened BridgeRuns
  import opened BridgeRestart

  // ---------- Alive for ever ----------

  /** The current child counts as alive, its exit watcher has returned, and its reader has met the end. */
  predicate Wedged(s: State) {
    && s.sh.alive && s.sh.cmd.Some? && s.sh.cmd.value !in s.waiters
    && s.sh.cmd.value in s.readers && s.readers[s.sh.cmd.value].Ended?
  }

  lemma WedgedAct(sh: Shared, t: Tid, th: Thread, h: Act)
    requires CanAct(sh, th.pc, h) && sh.alive && !Spawner(th.pc)
    ensures var e := ActEffect(sh, t, th, h);
      e.sh.alive && e.sh.cmd == sh.cmd && e.sh.generation == sh.generation && !Spawner(e.pc)
  {
  }

  lemma WedgedStep(s: State, a: Action)
    requires SpawnInv(s.sh, s.threads) && Enabled(s, a) && Wedged(s)
    ensures Wedged(Apply(s, a)) && Apply(s, a).sh.cmd == s.sh.cmd && Apply(s, a).sh.generation == s.sh.generation
  {
    match a
    case Do(t, h) => WedgedAct(s.sh, t, s.threads[t], h);
    case _ =>
  }

  /** In every continuation the dead child stays the current one, alive, and is never replaced. */
  lemma {:induction false} WedgedForever(run: seq<State>, i: nat, j: nat)
    requires IsRun(run) && i <= j < |run| && Wedged(run[i])
    ensures Wedged(run[j]) && run[j].sh.cmd == run[i].sh.cmd && run[j].sh.generation == run[i].sh.generation
  {
    if i < j {
      WedgedForever(run, i, j - 1);
      InvAlways(run, j - 1);
      assert StepAt(run, j);
      var a :| Enabled(run[j - 1], a) && run[j] == Apply(run[j - 1], a);
      WedgedStep(run[j - 1], a);
    }
  }

  /**
   * The two ways in: `ensure` publishes a child whose watcher and reader are both done; or the reader of such a
   * published child, its watcher being done, meets the end of the output.
   */
  predicate Wedges(s: State, a: Action) {
    && s.sh.cmd.Some? && s.sh.cmd.value !in s.waiters && s.sh.cmd.value in s.readers
    && match a
       case Do(t, Exit) =>
         t in s.threads && s.threads[t].pc.Ending? && s.threads[t].pc.spawned && s.readers[s.sh.cmd.value].Ended?
       case Read(c, ReadEnds) => s.sh.cmd == Some(c) && s.sh.alive && s.readers[c].Reading?
       case _ => false
  }

  lemma WedgingAct(sh: Shared, t: Tid, th: Thread, h: Act)
    requires CanAct(sh, th.pc, h)
    ensures var e := ActEffect(sh, t, th, h);
      e.sh.cmd == sh.cmd && (e.sh.alive <==> sh.alive || (h.Exit? && th.pc.spawned))
  {
  }

  lemma WedgingRead(sh: Shared, c: Child, r: Reader, ra: ReaderAct)
    requires CanRead(sh, r, ra)
    ensures var (sh', r') := ReadEffect(sh, c, r, ra);
      && sh'.cmd == sh.cmd && (sh'.alive <==> sh.alive && !(ra.FailRead? && sh.cmd == Some(c)))
      && (r'.Ended? <==> ra.ReadEnds? || ra.FailRead?)
  {
  }

  /** Exactly which step wedges the bridge. */
  lemma WedgedExactlyBy(s: State, a: Action)
    requires Enabled(s, a) && !Wedged(s)
    ensures Wedged(Apply(s, a)) <==> Wedges(s, a)
  {
    match a
    case Do(t, h) => WedgingAct(s.sh, t, s.threads[t], h);
    case Read(c, ra) => WedgingRead(s.sh, c, s.readers[c], ra);
    case _ =>
  }

  /** It happens: the first child exits, and its output ends, before `ensure` publishes it. */
  lemma WedgedReachable() returns (s: State)
    ensures Reachable(s) && Wedged(s)
  {
    ReachableInit();
    var s1 := Comes(INIT, 0, "7");
    var s2 := Starts(s1, 0, ServeBoot, 1);
    var s3 := Reads(s2, 1, ReadEnds);
    var s4 := Step(s3, WaitReturns(1));
    s := Publishes(s4, 0, ServeBoot);
  }

  // ---------- Answers from dead children ----------

  /**
   * The reader of a child that is no longer the current one, and has exited, holds a line for a handler whose
   * request was written to the current child.
   */
  predicate StaleAnswer(s: State, c: Child, t: Tid, k: nat) {
    && c in s.readers && s.readers[c].Holding? && c !in s.waiters && s.sh.cmd.Some? && s.sh.cmd != Some(c)
    && t in s.threads && s.threads[t].pc.Awaiting? && s.threads[t].pc.ch == s.readers[c].ch
    && k < |s.log| && s.log[k] == RequestWritten(t, s.sh.cmd.value, s.sh.generation)
  }

  /** The reader of any child takes the line's entry, current or not: there is only the id to go by. */
  lemma AnyReaderClaims(s: State, c: Child, key: string, body: string)
    requires Enabled(s, Read(c, ReadLine(key, body)))
    ensures var s' := Apply(s, Read(c, ReadLine(key, body)));
      if key in s.sh.pending then s'.readers[c] == Holding(s.sh.pending[key], Line(key, body)) && key !in s'.sh.pending
      else s'.readers[c] == Reading && s'.sh == s.sh
  {
  }

  /** A child not current can still take somebody's answer exactly if its reader reads on and somebody waits. */
  lemma StaleClaimIff(s: State, c: Child)
    requires s.sh.cmd != Some(c) && !(c in s.readers && Claimed(s.readers[c]))
    ensures (exists key, body :: Takes(s, c, key, body)) <==>
              c in s.readers && s.readers[c].Reading? && s.sh.pending != map[]
  {
    if c in s.readers && s.readers[c].Reading? && s.sh.pending != map[] {
      var key :| key in s.sh.pending;
      AnyReaderClaims(s, c, key, "");
      assert Takes(s, c, key, "");
    }
  }

  predicate Takes(s: State, c: Child, key: string, body: string) {
    var a := Read(c, ReadLine(key, body)); Enabled(s, a) && Claimed(Apply(s, a).readers[c])
  }

  /** It happens, right after a restart. */
  lemma StaleAnswerReachable() returns (s: State)
    ensures Reachable(s) && s.log != [] && StaleAnswer(s, 1, 0, |s.log| - 1)
  {
    var s0 := FirstRest();
    var s1 := NextReady(s0, 1, 2);
    SevenIsPlain();
    var s2 := Prepares(s1, 0);
    var ch := Unused(s2.sh.chans.Keys);
    var s3 := Asks(s2, 0, Forward, IdKey("7"), ch);
    s := Reads(s3, 1, ReadLine(IdKey("7"), ""));
  }

  // ---------- Requests nobody answers ----------

  /** A request without an id is written to the child, and its handler ends without an answer. */
  lemma ForwardedReachable() returns (s: State)
    ensures Reachable(s) && s.log != [] && s.log[|s.log| - 1] == NotificationForwarded(0, 1, "") && At(s, 0, Finished)
  {
    ReachableInit();
    var s1 := Comes(INIT, 0, "");
    var s2 := Starts(s1, 0, ServeBoot, 1);
    var s3 := Publishes(s2, 0, ServeBoot);
    var s4 := Acts(s3, 0, Check);
    var s5 := Handshakes(s4, 0, 0);
    var s6 := Proceeds(s5, 0);
    var s7 := Acts(s6, 0, Prepare);
    var s8 := Acts(s7, 0, ReadStdin);
    s := Acts(s8, 0, WriteNote(true));
  }
}
