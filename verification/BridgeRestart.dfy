/** What a restart does not do: the bootstrapped flag survives it, so no later child is greeted. */
module BridgeRestart {
  import opened Wrappers
  import opened Text
  import opened Bridge
  import opened BridgeHandshake
  import opened BridgeTheorems
  import opened BridgeRuns

  // ---------- Every later generation goes without ----------

  predicate Greeting(e: Event) {
    e.InitWritten? || e.NoteWritten?
  }

  /** Every child written to has a reader. */
  predicate ChildrenKnown(s: State) {
    forall k :: 0 <= k < |s.log| && Captured(s.log[k]) ==> s.log[k].child in s.readers
  }

  /** No handler is about; the child of generation `g` is up, watched, and taken for greeted. */
  predicate Resting(s: State, g: nat) {
    && s.threads == map[] && s.queue == 0 && s.sh.pending == map[]
    && s.sh.alive && !s.sh.starting && s.sh.bootstrapped && s.sh.generation == g
    && s.sh.cmd.Some? && s.sh.cmd.value in s.waiters && ChildrenKnown(s)
  }

  lemma SevenIsPlain()
    ensures |"7"| > 0 && !IsNullId("7")
  {
    assert Trimmed("7");
    TrimmedFixed("7");
  }

  /** A handler at its request writes it to the child that is up, and gives up waiting. */
  lemma AsksAndLeaves(s: State) returns (s': State)
    requires Reachable(s) && At(s, 0, Preparing) && s.threads[0].id == "7" && s.threads.Keys == {0} && s.queue == 1
    requires s.sh.alive && s.sh.stdin.Some? && s.sh.pending == map[]
    ensures Reachable(s') && s'.threads == map[] && s'.queue == 0 && s'.readers == s.readers && s'.waiters == s.waiters
    ensures s'.sh == s.sh.(chans := s'.sh.chans)
    ensures s'.log == s.log + [RequestWritten(0, s.sh.stdin.value, s.sh.generation)]
  {
    SevenIsPlain();
    var s1 := Prepares(s, 0);
    var ch := Unused(s1.sh.chans.Keys);
    var s2 := Asks(s1, 0, Forward, IdKey("7"), ch);
    s' := GivesUp(s2, 0, Forward, IdKey("7"), ch);
    Withdrawn(s.sh.pending, IdKey("7"), ch);
    assert s'.threads.Keys == {};
  }

  lemma FirstChildUp() returns (s: State)
    ensures Reachable(s) && s == State(FRESH.(alive := true, generation := 1, cmd := Some(1), stdin := Some(1)), 1,
                                       map[0 := Thread("7", Checking(ServeBoot))], map[1 := Reading], {1}, [Spawned(1)])
  {
    ReachableInit();
    var s1 := Comes(INIT, 0, "7");
    var s2 := Starts(s1, 0, ServeBoot, 1);
    s := Publishes(s2, 0, ServeBoot);
    assert s.readers == map[1 := Reading] && s.waiters == {1} && s.log == [Spawned(1)];
    assert s.threads == map[0 := Thread("7", Checking(ServeBoot))];
  }

  lemma FirstRest() returns (s: State)
    ensures Reachable(s) && Resting(s, 1) && s.sh.cmd == Some(1) && s.readers == map[1 := Reading] && s.waiters == {1}
  {
    var s1 := FirstChildUp();
    var s2 := Acts(s1, 0, Check);
    assert s2.log == s1.log;
    var s3 := Handshakes(s2, 0, 0);
    var s4 := Proceeds(s3, 0);
    assert s4.threads.Keys == {0};
    s := AsksAndLeaves(s4);
  }

  /** In the log a request of generation `g` goes to a child, and no greeting ever does. */
  predicate NeverGreeted(log: seq<Event>, k: nat, g: nat) {
    && k < |log| && log[k].RequestWritten? && log[k].gen == g
    && forall j :: 0 <= j < |log| && Greeting(log[j]) ==> log[j].child != log[k].child
  }

  /** The child dies; the next handler starts another one and finds the handshake done. */
  lemma NextReady(s: State, g: nat, c: Child) returns (s': State)
    requires Reachable(s) && Resting(s, g) && c !in s.readers
    ensures Reachable(s') && At(s', 0, Preparing) && s'.threads[0].id == "7" && s'.threads.Keys == {0} && s'.queue == 1
    ensures s'.sh.alive && !s'.sh.starting && s'.sh.bootstrapped && s'.sh.generation == g + 1 && s'.sh.pending == map[]
    ensures s'.sh.cmd == Some(c) && s'.sh.stdin == Some(c) && s'.waiters == s.waiters - {s.sh.cmd.value} + {c}
    ensures s'.readers == s.readers[c := Reading] && s'.log == s.log + [Spawned(g + 1)]
  {
    var s1 := Step(s, WaitReturns(s.sh.cmd.value));
    var s2 := Comes(s1, 0, "7");
    var s3 := Starts(s2, 0, ServeBoot, c);
    var s4 := Publishes(s3, 0, ServeBoot);
    s' := Skips(s4, 0);
    assert s'.threads.Keys == {0};
  }

  lemma NextRest(s: State, g: nat) returns (s': State)
    requires Reachable(s) && Resting(s, g)
    ensures Reachable(s') && Resting(s', g + 1) && NeverGreeted(s'.log, |s.log| + 1, g + 1)
  {
    var c := Unused(s.readers.Keys);
    var s1 := NextReady(s, g, c);
    s' := AsksAndLeaves(s1);
    assert s'.log == s.log + [Spawned(g + 1), RequestWritten(0, c, g + 1)];
  }

  lemma {:induction false} RestAt(g: nat) returns (s: State)
    requires g >= 1
    ensures Reachable(s) && Resting(s, g)
  {
    if g == 1 {
      s := FirstRest();
    } else {
      var s0 := RestAt(g - 1);
      s := NextRest(s0, g - 1);
    }
  }

  /**
   * The handshake is not repeated after a restart: for every later generation some run writes a client request
   * to a child of that generation which was sent neither initialize nor the initialized notification.
   */
  lemma RestartSkipsHandshake(g: nat)
    requires g >= 2
    ensures exists s: State, k: nat :: Reachable(s) && NeverGreeted(s.log, k, g)
  {
    var s0 := RestAt(g - 1);
    var s := NextRest(s0, g - 1);
    assert NeverGreeted(s.log, |s0.log| + 1, g);
  }

  predicate RequestOf(log: seq<Event>, k: nat, g: nat) {
    k < |log| && log[k].RequestWritten? && log[k].gen == g
  }

  /** In every run each request of the generation is written to a child that has been greeted. */
  ghost predicate AlwaysGreeted(g: nat) {
    forall s: State, k: nat :: Reachable(s) && RequestOf(s.log, k, g) ==> GreetedOn(s.log, k, s.log[k].child)
  }

  /** The promise is kept in the first generation and in no other. */
  lemma GreetedExactlyFirst(g: nat)
    ensures AlwaysGreeted(g) <==> g <= 1
  {
    if g <= 1 {
      forall s: State, k: nat | Reachable(s) && RequestOf(s.log, k, g) ensures GreetedOn(s.log, k, s.log[k].child) {
        var run: seq<State> :| IsRun(run) && run[|run| - 1] == s;
        InvAlways(run, |run| - 1);
        assert EventOk(s.sh, s.log[k]);
        RequestsFollowHandshake(run, |run| - 1, k);
      }
    } else {
      RestartSkipsHandshake(g);
      var s: State, k: nat :| Reachable(s) && NeverGreeted(s.log, k, g);
      assert RequestOf(s.log, k, g) && !GreetedOn(s.log, k, s.log[k].child);
    }
  }

  // ---------- Once set, the flag ends all greeting ----------

  /** The handler is inside the handshake of `Bootstrap`. */
  predicate InHandshake(pc: PC) {
    match pc
    case Registering(p, _) => p.Initialize?
    case Writing(p, _, _, _, _) => p.Initialize?
    case Awaiting(p, _, _) => p.Initialize?
    case Noting(p) => p.Initialize?
    case NoteWriting(p, _, _) => p.Initialize?
    case Marking(_) => true
    case _ => false
  }

  ghost predicate GreetingOver(s: State) {
    s.sh.bootstrapped && forall t :: t in s.threads ==> !InHandshake(s.threads[t].pc)
  }

  lemma OverAct(sh: Shared, t: Tid, th: Thread, h: Act)
    requires sh.bootstrapped && CanAct(sh, th.pc, h) && !InHandshake(th.pc)
    ensures var e := ActEffect(sh, t, th, h);
      && e.sh.bootstrapped && !InHandshake(e.pc) && |e.events| <= 1 && forall x :: x in e.events ==> !Greeting(x)
  {
  }

  lemma OverStep(s: State, a: Action)
    requires Enabled(s, a) && GreetingOver(s)
    ensures GreetingOver(Apply(s, a)) && s.log <= Apply(s, a).log
    ensures forall k :: |s.log| <= k < |Apply(s, a).log| ==> !Greeting(Apply(s, a).log[k])
  {
    if a.Do? { OverAct(s.sh, a.t, s.threads[a.t], a.h); }
  }

  /** Once the flag is set and no handler is inside the handshake, no greeting is written in any continuation. */
  lemma {:induction false} NoMoreGreetings(run: seq<State>, i: nat, j: nat)
    requires IsRun(run) && i <= j < |run| && GreetingOver(run[i])
    ensures GreetingOver(run[j]) && run[i].log <= run[j].log
    ensures forall k :: |run[i].log| <= k < |run[j].log| ==> !Greeting(run[j].log[k])
  {
    if i < j {
      NoMoreGreetings(run, i, j - 1);
      assert StepAt(run, j);
      var a :| Enabled(run[j - 1], a) && run[j] == Apply(run[j - 1], a);
      OverStep(run[j - 1], a);
    }
  }
}
