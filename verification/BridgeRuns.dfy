/** Building runs: states that some run reaches, and the stretches of a handler's way that recur. */
module BridgeRuns {
  import opened Wrappers
  import opened Channels
  import opened Bridge

  ghost predicate Reachable(s: State) {
    exists run: seq<State> :: IsRun(run) && run[|run| - 1] == s
  }

  lemma ReachableInit()
    ensures Reachable(INIT)
  {
    assert IsRun([INIT]) && [INIT][0] == INIT;
  }

  lemma Step(s: State, a: Action) returns (s': State)
    requires Reachable(s) && Enabled(s, a)
    ensures s' == Apply(s, a) && Reachable(s')
  {
    s' := Apply(s, a);
    var run: seq<State> :| IsRun(run) && run[|run| - 1] == s;
    var run' := run + [s'];
    forall i | 0 < i < |run'| ensures StepAt(run', i) {
      if i < |run| { assert StepAt(run, i) && run'[i - 1] == run[i - 1] && run'[i] == run[i]; }
    }
    assert IsRun(run') && run'[|run'| - 1] == s';
  }

  /** Only thread `t`, the shared fields, the readers, the watchers and the log may differ. */
  predicate OthersStay(s: State, s': State, t: Tid) {
    t in s'.threads && s'.queue == s.queue && s'.threads == s.threads[t := s'.threads[t]]
  }

  /** Thread `t` is at `pc`. */
  predicate At(s: State, t: Tid, pc: PC) {
    t in s.threads && s.threads[t].pc == pc
  }

  lemma Acts(s: State, t: Tid, h: Act) returns (s': State)
    requires Reachable(s) && t in s.threads && CanAct(s.sh, s.threads[t].pc, h)
    ensures Reachable(s') && OthersStay(s, s', t) && s'.readers == s.readers && s'.waiters == s.waiters
    ensures var e := ActEffect(s.sh, t, s.threads[t], h);
      s'.sh == e.sh && s'.threads[t] == s.threads[t].(pc := e.pc) && s'.log == s.log + e.events
  {
    s' := Step(s, Do(t, h));
  }

  // ---------- A handler's way ----------

  /** A new handler, up to its first `ensure`. */
  lemma Comes(s: State, t: Tid, id: string) returns (s': State)
    requires Reachable(s) && t !in s.threads && s.queue < CAPACITY
    ensures Reachable(s') && s' == s.(queue := s.queue + 1, threads := s.threads[t := Thread(id, Ensuring(ServeBoot))])
  {
    s' := Step(s, Arrive(t, id));
    s' := Acts(s', t, Dispatch);
    assert s'.threads == s.threads[t := Thread(id, Ensuring(ServeBoot))] && s'.log == s.log;
  }

  /** The `ensure` that starts a child, up to the point where it would be published. */
  lemma Starts(s: State, t: Tid, stage: Stage, c: Child) returns (s': State)
    requires Reachable(s) && At(s, t, Ensuring(stage)) && !s.sh.alive && !s.sh.starting && c !in s.readers
    ensures Reachable(s') && OthersStay(s, s', t) && s'.threads[t] == s.threads[t].(pc := Ending(stage, true))
    ensures s'.sh == s.sh.(starting := true, cmd := Some(c), stdin := Some(c)) && s'.log == s.log
    ensures s'.readers == s.readers[c := Reading] && s'.waiters == s.waiters + {c}
  {
    var s1 := Acts(s, t, Enter);
    var s2 := Step(s1, Launch(t, c));
    s' := Acts(s2, t, SpawnReturns(false, false));
    assert s'.threads == s.threads[t := s'.threads[t]] && s'.log == s.log;
  }

  lemma Publishes(s: State, t: Tid, stage: Stage) returns (s': State)
    requires Reachable(s) && At(s, t, Ending(stage, true))
    ensures Reachable(s') && OthersStay(s, s', t) && s'.threads[t] == s.threads[t].(pc := AfterEnsure(stage))
    ensures s'.sh == s.sh.(starting := false, alive := true, generation := s.sh.generation + 1)
    ensures s'.log == s.log + [Spawned(s.sh.generation + 1)] && s'.readers == s.readers && s'.waiters == s.waiters
  {
    s' := Acts(s, t, Exit);
  }

  /** A channel number not used so far. */
  lemma {:induction false} Unused(chans: set<nat>) returns (ch: nat)
    ensures ch !in chans && forall x :: x in chans ==> x < ch
  {
    if chans == {} {
      ch := 0;
    } else {
      var x :| x in chans;
      var y := Unused(chans - {x});
      ch := if x < y then y else x + 1;
      forall z | z in chans ensures z < ch { assert z == x || z in chans - {x}; }
    }
  }

  /** The handler registers its request and writes it to the current child. */
  lemma Asks(s: State, t: Tid, p: Purpose, key: string, ch: ChanId) returns (s': State)
    requires Reachable(s) && At(s, t, Registering(p, key)) && s.sh.alive && s.sh.stdin.Some? && ch !in s.sh.chans
    ensures Reachable(s') && OthersStay(s, s', t) && s'.threads[t] == s.threads[t].(pc := Awaiting(p, key, ch))
    ensures s'.sh == Register(s.sh, key, ch, t) && s'.readers == s.readers && s'.waiters == s.waiters
    ensures var c, g := s.sh.stdin.value, s.sh.generation;
      s'.log == s.log + [if p.Forward? then RequestWritten(t, c, g) else InitWritten(t, c, g)]
  {
    var s1 := Acts(s, t, RegisterCall(ch));
    s' := Acts(s1, t, WriteRequest(true));
    assert s1.log == s.log;
    assert s'.threads == s.threads[t := s'.threads[t]];
  }

  lemma Reads(s: State, c: Child, ra: ReaderAct) returns (s': State)
    requires Reachable(s) && c in s.readers && CanRead(s.sh, s.readers[c], ra)
    ensures Reachable(s')
    ensures var (sh', r') := ReadEffect(s.sh, c, s.readers[c], ra); s' == s.(sh := sh', readers := s.readers[c := r'])
  {
    s' := Step(s, Read(c, ra));
  }

  function Answer(key: string, t: Tid): Chan {
    Make(key, t).(slot := Some(Line(key, "")), sends := 1, closed := true)
  }

  /** The reader of any child takes the line's entry and hands the line over. */
  lemma Delivers(s: State, t: Tid, key: string, ch: ChanId, c: Child) returns (s': State)
    requires Reachable(s) && c in s.readers && s.readers[c].Reading?
    requires key in s.sh.pending && s.sh.pending[key] == ch && ch in s.sh.chans && s.sh.chans[ch] == Make(key, t)
    ensures Reachable(s') && s' == s.(sh := Unregister(s.sh, key).(chans := s.sh.chans[ch := Answer(key, t)]))
  {
    var s1 := Reads(s, c, ReadLine(key, ""));
    var s2 := Reads(s1, c, SendReply);
    s' := Reads(s2, c, CloseReply);
    assert s'.readers == s.readers;
    assert s'.sh.chans == s.sh.chans[ch := Answer(key, t)];
  }

  /** The child answers and the handler takes the answer. */
  lemma Replies(s: State, t: Tid, p: Purpose, key: string, ch: ChanId, c: Child) returns (s': State)
    requires Reachable(s) && At(s, t, Awaiting(p, key, ch)) && c in s.readers && s.readers[c].Reading?
    requires key in s.sh.pending && s.sh.pending[key] == ch && ch in s.sh.chans && s.sh.chans[ch] == Make(key, t)
    ensures Reachable(s') && OthersStay(s, s', t) && s'.readers == s.readers && s'.waiters == s.waiters
    ensures s'.sh == Unregister(s.sh, key).(chans := s.sh.chans[ch := Taken(Answer(key, t))])
    ensures s'.threads[t] == s.threads[t].(pc := if p.Forward? then Finished else Noting(p))
    ensures s'.log == s.log +
               [if p.Forward? then Answered(t, s.threads[t].id, SeenId(s.threads[t].id, key)) else InitReplied(t)]
  {
    var s1 := Delivers(s, t, key, ch, c);
    s' := Acts(s1, t, Receive);
    assert s'.sh.chans == s.sh.chans[ch := Taken(Answer(key, t))];
  }

  /** The notification is written and the flag set. */
  lemma Notes(s: State, t: Tid) returns (s': State)
    requires Reachable(s) && At(s, t, Noting(Initialize(ServeBoot))) && s.sh.stdin.Some?
    ensures Reachable(s') && OthersStay(s, s', t) && s'.readers == s.readers && s'.waiters == s.waiters
    ensures s'.threads[t] == s.threads[t].(pc := Ensuring(SendEnsure)) && s'.sh == s.sh.(bootstrapped := true)
    ensures s'.log == s.log + [NoteWritten(t, s.sh.stdin.value, s.sh.generation)]
  {
    var s1 := Acts(s, t, ReadStdin);
    assert s1.log == s.log;
    var s2 := Acts(s1, t, WriteNote(true));
    s' := Acts(s2, t, Mark);
    assert s'.log == s2.log;
  }

  /** What a handshake logs. */
  function Handshake(t: Tid, c: Child, g: nat): seq<Event> {
    [InitWritten(t, c, g), InitReplied(t), NoteWritten(t, c, g)]
  }

  /** The whole handshake of `Bootstrap` on a child that is up. */
  lemma Handshakes(s: State, t: Tid, ch: ChanId) returns (s': State)
    requires Reachable(s) && At(s, t, Registering(Initialize(ServeBoot), "1")) && s.sh.alive && s.sh.stdin.Some?
    requires s.sh.stdin.value in s.readers && s.readers[s.sh.stdin.value].Reading?
    requires "1" !in s.sh.pending && ch !in s.sh.chans
    ensures Reachable(s') && OthersStay(s, s', t) && s'.readers == s.readers && s'.waiters == s.waiters
    ensures s'.threads[t] == s.threads[t].(pc := Ensuring(SendEnsure))
    ensures s'.sh == s.sh.(bootstrapped := true, chans := s.sh.chans[ch := Taken(Answer("1", t))])
    ensures s'.log == s.log + Handshake(t, s.sh.stdin.value, s.sh.generation)
  {
    var s1 := Asks(s, t, Initialize(ServeBoot), "1", ch);
    var s2 := Replies(s1, t, Initialize(ServeBoot), "1", ch, s.sh.stdin.value);
    Withdrawn(s.sh.pending, "1", ch);
    assert s2.sh.chans == s.sh.chans[ch := Taken(Answer("1", t))];
    s' := Notes(s2, t);
  }

  lemma Withdrawn(pending: map<string, ChanId>, key: string, ch: ChanId)
    requires key !in pending
    ensures pending[key := ch] - {key} == pending
  {
  }

  /** After the handshake a handler passes the remaining checks up to its own request. */
  lemma Proceeds(s: State, t: Tid) returns (s': State)
    requires Reachable(s) && At(s, t, Ensuring(SendEnsure)) && s.sh.alive && s.sh.bootstrapped
    ensures Reachable(s') && OthersStay(s, s', t) && s'.threads[t] == s.threads[t].(pc := Preparing)
    ensures s'.sh == s.sh && s'.log == s.log && s'.readers == s.readers && s'.waiters == s.waiters
  {
    var s1 := Acts(s, t, Enter);
    var s2 := Acts(s1, t, Enter);
    s' := Acts(s2, t, Check);
    assert s'.log == s.log;
  }

  /** A handler that finds the child up and the handshake done goes straight to its request. */
  lemma Skips(s: State, t: Tid) returns (s': State)
    requires Reachable(s) && At(s, t, Checking(ServeBoot)) && s.sh.alive && s.sh.bootstrapped
    ensures Reachable(s') && OthersStay(s, s', t) && s'.threads[t] == s.threads[t].(pc := Preparing)
    ensures s'.sh == s.sh && s'.log == s.log && s'.readers == s.readers && s'.waiters == s.waiters
  {
    var s1 := Acts(s, t, Check);
    assert s1.log == s.log;
    s' := Proceeds(s1, t);
  }

  /** With a plain id the request goes out under that id. */
  lemma Prepares(s: State, t: Tid) returns (s': State)
    requires Reachable(s) && At(s, t, Preparing) && |s.threads[t].id| > 0 && !IsNullId(s.threads[t].id)
    ensures Reachable(s') && OthersStay(s, s', t)
    ensures s'.threads[t] == s.threads[t].(pc := Registering(Forward, IdKey(s.threads[t].id)))
    ensures s'.sh == s.sh && s'.log == s.log && s'.readers == s.readers && s'.waiters == s.waiters
  {
    s' := Acts(s, t, Prepare);
    assert s'.log == s.log;
  }

  /** The deadline passes; the handler withdraws, returns and gives its token back. */
  lemma GivesUp(s: State, t: Tid, p: Purpose, key: string, ch: ChanId) returns (s': State)
    requires Reachable(s) && At(s, t, Awaiting(p, key, ch)) && s.queue > 0
    ensures Reachable(s')
    ensures s' == s.(queue := s.queue - 1, threads := s.threads - {t}, sh := Unregister(s.sh, key))
  {
    var s1 := Acts(s, t, Expire);
    var s2 := Acts(s1, t, UnregisterCall);
    s' := Step(s2, Bridge.Release(t));
    assert s2.log == s.log && s2.threads - {t} == s.threads - {t};
  }
}
