/** The order of a run's writes: no request goes out before a handshake, and ids stay apart. */
module BridgeHandshake {
  import opened Wrappers
  import opened Bridge
  import opened BridgeInvariants

  // ---------- Handshakes in the log ----------

  predicate InitAt(log: seq<Event>, h: int, t: Tid) {
    0 <= h < |log| && log[h].InitWritten? && log[h].t == t
  }

  predicate ReplyAt(log: seq<Event>, h: int, i: int, t: Tid) {
    InitAt(log, h, t) && h < i < |log| && log[i] == InitReplied(t)
  }

  /** Thread `t` wrote initialize at `h`, got its reply at `i` and wrote the notification at `j`. */
  predicate HandshakeAt(log: seq<Event>, t: Tid, h: int, i: int, j: int) {
    ReplyAt(log, h, i, t) && i < j < |log| && log[j].NoteWritten? && log[j].t == t
  }

  ghost predicate InitSent(log: seq<Event>, t: Tid) {
    exists h :: InitAt(log, h, t)
  }

  ghost predicate InitAnswered(log: seq<Event>, t: Tid) {
    exists h, i :: ReplyAt(log, h, i, t)
  }

  /** Some handshake was complete before position `n`. */
  ghost predicate Greeted(log: seq<Event>, n: nat) {
    exists t, h, i, j :: HandshakeAt(log, t, h, i, j) && j < n
  }

  /** The same, with both writes on the pipe of `child`. */
  ghost predicate GreetedOn(log: seq<Event>, n: nat, child: Child) {
    exists t, h, i, j :: HandshakeAt(log, t, h, i, j) && j < n && log[h].child == child && log[j].child == child
  }

  lemma Grows(log: seq<Event>, more: seq<Event>, t: Tid)
    ensures InitSent(log, t) ==> InitSent(log + more, t)
    ensures InitAnswered(log, t) ==> InitAnswered(log + more, t)
  {
    if InitSent(log, t) {
      var h :| InitAt(log, h, t);
      assert InitAt(log + more, h, t);
    }
    if InitAnswered(log, t) {
      var h, i :| ReplyAt(log, h, i, t);
      assert ReplyAt(log + more, h, i, t);
    }
  }

  lemma GreetedGrows(log: seq<Event>, more: seq<Event>, n: nat, m: nat)
    requires Greeted(log, n) && n <= m
    ensures Greeted(log + more, m)
  {
    var t, h, i, j :| HandshakeAt(log, t, h, i, j) && j < n;
    assert HandshakeAt(log + more, t, h, i, j);
  }

  lemma GreetedOnGrows(log: seq<Event>, more: seq<Event>, n: nat, m: nat, child: Child)
    requires GreetedOn(log, n, child) && n <= m
    ensures GreetedOn(log + more, m, child)
  {
    var t, h, i, j :| HandshakeAt(log, t, h, i, j) && j < n && log[h].child == child && log[j].child == child;
    assert HandshakeAt(log + more, t, h, i, j);
  }

  // ---------- The invariant ----------

  predicate Captured(e: Event) {
    e.InitWritten? || e.NoteWritten? || e.RequestWritten?
  }

  /** Pipes were read in a generation that has begun; while the first one is up they are its pipe. */
  predicate EventOk(sh: Shared, e: Event) {
    Captured(e) ==>
      && 1 <= e.gen <= sh.generation
      && (e.gen == 1 && sh.generation == 1 && sh.alive ==> sh.stdin == Some(e.child))
  }

  predicate CaptureOk(sh: Shared, stdin: Option<Child>, gen: nat) {
    && 1 <= gen <= sh.generation
    && (gen == 1 && sh.generation == 1 && sh.alive ==> stdin == sh.stdin)
  }

  ghost predicate PcOk(sh: Shared, log: seq<Event>, t: Tid, pc: PC) {
    match pc
    case Writing(Initialize(_), _, _, stdin, gen) => CaptureOk(sh, stdin, gen)
    case Writing(Forward, _, _, stdin, gen) =>
      && CaptureOk(sh, stdin, gen) && Greeted(log, |log|)
      && (gen == 1 && stdin.Some? ==> GreetedOn(log, |log|, stdin.value))
    case Awaiting(p, _, _) => if p.Forward? then Greeted(log, |log|) else InitSent(log, t) && sh.generation >= 1
    case Leaving(p, _, _) => true
    case Noting(p) => if p.Forward? then Greeted(log, |log|) else InitAnswered(log, t) && sh.generation >= 1
    case NoteWriting(p, stdin, gen) =>
      if p.Forward? then Greeted(log, |log|) else InitAnswered(log, t) && CaptureOk(sh, stdin, gen)
    case Marking(_) => Greeted(log, |log|)
    case Preparing => Greeted(log, |log|)
    case Registering(Forward, _) => Greeted(log, |log|)
    case _ => true
  }

  /** A request in the log came after a handshake; in the first generation, one on the same pipe. */
  ghost predicate RequestOk(log: seq<Event>, k: nat)
    requires k < |log|
  {
    && (log[k].RequestWritten? ==> Greeted(log, k) && (log[k].gen == 1 ==> GreetedOn(log, k, log[k].child)))
    && (log[k].NotificationForwarded? ==> Greeted(log, k))
  }

  ghost predicate BootInv(s: State) {
    && (s.sh.alive ==> s.sh.generation >= 1)
    && (s.sh.bootstrapped ==> Greeted(s.log, |s.log|))
    && (forall k :: 0 <= k < |s.log| ==> EventOk(s.sh, s.log[k]))
    && (forall k :: 0 <= k < |s.log| ==> RequestOk(s.log, k))
    && (forall t :: t in s.threads ==> PcOk(s.sh, s.log, t, s.threads[t].pc))
  }

  /** How one step may change what the facts about captured pipes depend on. */
  predicate PipesKept(sh: Shared, sh': Shared) {
    && sh.generation <= sh'.generation
    && (sh'.alive && sh'.generation == 1 && sh.generation == 1 ==> sh.alive && sh'.stdin == sh.stdin)
  }

  lemma PcStays(sh: Shared, sh': Shared, log: seq<Event>, more: seq<Event>, t: Tid, pc: PC)
    requires PcOk(sh, log, t, pc) && PipesKept(sh, sh')
    ensures PcOk(sh', log + more, t, pc)
  {
    Grows(log, more, t);
    if Greeted(log, |log|) { GreetedGrows(log, more, |log|, |log + more|); }
    if pc.Writing? && pc.stdin.Some? && GreetedOn(log, |log|, pc.stdin.value) {
      GreetedOnGrows(log, more, |log|, |log + more|, pc.stdin.value);
    }
  }

  lemma EventStays(sh: Shared, sh': Shared, log: seq<Event>, more: seq<Event>, k: nat)
    requires PipesKept(sh, sh') && k < |log| && EventOk(sh, log[k]) && RequestOk(log, k)
    ensures EventOk(sh', (log + more)[k]) && RequestOk(log + more, k)
  {
    assert (log + more)[k] == log[k];
    if Greeted(log, k) { GreetedGrows(log, more, k, k); }
    if log[k].RequestWritten? && GreetedOn(log, k, log[k].child) { GreetedOnGrows(log, more, k, k, log[k].child); }
  }

  /** A handshake whose pipes were all read while the first child was up is a handshake on its pipe. */
  lemma FirstPipe(sh: Shared, log: seq<Event>)
    requires sh.alive && sh.generation == 1 && sh.stdin.Some? && Greeted(log, |log|)
    requires forall k :: 0 <= k < |log| ==> EventOk(sh, log[k])
    ensures GreetedOn(log, |log|, sh.stdin.value)
  {
    var t, h, i, j :| HandshakeAt(log, t, h, i, j) && j < |log|;
    assert EventOk(sh, log[h]) && EventOk(sh, log[j]);
  }

  lemma ActKeepsPipes(sh: Shared, t: Tid, th: Thread, h: Act)
    requires CanAct(sh, th.pc, h)
    ensures PipesKept(sh, ActEffect(sh, t, th, h).sh)
  {
  }

  /** What the acting handler itself establishes. */
  ghost predicate ActorOk(s: State, e: Effect, t: Tid) {
    && PcOk(e.sh, s.log + e.events, t, e.pc)
    && (e.sh.bootstrapped ==> Greeted(s.log + e.events, |s.log + e.events|))
    && |e.events| <= 1
    && (|e.events| == 1 ==> EventOk(e.sh, e.events[0]) && RequestOk(s.log + e.events, |s.log|))
    && (e.sh.alive ==> e.sh.generation >= 1)
  }

  /** Acts that log nothing a handshake is made of. */
  lemma QuietActor(s: State, t: Tid, h: Act)
    requires BootInv(s) && t in s.threads && CanAct(s.sh, s.threads[t].pc, h)
    requires !h.WriteRequest? && !h.Receive? && !h.WriteNote? && !h.RegisterCall?
    ensures ActorOk(s, ActEffect(s.sh, t, s.threads[t], h), t)
  {
    var e := ActEffect(s.sh, t, s.threads[t], h);
    assert PcOk(s.sh, s.log, t, s.threads[t].pc);
    Grows(s.log, e.events, t);
    if Greeted(s.log, |s.log|) { GreetedGrows(s.log, e.events, |s.log|, |s.log + e.events|); }
  }

  lemma RegisteringActor(s: State, t: Tid, ch: ChanId)
    requires BootInv(s) && t in s.threads && CanAct(s.sh, s.threads[t].pc, RegisterCall(ch))
    requires s.sh.alive ==> s.sh.stdin.Some?
    ensures ActorOk(s, ActEffect(s.sh, t, s.threads[t], RegisterCall(ch)), t)
  {
    assert PcOk(s.sh, s.log, t, s.threads[t].pc);
    assert s.log + [] == s.log;
    if s.sh.alive && s.sh.generation == 1 && s.threads[t].pc.p.Forward? { FirstPipe(s.sh, s.log); }
  }

  lemma WritingActor(s: State, t: Tid, ok: bool)
    requires BootInv(s) && t in s.threads && CanAct(s.sh, s.threads[t].pc, WriteRequest(ok))
    ensures ActorOk(s, ActEffect(s.sh, t, s.threads[t], WriteRequest(ok)), t)
  {
    var pc, log := s.threads[t].pc, s.log;
    var e := ActEffect(s.sh, t, s.threads[t], WriteRequest(ok));
    assert PcOk(s.sh, log, t, pc);
    if Greeted(log, |log|) {
      GreetedGrows(log, e.events, |log|, |log + e.events|);
      GreetedGrows(log, e.events, |log|, |log|);
    }
    if e.pc.Awaiting? {
      if pc.p.Forward? {
        if pc.gen == 1 { GreetedOnGrows(log, e.events, |log|, |log|, pc.stdin.value); }
      } else {
        assert InitAt(log + e.events, |log|, t);
      }
    }
  }

  lemma ReceivingActor(s: State, t: Tid)
    requires BootInv(s) && t in s.threads && CanAct(s.sh, s.threads[t].pc, Receive)
    ensures ActorOk(s, ActEffect(s.sh, t, s.threads[t], Receive), t)
  {
    var pc, log := s.threads[t].pc, s.log;
    var e := ActEffect(s.sh, t, s.threads[t], Receive);
    assert PcOk(s.sh, log, t, pc);
    if Greeted(log, |log|) { GreetedGrows(log, e.events, |log|, |log + e.events|); }
    if e.pc.Noting? {
      var h :| InitAt(log, h, t);
      assert ReplyAt(log + e.events, h, |log|, t);
    }
  }

  lemma NotingActor(s: State, t: Tid, ok: bool)
    requires BootInv(s) && t in s.threads && CanAct(s.sh, s.threads[t].pc, WriteNote(ok))
    ensures ActorOk(s, ActEffect(s.sh, t, s.threads[t], WriteNote(ok)), t)
  {
    var pc, log := s.threads[t].pc, s.log;
    var e := ActEffect(s.sh, t, s.threads[t], WriteNote(ok));
    assert PcOk(s.sh, log, t, pc);
    if Greeted(log, |log|) {
      GreetedGrows(log, e.events, |log|, |log + e.events|);
      GreetedGrows(log, e.events, |log|, |log|);
    }
    if e.pc.Marking? {
      var h, i :| ReplyAt(log, h, i, t);
      assert HandshakeAt(log + e.events, t, h, i, |log|);
    }
  }

  lemma AnyActor(s: State, t: Tid, h: Act)
    requires BootInv(s) && t in s.threads && CanAct(s.sh, s.threads[t].pc, h)
    requires s.sh.alive ==> s.sh.stdin.Some?
    ensures ActorOk(s, ActEffect(s.sh, t, s.threads[t], h), t)
  {
    match h
    case RegisterCall(ch) => RegisteringActor(s, t, ch);
    case WriteRequest(ok) => WritingActor(s, t, ok);
    case Receive => ReceivingActor(s, t);
    case WriteNote(ok) => NotingActor(s, t, ok);
    case _ => QuietActor(s, t, h);
  }

  lemma BootActStep(s: State, t: Tid, h: Act)
    requires BootInv(s) && t in s.threads && CanAct(s.sh, s.threads[t].pc, h)
    requires s.sh.alive ==> s.sh.stdin.Some?
    ensures BootInv(Apply(s, Do(t, h)))
  {
    var e, s' := ActEffect(s.sh, t, s.threads[t], h), Apply(s, Do(t, h));
    AnyActor(s, t, h);
    ActKeepsPipes(s.sh, t, s.threads[t], h);
    forall k | 0 <= k < |s'.log| ensures EventOk(s'.sh, s'.log[k]) && RequestOk(s'.log, k) {
      if k < |s.log| { EventStays(s.sh, e.sh, s.log, e.events, k); }
    }
    forall u | u in s'.threads ensures PcOk(s'.sh, s'.log, u, s'.threads[u].pc) {
      if u != t { PcStays(s.sh, e.sh, s.log, e.events, u, s.threads[u].pc); }
    }
  }

  lemma BootInvStep(s: State, a: Action)
    requires Enabled(s, a) && SpawnInv(s.sh, s.threads) && BootInv(s)
    ensures BootInv(Apply(s, a))
  {
    if a.Do? {
      BootActStep(s, a.t, a.h);
    } else {
      BootOtherStep(s, a);
    }
  }

  lemma OtherStepsKeepPipes(s: State, a: Action)
    requires Enabled(s, a) && SpawnInv(s.sh, s.threads) && !a.Do?
    ensures PipesKept(s.sh, Apply(s, a).sh) && Apply(s, a).log == s.log
    ensures Apply(s, a).sh.bootstrapped == s.sh.bootstrapped && Apply(s, a).sh.generation == s.sh.generation
    ensures Apply(s, a).sh.alive ==> s.sh.alive
    ensures forall t :: t in Apply(s, a).threads ==>
              || (t in s.threads && Apply(s, a).threads[t] == s.threads[t])
              || Apply(s, a).threads[t].pc.Admitted? || Apply(s, a).threads[t].pc.Launched?
  {
    if a.Launch? { assert Spawner(s.threads[a.t].pc); }
  }

  lemma BootOtherStep(s: State, a: Action)
    requires Enabled(s, a) && SpawnInv(s.sh, s.threads) && BootInv(s) && !a.Do?
    ensures BootInv(Apply(s, a))
  {
    var s' := Apply(s, a);
    OtherStepsKeepPipes(s, a);
    assert s.log + [] == s.log;
    forall k | 0 <= k < |s'.log| ensures EventOk(s'.sh, s'.log[k]) && RequestOk(s'.log, k) {
      EventStays(s.sh, s'.sh, s.log, [], k);
    }
    forall u | u in s'.threads ensures PcOk(s'.sh, s'.log, u, s'.threads[u].pc) {
      if u in s.threads && s'.threads[u] == s.threads[u] { PcStays(s.sh, s'.sh, s.log, [], u, s.threads[u].pc); }
    }
  }
}
