/** What single steps come to: of a reply channel, of a handler and of a reader. */
module BridgeSteps {
  import opened Wrappers
  import opened Channels
  import opened Text
  import opened Bridge
  import opened BridgeInvariants
  import opened BridgeTheorems

  // ---------- Reply channels ----------

  /** A reply channel: one value can be put in; it is received once, and after a close every receive gives nil. */
  lemma OneValueThenNil(key: string, owner: nat, m: Msg, n: Msg)
    ensures var c, sent, closed := Make(key, owner), TrySend(Make(key, owner), m), Close(Make(key, owner));
      && !CanReceive(c) && CanReceive(sent) && Received(sent) == m && !CanReceive(Taken(sent))
      && CanReceive(closed) && Received(closed) == Gone && CanReceive(Taken(closed))
      && CanReceive(Close(sent)) && Received(Close(sent)) == m && Received(Taken(Close(sent))) == Gone
      && TrySend(sent, n).dropped && Received(TrySend(sent, n)) == m
      && TrySend(closed, m).panicked && Close(closed).panicked
      && !sent.dropped && !sent.panicked && !closed.panicked && !TrySend(sent, n).panicked && !Close(sent).panicked
  {
  }

  // ---------- Attempts to spawn ----------

  /** One attempt after another fails; `giveUps` says after which the request's context is done. */
  function Failed(sh: Shared, t: Tid, th: Thread, giveUps: seq<bool>): Thread {
    if giveUps == [] then th
    else
      var th' := Failed(sh, t, th, giveUps[..|giveUps| - 1]);
      var h := SpawnFails(giveUps[|giveUps| - 1]);
      if CanAct(sh, th'.pc, h) then th'.(pc := ActEffect(sh, t, th', h).pc) else th'
  }

  /** Who finds no child and nobody starting one tries to, five times at most, and stops when the context is done. */
  lemma {:induction false} FiveTries(sh: Shared, t: Tid, th: Thread, giveUps: seq<bool>)
    requires th.pc.Ensuring? && !sh.alive && !sh.starting
    ensures var e := ActEffect(sh, t, th, Enter);
      e.sh == sh.(starting := true)
      && Failed(e.sh, t, th.(pc := e.pc), giveUps) ==
           th.(pc := if |giveUps| < 5 && true !in giveUps then Spawning(th.pc.stage, |giveUps|)
                     else Ending(th.pc.stage, false))
  {
    if giveUps != [] {
      FiveTries(sh, t, th, giveUps[..|giveUps| - 1]);
      assert giveUps == giveUps[..|giveUps| - 1] + [giveUps[|giveUps| - 1]];
    }
  }

  /** A child that was started in time ends the attempts; one that comes too late counts as a failed attempt. */
  lemma InTimeOrNot(sh: Shared, t: Tid, stage: Stage, tries: nat, giveUp: bool, id: string)
    ensures var late := ActEffect(sh, t, Thread(id, Launched(stage, tries)), SpawnReturns(true, giveUp));
      && ActEffect(sh, t, Thread(id, Launched(stage, tries)), SpawnReturns(false, giveUp)).pc == Ending(stage, true)
      && late == ActEffect(sh, t, Thread(id, Spawning(stage, tries)), SpawnFails(giveUp))
  {
  }

  // ---------- Handlers ----------

  /** Who sleeps while another handler starts the child goes on like one that finds it alive, or sleeps on, or ends. */
  lemma Woken(sh: Shared, t: Tid, th: Thread)
    requires th.pc.Sleeping?
    ensures var e := ActEffect(sh, t, th, Wake);
      && e.sh == sh && e.events == []
      && (sh.alive ==> e.pc == ActEffect(sh, t, th.(pc := Ensuring(th.pc.stage)), Enter).pc != th.pc)
      && (!sh.alive ==> e.pc == if sh.starting && !sh.stop then th.pc else Finished)
  {
  }

  /**
   * A handler ends exactly so: it answers locally; no child came up, or none is there to write to; the reply is nil;
   * its answer or its notification has gone through; or what it sent or waited for has failed.
   */
  lemma EndsExactly(sh: Shared, t: Tid, th: Thread, h: Act)
    requires CanAct(sh, th.pc, h)
    ensures ActEffect(sh, t, th, h).pc == Finished <==>
              match h
              case AnswerLocally => true
              case Wake => !sh.alive && (sh.stop || !sh.starting)
              case Exit => !th.pc.spawned
              case RegisterCall(_) => !sh.alive
              case WriteRequest(_) => th.pc.stdin.None?
              case Receive => th.pc.p.Forward? || Received(sh.chans[th.pc.ch]).Gone?
              case UnregisterCall => true
              case WriteNote(ok) => !ok || th.pc.stdin.None? || th.pc.p.Forward?
              case _ => false
  {
  }

  lemma StopKept(sh: Shared, t: Tid, th: Thread, h: Act)
    requires CanAct(sh, th.pc, h)
    ensures ActEffect(sh, t, th, h).sh.stop == sh.stop
  {
  }

  lemma StopKeptByReader(sh: Shared, child: Child, r: Reader, ra: ReaderAct)
    requires CanRead(sh, r, ra)
    ensures ReadEffect(sh, child, r, ra).0.stop == sh.stop
  {
  }

  /** Stopping is possible at any time and for good. */
  lemma StopStays(s: State, a: Action)
    requires Enabled(s, a)
    ensures Enabled(s, Shutdown) && Apply(s, Shutdown) == s.(sh := s.sh.(stop := true))
    ensures s.sh.stop ==> Apply(s, a).sh.stop
  {
    match a
    case Do(t, h) => StopKept(s.sh, t, s.threads[t], h);
    case Read(child, ra) => StopKeptByReader(s.sh, child, s.readers[child], ra);
    case _ =>
  }

  /** Then nobody who wakes sleeps on. */
  lemma NoSleepAfterStop(sh: Shared, t: Tid, th: Thread)
    requires sh.stop && th.pc.Sleeping?
    ensures ActEffect(sh, t, th, Wake).pc == if sh.alive then AfterEnsure(th.pc.stage) else Finished
  {
  }

  // ---------- Readers ----------

  /** A reader waits for a line only when it has nothing else to do: a reply to send, a channel to close, a failure. */
  lemma ReaderWay(sh: Shared, r: Reader, ra: ReaderAct)
    ensures (r.Holding? || r.Closing?) && r.ch in sh.chans ==>
              (CanRead(sh, r, ra) <==> ra == if r.Holding? then SendReply else CloseReply)
    ensures r.Failing? ==> (CanRead(sh, r, ra) <==> ra == FailRead)
    ensures r.Reading? ==> (CanRead(sh, r, ra) <==> ra.ReadLine? || ra.ReadEnds? || ra.ReadBreaks?)
    ensures r.Ended? ==> !CanRead(sh, r, ra)
  {
  }

  // ---------- Minted keys ----------

  /** The synthetic keys minted so far, in order. */
  function Mints(log: seq<Event>): seq<string> {
    if log == [] then []
    else
      Mints(log[..|log| - 1]) + match log[|log| - 1] { case Minted(key) => [key] case _ => [] }
  }

  lemma {:induction false} MintsAdd(log: seq<Event>, events: seq<Event>)
    ensures Mints(log + events) == Mints(log) + Mints(events)
  {
    if events == [] {
      assert log + events == log;
    } else {
      var init := events[..|events| - 1];
      MintsAdd(log, init);
      assert (log + events)[..|log + events| - 1] == log + init;
    }
  }

  ghost predicate MintsInOrder(s: State) {
    && |Mints(s.log)| == s.sh.seqNo
    && forall i :: 0 <= i < |Mints(s.log)| ==> Mints(s.log)[i] == "\"shim-" + Itoa(i + 1) + "\""
  }

  lemma MintsStep(s: State, a: Action)
    requires Enabled(s, a) && MintsInOrder(s)
    ensures MintsInOrder(Apply(s, a))
  {
    match a
    case Do(t, h) =>
      MintsAdd(s.log, ActEffect(s.sh, t, s.threads[t], h).events);
      MintsOf(s.sh, t, s.threads[t], h);
    case Read(child, ra) => SeqKeptByReader(s.sh, child, s.readers[child], ra);
    case _ =>
  }

  lemma SeqKeptByReader(sh: Shared, child: Child, r: Reader, ra: ReaderAct)
    requires CanRead(sh, r, ra)
    ensures ReadEffect(sh, child, r, ra).0.seqNo == sh.seqNo
  {
  }

  /** Only a null id makes a key be minted. */
  lemma MintsOf(sh: Shared, t: Tid, th: Thread, h: Act)
    requires CanAct(sh, th.pc, h)
    ensures var e := ActEffect(sh, t, th, h);
      if h.Prepare? && |th.id| > 0 && TrimSpace(th.id) == "null"
      then e.sh.seqNo == sh.seqNo + 1 && Mints(e.events) == ["\"shim-" + Itoa(sh.seqNo + 1) + "\""]
      else e.sh.seqNo == sh.seqNo && Mints(e.events) == []
  {
    var e := ActEffect(sh, t, th, h);
    if e.events != [] {
      assert e.events == [e.events[0]] && e.events[..0] == [];
    }
  }

  /** In every run the keys minted are "shim-1", "shim-2" and so on, in quotes. */
  lemma {:induction false} MintedInOrder(run: seq<State>, i: nat)
    requires IsRun(run) && i < |run|
    ensures MintsInOrder(run[i])
  {
    if i > 0 {
      MintedInOrder(run, i - 1);
      assert StepAt(run, i);
      var a :| Enabled(run[i - 1], a) && run[i] == Apply(run[i - 1], a);
      MintsStep(run[i - 1], a);
    }
  }
}
