/** Runs in which a waiter does get lost: equal ids of two clients, of a client and a handshake, of two handshakes. */
module BridgeCollisions {
  import opened Wrappers
  import opened Channels
  import opened Text
  import opened Bridge
  import opened BridgeWaiters
  import opened BridgeRuns
  import opened BridgeRestart

  /** Thread `t` waits on a channel that nobody will ever send to. */
  predicate Waits(s: State, t: Tid, ch: ChanId) {
    t in s.threads && s.threads[t].pc.Awaiting? && s.threads[t].pc.ch == ch
  }

  /** Two handlers that have both found the first child up and not yet looked at the flag. */
  predicate TwoChecking(s: State, id0: string, id1: string) {
    && s.threads == map[0 := Thread(id0, Checking(ServeBoot)), 1 := Thread(id1, Checking(ServeBoot))]
    && s.sh == FRESH.(alive := true, generation := 1, cmd := Some(1), stdin := Some(1))
    && s.readers == map[1 := Reading]
  }

  lemma TwoUp(id0: string, id1: string) returns (s: State)
    ensures Reachable(s) && TwoChecking(s, id0, id1)
  {
    ReachableInit();
    var s1 := Comes(INIT, 0, id0);
    var s2 := Comes(s1, 1, id1);
    var s3 := Starts(s2, 0, ServeBoot, 1);
    var s4 := Publishes(s3, 0, ServeBoot);
    s := Acts(s4, 1, Enter);
    assert s.threads == map[0 := Thread(id0, Checking(ServeBoot)), 1 := Thread(id1, Checking(ServeBoot))];
    assert s.readers == map[1 := Reading];
  }

  /** A second registration under the key of a waiting request loses the waiter. */
  lemma Overwritten(s: State, t: Tid, u: Tid, p: Purpose, key: string, ch: ChanId, ch': ChanId) returns (s': State)
    requires Reachable(s) && t != u && At(s, u, Registering(p, key)) && s.sh.alive && ch' !in s.sh.chans
    requires Waits(s, t, ch) && ch in s.sh.chans && s.sh.chans[ch].key == key && s.sh.chans[ch].sends == 0
    requires forall c :: c in s.readers ==> s.readers[c].Reading?
    ensures Reachable(s') && Waits(s', t, ch) && Lost(s', ch) && s'.threads[t] == s.threads[t]
    ensures u in s'.threads && s'.threads[u].id == s.threads[u].id
  {
    s' := Acts(s, u, RegisterCall(ch'));
    assert s'.sh.pending[key] == ch' != ch;
  }

  /** Handler 0 has done the handshake and waits for its own request, all of which handler 1 has not noticed. */
  lemma FirstWaits(s: State, pc: PC) returns (s': State)
    requires Reachable(s) && At(s, 0, Checking(ServeBoot)) && At(s, 1, pc)
    requires s.sh == FRESH.(alive := true, generation := 1, cmd := Some(1), stdin := Some(1))
    requires s.readers == map[1 := Reading]
    requires |s.threads[0].id| > 0 && !IsNullId(s.threads[0].id)
    ensures Reachable(s') && {0, 1} <= s'.threads.Keys && s'.threads[1] == s.threads[1]
    ensures s'.threads[0] == s.threads[0].(pc := Awaiting(Forward, IdKey(s.threads[0].id), 1))
    ensures s'.sh.alive && s'.sh.bootstrapped && s'.sh.chans.Keys == {0, 1} && s'.readers == map[1 := Reading]
    ensures s'.sh.chans[1] == Make(IdKey(s.threads[0].id), 0)
  {
    var s1 := Acts(s, 0, Check);
    var s2 := Handshakes(s1, 0, 0);
    var s3 := Proceeds(s2, 0);
    var s4 := Prepares(s3, 0);
    s' := Asks(s4, 0, Forward, IdKey(s.threads[0].id), 1);
  }

  /** Two clients send requests under one id. */
  lemma SameIdLoses() returns (s: State)
    ensures Reachable(s) && Waits(s, 0, 1) && Lost(s, 1)
    ensures s.threads[0].id == "7" && 1 in s.threads && s.threads[1].id == "7"
  {
    SevenIsPlain();
    var s0 := TwoUp("7", "7");
    var s1 := FirstWaits(s0, Checking(ServeBoot));
    var s2 := Skips(s1, 1);
    var s3 := Prepares(s2, 1);
    s := Overwritten(s3, 0, 1, Forward, IdKey("7"), 1, 2);
  }

  lemma OneIsPlain()
    ensures !IsNullId("1") && IdKey("1") == "1"
  {
    assert Trimmed("1");
    TrimmedFixed("1");
  }

  /** A client's own id 1 meets the handshake of another handler. */
  lemma ClientOneLoses() returns (s: State)
    ensures Reachable(s) && Waits(s, 0, 1) && Lost(s, 1) && s.threads[0].id == "1" && s.threads[0].pc.p == Forward
  {
    OneIsPlain();
    var s0 := TwoUp("1", "7");
    var s1 := Acts(s0, 1, Check);
    var s2 := FirstWaits(s1, Registering(Initialize(ServeBoot), "1"));
    s := Overwritten(s2, 0, 1, Initialize(ServeBoot), "1", 1, 2);
  }

  /** Two first requests: the second handshake takes over the id of the first. */
  lemma TwoHandshakesLose() returns (s: State)
    ensures Reachable(s) && Waits(s, 0, 0) && Lost(s, 0) && s.threads[0].pc.p == Initialize(ServeBoot)
  {
    var s0 := TwoUp("7", "8");
    var s1 := Acts(s0, 0, Check);
    var s2 := Acts(s1, 1, Check);
    var s3 := Asks(s2, 0, Initialize(ServeBoot), "1", 0);
    s := Overwritten(s3, 0, 1, Initialize(ServeBoot), "1", 0, 1);
  }
}
