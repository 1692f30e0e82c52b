/** Under which key a client's request travels, and which id its answer shows. */
module BridgeIds {
  import opened Wrappers
  import opened Channels
  import opened Text
  import opened Bridge
  import opened BridgeInvariants
  import opened BridgeTheorems

  // ---------- The text of an id ----------

  /** An id is some text with nothing but white space around it. */
  predicate IsTextOf(core: string, id: string, before: string, after: string) {
    && id == before + core + after && Blank(before) && Blank(after)
    && core != "" && !IsSpace(core[0]) && !IsSpace(core[|core| - 1])
  }

  lemma {:induction false} TrimBefore(before: string, s: string)
    requires Blank(before) && s != "" && !IsSpace(s[0])
    ensures TrimLeft(before + s) == s
  {
    if before == "" {
      assert before + s == s;
    } else {
      assert (before + s)[1..] == before[1..] + s;
      TrimBefore(before[1..], s);
    }
  }

  lemma {:induction false} TrimAfter(s: string, after: string)
    requires Blank(after) && s != "" && !IsSpace(s[|s| - 1])
    ensures TrimRight(s + after) == s
  {
    if after == "" {
      assert s + after == s;
    } else {
      assert (s + after)[..|s + after| - 1] == s + after[..|after| - 1];
      TrimAfter(s, after[..|after| - 1]);
    }
  }

  lemma TextIsTrimmed(core: string, id: string, before: string, after: string)
    requires IsTextOf(core, id, before, after)
    ensures TrimSpace(id) == core && |id| > 0
  {
    assert id == before + (core + after);
    TrimBefore(before, core + after);
    TrimAfter(core, after);
  }

  // ---------- Keys ----------

  /** The key of a client's request that is on its way. */
  function KeyOf(pc: PC): Option<string> {
    match pc
    case Registering(Forward, key) => Some(key)
    case Writing(Forward, key, _, _, _) => Some(key)
    case Awaiting(Forward, key, _) => Some(key)
    case Leaving(Forward, key, _) => Some(key)
    case _ => None
  }

  /** It is the request's own id, unless that is null. */
  predicate OwnKey(th: Thread) {
    KeyOf(th.pc).Some? && TrimSpace(th.id) != "null" ==> KeyOf(th.pc).value == TrimSpace(th.id)
  }

  predicate NullOnItsWay(th: Thread) {
    KeyOf(th.pc).Some? && TrimSpace(th.id) == "null"
  }

  predicate BothNull(th: Thread, other: Thread) {
    NullOnItsWay(th) && NullOnItsWay(other)
  }

  ghost predicate KeysInv(s: State) {
    && (forall t :: t in s.threads ==> OwnKey(s.threads[t]))
    && (forall t :: t in s.threads && NullOnItsWay(s.threads[t]) ==> Minted(KeyOf(s.threads[t].pc).value) in s.log)
    && forall t, u :: t in s.threads && u in s.threads && t != u && BothNull(s.threads[t], s.threads[u]) ==>
         KeyOf(s.threads[t].pc) != KeyOf(s.threads[u].pc)
  }

  /** A key is kept, or given where the request is prepared: its own id, or for null a synthetic one just minted. */
  lemma KeyGiven(sh: Shared, t: Tid, th: Thread, h: Act)
    requires CanAct(sh, th.pc, h) && OwnKey(th)
    ensures var e := ActEffect(sh, t, th, h);
      && OwnKey(th.(pc := e.pc))
      && (NullOnItsWay(th.(pc := e.pc)) ==>
            (KeyOf(th.pc) == KeyOf(e.pc)) ||
            (KeyOf(e.pc) == Some(SyntheticKey(sh.seqNo + 1)) && Minted(SyntheticKey(sh.seqNo + 1)) in e.events))
  {
  }

  lemma NotYetMinted(s: State, n: nat)
    requires IdInv(s) && n > s.sh.seqNo
    ensures Minted(SyntheticKey(n)) !in s.log
  {
    if Minted(SyntheticKey(n)) in s.log {
      var k :| 0 <= k < |s.log| && s.log[k] == Minted(SyntheticKey(n));
      var m: nat :| 1 <= m <= s.sh.seqNo && s.log[k].key == SyntheticKey(m);
      SyntheticInjective(m, n);
    }
  }

  /** The keys on their way after a step of one handler. */
  lemma KeysDoStep(s: State, t: Tid, h: Act)
    requires Enabled(s, Do(t, h)) && IdInv(s) && KeysInv(s)
    ensures KeysInv(Apply(s, Do(t, h)))
  {
    var s' := Apply(s, Do(t, h));
    KeyGiven(s.sh, t, s.threads[t], h);
    NotYetMinted(s, s.sh.seqNo + 1);
    assert s'.threads == s.threads[t := s'.threads[t]] && s'.threads[t].id == s.threads[t].id;
    assert s'.log == s.log + ActEffect(s.sh, t, s.threads[t], h).events;
  }

  /** Other steps put no key on its way. */
  lemma NoKeyGiven(s: State, a: Action, t: Tid)
    requires Enabled(s, a) && !a.Do? && t in Apply(s, a).threads && KeyOf(Apply(s, a).threads[t].pc).Some?
    ensures t in s.threads && s.threads[t] == Apply(s, a).threads[t] && Apply(s, a).log == s.log
  {
  }

  lemma KeysStep(s: State, a: Action)
    requires Enabled(s, a) && IdInv(s) && KeysInv(s)
    ensures KeysInv(Apply(s, a))
  {
    if a.Do? {
      KeysDoStep(s, a.t, a.h);
    } else {
      forall t | t in Apply(s, a).threads && KeyOf(Apply(s, a).threads[t].pc).Some?
        ensures t in s.threads && s.threads[t] == Apply(s, a).threads[t] && Apply(s, a).log == s.log
      {
        NoKeyGiven(s, a, t);
      }
    }
  }

  lemma {:induction false} KeysAlways(run: seq<State>, i: nat)
    requires IsRun(run) && i < |run|
    ensures KeysInv(run[i])
  {
    if i > 0 {
      KeysAlways(run, i - 1);
      InvAlways(run, i - 1);
      assert StepAt(run, i);
      var a :| Enabled(run[i - 1], a) && run[i] == Apply(run[i - 1], a);
      KeysStep(run[i - 1], a);
    }
  }

  // ---------- What the client sees ----------

  /** The answer to a request shows the text of its id, null included, whatever was sent to the child. */
  lemma AnswerShowsId(run: seq<State>, i: nat, k: nat, core: string, before: string, after: string)
    requires IsRun(run) && i < |run| && k < |run[i].log| && run[i].log[k].Answered?
    requires IsTextOf(core, run[i].log[k].id, before, after)
    ensures run[i].log[k].seen == core
  {
    IdsComeBack(run, i, k, k);
    TextIsTrimmed(core, run[i].log[k].id, before, after);
  }

  /** A request is registered under the text of its id, unless that is null. */
  lemma TravelsUnderId(run: seq<State>, i: nat, t: Tid, core: string, before: string, after: string)
    requires IsRun(run) && i < |run| && t in run[i].threads && KeyOf(run[i].threads[t].pc).Some?
    requires IsTextOf(core, run[i].threads[t].id, before, after) && core != "null"
    ensures KeyOf(run[i].threads[t].pc) == Some(core)
  {
    KeysAlways(run, i);
    TextIsTrimmed(core, run[i].threads[t].id, before, after);
  }

  /** So different ids travel under different keys, and so do any two nulls, whose keys were minted. */
  lemma KeysKeptApart(run: seq<State>, i: nat, t: Tid, u: Tid)
    requires IsRun(run) && i < |run| && t in run[i].threads && u in run[i].threads && t != u
    requires KeyOf(run[i].threads[t].pc).Some? && KeyOf(run[i].threads[u].pc).Some?
    ensures var x, y, key, key' := run[i].threads[t].id, run[i].threads[u].id, KeyOf(run[i].threads[t].pc),
                                   KeyOf(run[i].threads[u].pc);
      && (Plain(x) && Plain(y) && x != "null" && y != "null" ==> (key == key' <==> x == y))
      && (x == "null" && y == "null" ==> key != key')
      && (x == "null" ==> Minted(key.value) in run[i].log)
  {
    KeysAlways(run, i);
    InvAlways(run, i);
    var x, y := run[i].threads[t].id, run[i].threads[u].id;
    if Plain(x) { TrimmedFixed(x); }
    if Plain(y) { TrimmedFixed(y); }
    NullIsPlain();
  }

  lemma NullIsPlain()
    ensures TrimSpace("null") == "null"
  {
    assert Trimmed("null");
    TrimmedFixed("null");
  }

  /** No white space at the edges. */
  predicate Plain(id: string) {
    id != "" && !IsSpace(id[0]) && !IsSpace(id[|id| - 1])
  }
}
