/**
 * The shim bridge as a transition system: HTTP handlers, one reader and one exit watcher per child
 * process, and the state they share under the child's mutex. Each region the code runs with the mutex
 * held is one atomic step; everything done outside it is a step of its own.
 */
module Bridge {
  import opened Wrappers
  import opened Channels
  import opened Text

  type ChanId = nat
  type Child = nat
  type Tid = nat

  const CAPACITY: nat := 8
  const MAX_TRIES: nat := 5

  /** The fields of `rawChild` guarded by its mutex, plus the channels made so far. */
  datatype Shared = Shared(alive: bool, starting: bool, stop: bool, bootstrapped: bool,
                           generation: nat, seqNo: nat, cmd: Option<Child>, stdin: Option<Child>,
                           pending: map<string, ChanId>, chans: map<ChanId, Chan>)

  const FRESH := Shared(false, false, false, false, 0, 0, None, None, map[], map[])

  // ---------- The admission queue ----------

  /** `acquire`: one more token in the queue, if there is room for it. */
  function TryAcquire(queue: nat): Option<nat> {
    if queue < CAPACITY then Some(queue + 1) else None
  }

  /** `release`: one token fewer, if there is one. */
  function GiveBack(queue: nat): nat {
    if queue > 0 then queue - 1 else 0
  }

  // ---------- Regions under the mutex ----------

  datatype Entry = Ready | MustWait | MustSpawn

  function EnsureEntry(sh: Shared): (Shared, Entry) {
    if sh.alive then (sh, Ready)
    else if sh.starting then (sh, MustWait)
    else (sh.(starting := true), MustSpawn)
  }

  function EnsureExit(sh: Shared, spawned: bool): Shared {
    if spawned then sh.(starting := false, alive := true, generation := sh.generation + 1)
    else sh.(starting := false)
  }

  function Publish(sh: Shared, child: Child): Shared {
    sh.(cmd := Some(child), stdin := Some(child))
  }

  function Register(sh: Shared, key: string, ch: ChanId, owner: Tid): Shared {
    if sh.alive then sh.(pending := sh.pending[key := ch], chans := sh.chans[ch := Make(key, owner)])
    else sh
  }

  function Unregister(sh: Shared, key: string): Shared {
    sh.(pending := sh.pending - {key})
  }

  /** The reader's lookup: an entry is claimed by removing it. */
  function Claim(sh: Shared, key: string): (Shared, Option<ChanId>) {
    if key in sh.pending then (Unregister(sh, key), Some(sh.pending[key])) else (sh, None)
  }

  /** The channel is the one `pending` holds for the key it was made for. */
  predicate Registered(sh: Shared, ch: ChanId) {
    ch in sh.chans && sh.chans[ch].key in sh.pending && sh.pending[sh.chans[ch].key] == ch
  }

  /** The channels in `which` are sent nil and closed. */
  function Signal(chans: map<ChanId, Chan>, which: set<ChanId>): map<ChanId, Chan> {
    map ch | ch in chans :: if ch in which then Close(TrySend(chans[ch], Gone)) else chans[ch]
  }

  /** Every waiter is answered with nil. */
  function Drain(sh: Shared): Shared {
    sh.(alive := false, pending := map[], chans := Signal(sh.chans, sh.pending.Values))
  }

  /** The exit watcher and the read-failure path act only for the child currently published. */
  function ChildGone(sh: Shared, child: Child): Shared {
    if sh.cmd == Some(child) then Drain(sh) else sh
  }

  function Deliver(sh: Shared, ch: ChanId, m: Msg): Shared
    requires ch in sh.chans
  {
    sh.(chans := sh.chans[ch := TrySend(sh.chans[ch], m)])
  }

  function CloseChan(sh: Shared, ch: ChanId): Shared
    requires ch in sh.chans
  {
    sh.(chans := sh.chans[ch := Close(sh.chans[ch])])
  }

  function Take(sh: Shared, ch: ChanId): Shared
    requires ch in sh.chans
  {
    sh.(chans := sh.chans[ch := Taken(sh.chans[ch])])
  }

  // ---------- Ids ----------

  /** An absent id has length zero. */
  function IdKey(raw: string): string {
    if |raw| == 0 then "<notification>" else TrimSpace(raw)
  }

  predicate IsNullId(raw: string) {
    TrimSpace(raw) == "null"
  }

  function SyntheticKey(n: nat): string {
    "\"shim-" + Itoa(n) + "\""
  }

  /** The id text in the answer the client gets: the line's own id, unless it was rewritten to null. */
  function SeenId(raw: string, lineKey: string): string {
    if IsNullId(raw) then "null" else lineKey
  }

  // ---------- Threads ----------

  /** Which call the handler is in: `serveHTTP`'s Bootstrap, `Send`'s ensure, or `Send`'s Bootstrap. */
  datatype Stage = ServeBoot | SendEnsure | SendBoot

  datatype Purpose = Initialize(stage: Stage) | Forward

  /** `stdin` and `gen` are the pipe and the generation read in the region that precedes a write. */
  datatype PC =
    | Admitted
    | Ensuring(stage: Stage)
    | Sleeping(stage: Stage)
    | Spawning(stage: Stage, tries: nat)
    | Launched(stage: Stage, tries: nat)
    | Ending(stage: Stage, spawned: bool)
    | Checking(stage: Stage)
    | Registering(p: Purpose, key: string)
    | Writing(p: Purpose, key: string, ch: ChanId, stdin: Option<Child>, gen: nat)
    | Awaiting(p: Purpose, key: string, ch: ChanId)
    | Leaving(p: Purpose, key: string, ch: ChanId)
    | Noting(p: Purpose)
    | NoteWriting(p: Purpose, stdin: Option<Child>, gen: nat)
    | Marking(stage: Stage)
    | Preparing
    | Finished

  datatype Thread = Thread(id: string, pc: PC)

  datatype Reader = Reading | Holding(ch: ChanId, line: Msg) | Closing(ch: ChanId) | Failing | Ended

  /** What the run did so far, oldest first. */
  datatype Event =
    | Spawned(gen: nat)
    | InitWritten(t: Tid, child: Child, gen: nat)
    | InitReplied(t: Tid)
    | NoteWritten(t: Tid, child: Child, gen: nat)
    | Minted(key: string)
    | RequestWritten(t: Tid, child: Child, gen: nat)
    | NotificationForwarded(t: Tid, child: Child, id: string)
    | Answered(t: Tid, id: string, seen: string)

  datatype State = State(sh: Shared, queue: nat, threads: map<Tid, Thread>,
                         readers: map<Child, Reader>, waiters: set<Child>, log: seq<Event>)

  const INIT := State(FRESH, 0, map[], map[], {}, [])

  function AfterEnsure(stage: Stage): PC {
    if stage == SendEnsure then Ensuring(SendBoot) else Checking(stage)
  }

  function AfterBoot(stage: Stage): PC {
    if stage == ServeBoot then Ensuring(SendEnsure) else Preparing
  }

  function RetryOrStop(stage: Stage, tries: nat, giveUp: bool): PC {
    if giveUp || tries + 1 >= MAX_TRIES then Ending(stage, false) else Spawning(stage, tries + 1)
  }

  // ---------- Handler steps ----------

  /** What a handler can do next; the parameters are the environment's choices. */
  datatype Act =
    | AnswerLocally | Dispatch
    | Enter | Wake | SpawnFails(giveUp: bool) | SpawnReturns(expired: bool, giveUp: bool) | Exit
    | Check | RegisterCall(ch: ChanId) | WriteRequest(ok: bool) | Receive | Expire | UnregisterCall
    | ReadStdin | WriteNote(ok: bool) | Mark | Prepare

  predicate CanAct(sh: Shared, pc: PC, h: Act) {
    match h
    case AnswerLocally => pc.Admitted?
    case Dispatch => pc.Admitted?
    case Enter => pc.Ensuring?
    case Wake => pc.Sleeping?
    case SpawnFails(_) => pc.Spawning?
    case SpawnReturns(_, _) => pc.Launched?
    case Exit => pc.Ending?
    case Check => pc.Checking?
    case RegisterCall(ch) => pc.Registering? && ch !in sh.chans
    case WriteRequest(_) => pc.Writing?
    case Receive => pc.Awaiting? && pc.ch in sh.chans && CanReceive(sh.chans[pc.ch])
    case Expire => pc.Awaiting?
    case UnregisterCall => pc.Leaving?
    case ReadStdin => pc.Noting?
    case WriteNote(_) => pc.NoteWriting?
    case Mark => pc.Marking?
    case Prepare => pc.Preparing?
  }

  /** Where the handler goes, what the shared fields become, and what the run's log gains. */
  datatype Effect = Effect(pc: PC, sh: Shared, events: seq<Event>)

  function EnterEffect(sh: Shared, stage: Stage): Effect {
    match EnsureEntry(sh)
    case (sh', Ready) => Effect(AfterEnsure(stage), sh', [])
    case (sh', MustWait) => Effect(Sleeping(stage), sh', [])
    case (sh', MustSpawn) => Effect(Spawning(stage, 0), sh', [])
  }

  function WakeEffect(sh: Shared, pc: PC): Effect
    requires pc.Sleeping?
  {
    if sh.starting && !sh.alive && !sh.stop then Effect(pc, sh, [])
    else Effect(if sh.alive then AfterEnsure(pc.stage) else Finished, sh, [])
  }

  function ExitEffect(sh: Shared, pc: PC): Effect
    requires pc.Ending?
  {
    var sh' := EnsureExit(sh, pc.spawned);
    if pc.spawned then Effect(AfterEnsure(pc.stage), sh', [Spawned(sh'.generation)]) else Effect(Finished, sh', [])
  }

  function RegisterEffect(sh: Shared, t: Tid, pc: PC, ch: ChanId): Effect
    requires pc.Registering?
  {
    Effect(if sh.alive then Writing(pc.p, pc.key, ch, sh.stdin, sh.generation) else Finished,
           Register(sh, pc.key, ch, t), [])
  }

  function WriteEffect(sh: Shared, t: Tid, pc: PC, ok: bool): Effect
    requires pc.Writing?
  {
    if pc.stdin.None? then Effect(Finished, sh, [])
    else if !ok then Effect(Leaving(pc.p, pc.key, pc.ch), sh, [])
    else Effect(Awaiting(pc.p, pc.key, pc.ch), sh,
                [if pc.p.Forward? then RequestWritten(t, pc.stdin.value, pc.gen)
                 else InitWritten(t, pc.stdin.value, pc.gen)])
  }

  function ReceiveEffect(sh: Shared, t: Tid, id: string, pc: PC): Effect
    requires pc.Awaiting? && pc.ch in sh.chans
  {
    match Received(sh.chans[pc.ch])
    case Gone => Effect(Finished, Take(sh, pc.ch), [])
    case Line(key, _) =>
      if pc.p.Forward? then Effect(Finished, Take(sh, pc.ch), [Answered(t, id, SeenId(id, key))])
      else Effect(Noting(pc.p), Take(sh, pc.ch), [InitReplied(t)])
  }

  function NoteEffect(sh: Shared, t: Tid, id: string, pc: PC, ok: bool): Effect
    requires pc.NoteWriting?
  {
    if pc.stdin.None? || !ok then Effect(Finished, sh, [])
    else if pc.p.Forward? then Effect(Finished, sh, [NotificationForwarded(t, pc.stdin.value, id)])
    else Effect(Marking(pc.p.stage), sh, [NoteWritten(t, pc.stdin.value, pc.gen)])
  }

  /** `Send` gives a null id a synthetic one before the request goes out. */
  function PrepareEffect(sh: Shared, id: string): Effect {
    if |id| == 0 then Effect(Noting(Forward), sh, [])
    else if IsNullId(id) then
      Effect(Registering(Forward, SyntheticKey(sh.seqNo + 1)), sh.(seqNo := sh.seqNo + 1),
             [Minted(SyntheticKey(sh.seqNo + 1))])
    else Effect(Registering(Forward, IdKey(id)), sh, [])
  }

  function ActEffect(sh: Shared, t: Tid, th: Thread, h: Act): Effect
    requires CanAct(sh, th.pc, h)
  {
    var pc := th.pc;
    match h
    case AnswerLocally => Effect(Finished, sh, [])
    case Dispatch => Effect(Ensuring(ServeBoot), sh, [])
    case Enter => EnterEffect(sh, pc.stage)
    case Wake => WakeEffect(sh, pc)
    case SpawnFails(giveUp) => Effect(RetryOrStop(pc.stage, pc.tries, giveUp), sh, [])
    case SpawnReturns(expired, giveUp) =>
      Effect(if expired then RetryOrStop(pc.stage, pc.tries, giveUp) else Ending(pc.stage, true), sh, [])
    case Exit => ExitEffect(sh, pc)
    case Check =>
      Effect(if sh.bootstrapped then AfterBoot(pc.stage) else Registering(Initialize(pc.stage), "1"), sh, [])
    case RegisterCall(ch) => RegisterEffect(sh, t, pc, ch)
    case WriteRequest(ok) => WriteEffect(sh, t, pc, ok)
    case Receive => ReceiveEffect(sh, t, th.id, pc)
    case Expire => Effect(Leaving(pc.p, pc.key, pc.ch), sh, [])
    case UnregisterCall => Effect(Finished, Unregister(sh, pc.key), [])
    case ReadStdin => Effect(NoteWriting(pc.p, sh.stdin, sh.generation), sh, [])
    case WriteNote(ok) => NoteEffect(sh, t, th.id, pc, ok)
    case Mark => Effect(AfterBoot(pc.stage), sh.(bootstrapped := true), [])
    case Prepare => PrepareEffect(sh, th.id)
  }

  // ---------- Reader steps ----------

  datatype ReaderAct = ReadLine(key: string, body: string) | SendReply | CloseReply | ReadEnds | ReadBreaks | FailRead

  predicate CanRead(sh: Shared, r: Reader, ra: ReaderAct) {
    match ra
    case SendReply => r.Holding? && r.ch in sh.chans
    case CloseReply => r.Closing? && r.ch in sh.chans
    case FailRead => r.Failing?
    case _ => r.Reading?
  }

  function ReadEffect(sh: Shared, child: Child, r: Reader, ra: ReaderAct): (Shared, Reader)
    requires CanRead(sh, r, ra)
  {
    match ra
    case ReadLine(key, body) =>
      (match Claim(sh, key)
       case (sh', Some(ch)) => (sh', Holding(ch, Line(key, body)))
       case (sh', None) => (sh', Reading))
    case SendReply => (Deliver(sh, r.ch, r.line), Closing(r.ch))
    case CloseReply => (CloseChan(sh, r.ch), Reading)
    case ReadEnds => (sh, Ended)
    case ReadBreaks => (sh, Failing)
    case FailRead => (ChildGone(sh, child), Ended)
  }

  // ---------- Runs ----------

  datatype Action =
    | Arrive(t: Tid, id: string)
    | Do(t: Tid, h: Act)
    | Launch(t: Tid, child: Child)
    | Release(t: Tid)
    | Read(child: Child, ra: ReaderAct)
    | WaitReturns(child: Child)
    | Shutdown

  predicate Enabled(s: State, a: Action) {
    match a
    case Arrive(t, id) => t !in s.threads
    case Do(t, h) => t in s.threads && CanAct(s.sh, s.threads[t].pc, h)
    case Launch(t, child) => t in s.threads && s.threads[t].pc.Spawning? && child !in s.readers
    case Release(t) => t in s.threads && s.threads[t].pc.Finished?
    case Read(child, ra) => child in s.readers && CanRead(s.sh, s.readers[child], ra)
    case WaitReturns(child) => child in s.waiters
    case Shutdown => true
  }

  function Apply(s: State, a: Action): State
    requires Enabled(s, a)
  {
    match a
    case Arrive(t, id) =>
      (match TryAcquire(s.queue)
       case Some(queue) => s.(queue := queue, threads := s.threads[t := Thread(id, Admitted)])
       case None => s)
    case Do(t, h) =>
      var e := ActEffect(s.sh, t, s.threads[t], h);
      s.(sh := e.sh, threads := s.threads[t := s.threads[t].(pc := e.pc)], log := s.log + e.events)
    case Launch(t, child) =>
      var pc := s.threads[t].pc;
      s.(sh := Publish(s.sh, child), threads := s.threads[t := s.threads[t].(pc := Launched(pc.stage, pc.tries))],
         readers := s.readers[child := Reading], waiters := s.waiters + {child})
    case Release(t) => s.(queue := GiveBack(s.queue), threads := s.threads - {t})
    case Read(child, ra) =>
      var (sh', r') := ReadEffect(s.sh, child, s.readers[child], ra);
      s.(sh := sh', readers := s.readers[child := r'])
    case WaitReturns(child) => s.(sh := ChildGone(s.sh, child), waiters := s.waiters - {child})
    case Shutdown => s.(sh := s.sh.(stop := true))
  }

  /** One enabled step of any thread. */
  ghost predicate Next(s: State, s': State) {
    exists a :: Enabled(s, a) && s' == Apply(s, a)
  }

  ghost predicate StepAt(run: seq<State>, i: int) {
    0 < i < |run| && Next(run[i - 1], run[i])
  }

  /** A run: any interleaving of enabled steps from the initial state. */
  ghost predicate IsRun(run: seq<State>) {
    && |run| > 0 && run[0] == INIT
    && forall i :: 0 < i < |run| ==> StepAt(run, i)
  }
}
