/** Page files change by atomic directory steps: create a temporary file, fill it, rename it into place. */
module FileSteps {
  import opened Wrappers
  import opened Text
  import opened Naming

  type Bytes = string

  const TEMP := ".tmp-"
  const MAX_ATTEMPTS: nat := 256

  predicate IsTemp(name: string) {
    HasPrefix(name, TEMP)
  }

  /** A temporary file is never listed as a page. */
  lemma TempsUnlisted(name: string)
    requires IsTemp(name)
    ensures !ListedDirectly(name) && !ListedRecursively(name)
  {
    assert name[0] == TEMP[0] && "_index."[0] != TEMP[0] && "index."[0] != TEMP[0];
  }

  // ---------- One call ----------

  /** Which of the steps fail; `partial` is how much of the data a failing write leaves behind. */
  datatype WriteFaults = WriteFaults(open: bool, write: bool, partial: nat, close: bool, rename: bool, cleanup: bool)

  /** The first of the names that is not taken, and one that is still tried. */
  predicate FirstFree(names: seq<string>, files: map<string, Bytes>, i: int) {
    0 <= i < |names| && i < 256 && names[i] !in files && forall j :: 0 <= j < i ==> names[j] in files
  }

  /** Some name is free, and no step of the write fails. */
  ghost predicate StepsWork(f: WriteFaults, names: seq<string>, files: map<string, Bytes>) {
    !f.open && !f.write && !f.close && !f.rename && exists i :: FirstFree(names, files, i)
  }

  class Directory {
    var files: map<string, Bytes>

    constructor (files: map<string, Bytes>)
      ensures this.files == files
    {
      this.files := files;
    }

    /** Exclusive creation under one of the random names offered, retried while the name is taken. */
    method CreateTempFile(names: seq<string>, fails: bool) returns (name: Option<string>)
      modifies this
      ensures name.Some? ==> name.value in names && name.value !in old(files) && files == old(files)[name.value := ""]
      ensures name.Some? ==> exists i :: FirstFree(names, old(files), i) && names[i] == name.value
      ensures name.None? ==> files == old(files)
      ensures name.None? <==> fails || forall i :: 0 <= i < |names| && i < 256 ==> names[i] in old(files)
      ensures name.Some? <==> !fails && exists i :: FirstFree(names, old(files), i)
    {
      if fails { return None; }
      var i := 0;
      while i < MAX_ATTEMPTS && i < |names|
        invariant 0 <= i && files == old(files)
        invariant forall j :: 0 <= j < i && j < |names| ==> names[j] in files
      {
        if names[i] !in files {
          assert FirstFree(names, files, i);
          files := files[names[i] := ""];
          return Some(names[i]);
        }
        i := i + 1;
      }
      return None;
    }

    method RenameInDir(from: string, to: string, noReplace: bool, fails: bool) returns (ok: bool)
      requires from in files
      modifies this
      ensures ok <==> !fails && (noReplace ==> to !in old(files))
      ensures files == if ok then (old(files) - {from})[to := old(files)[from]] else old(files)
    {
      ok := !fails && (noReplace ==> to !in files);
      if ok {
        var data := files[from];
        files := (files - {from})[to := data];
      }
    }

    method UnlinkInDir(name: string, fails: bool) returns (ok: bool)
      modifies this
      ensures ok <==> !fails && name in old(files)
      ensures files == if ok then old(files) - {name} else old(files)
    {
      ok := !fails && name in files;
      if ok { files := files - {name}; }
    }

    /**
     * On success the target holds exactly the new bytes; on failure it holds what it held. Nothing else
     * changes, except that a failing cleanup leaves one temporary file behind.
     */
    method WriteBytesAt(target: string, raw: Bytes, noReplace: bool, names: seq<string>, f: WriteFaults)
      returns (ok: bool)
      requires !IsTemp(target) && forall n :: n in names ==> IsTemp(n)
      modifies this
      ensures ok <==> StepsWork(f, names, old(files)) && (noReplace ==> target !in old(files))
      ensures ok ==> files == old(files)[target := raw]
      ensures !ok ==>
                files == old(files) ||
                (f.cleanup && exists n :: IsTemp(n) && n !in old(files) && files - {n} == old(files))
    {
      var temp := CreateTempFile(names, f.open);
      if temp.None? { return false; }
      var t := temp.value;
      ghost var before := old(files);
      if f.write {
        files := files[t := raw[..if f.partial < |raw| then f.partial else |raw|]];
        Leftover(before, t, files[t]);
        var _ := UnlinkInDir(t, f.cleanup);
        return false;
      }
      files := files[t := raw];
      Leftover(before, t, raw);
      if f.close {
        var _ := UnlinkInDir(t, f.cleanup);
        return false;
      }
      assert files - {t} == before;
      ok := RenameInDir(t, target, noReplace, f.rename);
      if !ok {
        var _ := UnlinkInDir(t, f.cleanup);
      }
    }
  }

  lemma Leftover(files: map<string, Bytes>, t: string, data: Bytes)
    requires t !in files
    ensures files[t := ""][t := data] - {t} == files && files[t := data] - {t} == files
  {
  }

  datatype DeleteFaults = DeleteFaults(temp: bool, read: bool, write: bool, close: bool, chain: bool, unlink: bool,
      cleanup: bool)

  /** Some name is free for the copy, and no step of the delete fails. */
  ghost predicate DeleteWorks(f: DeleteFaults, names: seq<string>, work: map<string, Bytes>) {
    && !f.temp && !f.read && !f.write && !f.close && !f.chain && !f.unlink
    && exists i :: FirstFree(names, work, i)
  }

  /**
   * On success the page is gone and the work root holds an exact copy of the file that was opened, which is the page
   * itself when `source` and `name` are one; on failure the page is as it was, and the backup is withdrawn unless
   * that fails too.
   */
  method DeletePage(content: Directory, work: Directory, source: string, name: string, names: seq<string>,
                    f: DeleteFaults)
    returns (ok: bool, backup: Option<string>)
    requires content != work
    modifies content, work
    ensures ok <==> source in old(content.files) && name in old(content.files) && DeleteWorks(f, names, old(work.files))
    ensures ok ==> content.files == old(content.files) - {name}
    ensures ok ==> backup.Some? && backup.value !in old(work.files)
                   && work.files == old(work.files)[backup.value := old(content.files)[source]]
    ensures !ok ==> content.files == old(content.files)
    ensures !ok && !f.cleanup ==> work.files == old(work.files)
  {
    backup := work.CreateTempFile(names, f.temp);
    if backup.None? { return false, None; }
    var b := backup.value;
    ghost var before := old(work.files);
    Leftover(before, b, "");
    if f.read || source !in content.files {
      var _ := work.UnlinkInDir(b, f.cleanup);
      return false, None;
    }
    var raw := content.files[source];
    if f.write {
      var _ := work.UnlinkInDir(b, f.cleanup);
      return false, None;
    }
    work.files := work.files[b := raw];
    Leftover(before, b, raw);
    if f.close || f.chain {
      var _ := work.UnlinkInDir(b, f.cleanup);
      return false, None;
    }
    var gone := content.UnlinkInDir(name, f.unlink);
    if !gone {
      assert work.files - {b} == before;
      var _ := work.UnlinkInDir(b, f.cleanup);
      return false, None;
    }
    return true, backup;
  }

  // ---------- Interleaved calls ----------

  type Wid = nat

  datatype Job = Job(target: string, raw: Bytes, noReplace: bool)

  /** Where a writer is; `Filling` has some prefix of its bytes in the temporary file. */
  datatype Phase = Idle | Filling(temp: string) | Filled(temp: string) | Cleaning(temp: string) | Over

  /** The directory, the writers, and the writers whose rename went through, in order. */
  datatype State = State(dir: map<string, Bytes>, phases: map<Wid, Phase>, done: seq<Wid>)

  datatype Action =
    | Open(w: Wid, temp: string) | Fill(w: Wid, n: nat) | FillEnds(w: Wid, ok: bool)
    | Rename(w: Wid, fails: bool) | CleanUp(w: Wid, fails: bool)

  predicate Enabled(jobs: map<Wid, Job>, s: State, a: Action) {
    && a.w in jobs && a.w in s.phases
    && match a
       case Open(w, temp) => s.phases[w].Idle? && IsTemp(temp) && temp !in s.dir
       case Fill(w, n) => s.phases[w].Filling? && n <= |jobs[w].raw|
       case FillEnds(w, _) => s.phases[w].Filling?
       case Rename(w, _) => s.phases[w].Filled? && s.phases[w].temp in s.dir
       case CleanUp(w, _) => s.phases[w].Cleaning?
  }

  function Apply(jobs: map<Wid, Job>, s: State, a: Action): State
    requires Enabled(jobs, s, a)
  {
    var w, p, job := a.w, s.phases[a.w], jobs[a.w];
    match a
    case Open(_, temp) => s.(dir := s.dir[temp := ""], phases := s.phases[w := Filling(temp)])
    case Fill(_, n) => s.(dir := s.dir[p.temp := job.raw[..n]])
    case FillEnds(_, ok) =>
      if ok then s.(dir := s.dir[p.temp := job.raw], phases := s.phases[w := Filled(p.temp)])
      else s.(phases := s.phases[w := Cleaning(p.temp)])
    case Rename(_, fails) =>
      if fails || (job.noReplace && job.target in s.dir) then s.(phases := s.phases[w := Cleaning(p.temp)])
      else State((s.dir - {p.temp})[job.target := s.dir[p.temp]], s.phases[w := Over], s.done + [w])
    case CleanUp(_, fails) => State(if fails then s.dir else s.dir - {p.temp}, s.phases[w := Over], s.done)
  }

  /**
   * A writer nobody interferes with: its temporary file appears, holds what was written so far, and all of it in the
   * end. If the rename goes through, the page alone has changed; otherwise, or if the write fails, cleaning up leaves
   * nothing behind, unless it fails as well.
   */
  lemma AloneWrites(jobs: map<Wid, Job>, s: State, w: Wid, temp: string, n: nat, fails: bool)
    requires w in jobs && w in s.phases && s.phases[w].Idle? && IsTemp(temp) && temp !in s.dir
    requires !IsTemp(jobs[w].target) && n <= |jobs[w].raw|
    ensures Enabled(jobs, s, Open(w, temp)) && var open := Apply(jobs, s, Open(w, temp));
      && open.dir == s.dir[temp := ""]
      && Enabled(jobs, open, Fill(w, n)) && var part := Apply(jobs, open, Fill(w, n));
      && part.dir == s.dir[temp := jobs[w].raw[..n]]
      && Enabled(jobs, part, FillEnds(w, true)) && var full := Apply(jobs, part, FillEnds(w, true));
      && full.dir == s.dir[temp := jobs[w].raw]
      && Enabled(jobs, full, Rename(w, fails)) && var last := Apply(jobs, full, Rename(w, fails));
      if !fails && (jobs[w].noReplace ==> jobs[w].target !in s.dir)
      then last == State(s.dir[jobs[w].target := jobs[w].raw], s.phases[w := Over], s.done + [w])
      else CleansUp(jobs, s, last, w, temp)
    ensures var part := Apply(jobs, Apply(jobs, s, Open(w, temp)), Fill(w, n));
      CleansUp(jobs, s, Apply(jobs, part, FillEnds(w, false)), w, temp)
  {
  }

  /** Cleaning up takes the temporary file away, unless it fails. */
  predicate CleansUp(jobs: map<Wid, Job>, s: State, failed: State, w: Wid, temp: string) {
    && Enabled(jobs, failed, CleanUp(w, false)) && Enabled(jobs, failed, CleanUp(w, true)) && temp in failed.dir
    && Apply(jobs, failed, CleanUp(w, false)) == State(s.dir, s.phases[w := Over], s.done)
    && Apply(jobs, failed, CleanUp(w, true)) == State(failed.dir, s.phases[w := Over], s.done)
  }

  /** What the page should hold: the bytes of the last writer renamed onto it, or what was there before. */
  function Expected(jobs: map<Wid, Job>, dir0: map<string, Bytes>, done: seq<Wid>, name: string): Option<Bytes> {
    if done == [] then (if name in dir0 then Some(dir0[name]) else None)
    else
      var w := done[|done| - 1];
      if w in jobs && jobs[w].target == name then Some(jobs[w].raw)
      else Expected(jobs, dir0, done[..|done| - 1], name)
  }

  predicate Busy(p: Phase) {
    p.Filling? || p.Filled? || p.Cleaning?
  }

  /** Each busy writer has a temporary name of its own. */
  ghost predicate TempsApart(s: State) {
    && (forall w :: w in s.phases && Busy(s.phases[w]) ==> IsTemp(s.phases[w].temp) && s.phases[w].temp in s.dir)
    && (forall w, v :: w in s.phases && v in s.phases && w != v && Busy(s.phases[w]) && Busy(s.phases[v]) ==>
          s.phases[w].temp != s.phases[v].temp)
  }

  /** A writer that is done filling has all its bytes in its temporary file. */
  ghost predicate FilledWhole(jobs: map<Wid, Job>, s: State) {
    forall w :: w in s.phases && w in jobs && s.phases[w].Filled? ==>
      s.phases[w].temp in s.dir && s.dir[s.phases[w].temp] == jobs[w].raw
  }

  ghost predicate WritersApart(jobs: map<Wid, Job>, s: State) {
    TempsApart(s) && FilledWhole(jobs, s)
  }

  ghost predicate PagesWhole(jobs: map<Wid, Job>, dir0: map<string, Bytes>, s: State) {
    forall name :: !IsTemp(name) ==>
      Field(s.dir, name) == Expected(jobs, dir0, s.done, name)
  }

  predicate PageJobs(jobs: map<Wid, Job>) {
    forall w :: w in jobs ==> !IsTemp(jobs[w].target)
  }

  ghost predicate Start(jobs: map<Wid, Job>, s: State) {
    s.done == [] && forall w :: w in s.phases ==> s.phases[w].Idle?
  }

  ghost predicate Next(jobs: map<Wid, Job>, s: State, s': State) {
    exists a :: Enabled(jobs, s, a) && s' == Apply(jobs, s, a)
  }

  ghost predicate StepAt(jobs: map<Wid, Job>, run: seq<State>, i: int) {
    0 < i < |run| && Next(jobs, run[i - 1], run[i])
  }

  ghost predicate IsRun(jobs: map<Wid, Job>, run: seq<State>) {
    && |run| > 0 && Start(jobs, run[0])
    && forall i :: 0 < i < |run| ==> StepAt(jobs, run, i)
  }

  lemma TempsStep(jobs: map<Wid, Job>, s: State, a: Action)
    requires PageJobs(jobs) && TempsApart(s) && Enabled(jobs, s, a)
    ensures TempsApart(Apply(jobs, s, a))
  {
  }

  lemma FilledStep(jobs: map<Wid, Job>, s: State, a: Action)
    requires PageJobs(jobs) && WritersApart(jobs, s) && Enabled(jobs, s, a)
    ensures FilledWhole(jobs, Apply(jobs, s, a))
  {
  }

  lemma WholeStep(jobs: map<Wid, Job>, dir0: map<string, Bytes>, s: State, a: Action)
    requires PageJobs(jobs) && WritersApart(jobs, s) && PagesWhole(jobs, dir0, s) && Enabled(jobs, s, a)
    ensures PagesWhole(jobs, dir0, Apply(jobs, s, a))
  {
    var s' := Apply(jobs, s, a);
    PagesStep(jobs, s, a);
    if s'.done != s.done { assert s'.done == s.done + [a.w] && s'.done[..|s.done|] == s.done; }
  }

  /** A step changes no page, but for a rename that goes through, which puts all the bytes of its writer in place. */
  lemma PagesStep(jobs: map<Wid, Job>, s: State, a: Action)
    requires PageJobs(jobs) && WritersApart(jobs, s) && Enabled(jobs, s, a)
    ensures var s' := Apply(jobs, s, a);
      && (s'.done == s.done || s'.done == s.done + [a.w])
      && forall name :: !IsTemp(name) ==>
           Field(s'.dir, name) == if s'.done != s.done && name == jobs[a.w].target then Some(jobs[a.w].raw)
                                  else Field(s.dir, name)
  {
  }

  function Field(dir: map<string, Bytes>, name: string): Option<Bytes> {
    if name in dir then Some(dir[name]) else None
  }

  /**
   * At every point of every interleaving of page writes, whatever fails and wherever the run is cut off, a
   * page holds all the bytes of the last write renamed onto it, or what it held before the run.
   */
  lemma {:induction false} PagesNeverTorn(jobs: map<Wid, Job>, run: seq<State>, i: nat)
    requires PageJobs(jobs) && IsRun(jobs, run) && i < |run|
    ensures WritersApart(jobs, run[i]) && PagesWhole(jobs, run[0].dir, run[i])
  {
    if i > 0 {
      PagesNeverTorn(jobs, run, i - 1);
      assert StepAt(jobs, run, i);
      var a :| Enabled(jobs, run[i - 1], a) && run[i] == Apply(jobs, run[i - 1], a);
      TempsStep(jobs, run[i - 1], a);
      FilledStep(jobs, run[i - 1], a);
      WholeStep(jobs, run[0].dir, run[i - 1], a);
    }
  }

  predicate AllCreate(jobs: map<Wid, Job>) {
    forall w :: w in jobs ==> jobs[w].noReplace
  }

  /** Something has been renamed onto `name`, or it was there from the start. */
  lemma {:induction false} ExpectedSome(jobs: map<Wid, Job>, dir0: map<string, Bytes>, done: seq<Wid>, name: string)
    ensures Expected(jobs, dir0, done, name).Some? <==>
              name in dir0 || exists i :: 0 <= i < |done| && done[i] in jobs && jobs[done[i]].target == name
  {
    if done != [] {
      var init := done[..|done| - 1];
      ExpectedSome(jobs, dir0, init, name);
      if exists i :: 0 <= i < |init| && init[i] in jobs && jobs[init[i]].target == name {
        var i :| 0 <= i < |init| && init[i] in jobs && jobs[init[i]].target == name;
        assert done[i] == init[i];
      }
      if exists i :: 0 <= i < |done| && done[i] in jobs && jobs[done[i]].target == name {
        var i :| 0 <= i < |done| && done[i] in jobs && jobs[done[i]].target == name;
        if i < |init| { assert init[i] == done[i]; }
      }
    }
  }

  ghost predicate OneCreator(jobs: map<Wid, Job>, dir0: map<string, Bytes>, done: seq<Wid>) {
    && (forall i :: 0 <= i < |done| ==> done[i] in jobs && jobs[done[i]].target !in dir0)
    && (forall i, j :: 0 <= i < j < |done| ==> jobs[done[i]].target != jobs[done[j]].target)
  }

  lemma CreateStep(jobs: map<Wid, Job>, dir0: map<string, Bytes>, s: State, a: Action)
    requires PageJobs(jobs) && AllCreate(jobs) && Enabled(jobs, s, a)
    requires OneCreator(jobs, dir0, s.done) && PagesWhole(jobs, dir0, s)
    ensures OneCreator(jobs, dir0, Apply(jobs, s, a).done)
  {
    if a.Rename? { ExpectedSome(jobs, dir0, s.done, jobs[a.w].target); }
  }

  lemma CreateNext(jobs: map<Wid, Job>, dir0: map<string, Bytes>, s: State, s': State)
    requires PageJobs(jobs) && AllCreate(jobs) && Next(jobs, s, s')
    requires OneCreator(jobs, dir0, s.done) && PagesWhole(jobs, dir0, s)
    ensures OneCreator(jobs, dir0, s'.done)
  {
    var a :| Enabled(jobs, s, a) && s' == Apply(jobs, s, a);
    CreateStep(jobs, dir0, s, a);
  }

  lemma {:induction false} OneCreatorAlways(jobs: map<Wid, Job>, run: seq<State>, i: nat)
    requires PageJobs(jobs) && AllCreate(jobs) && IsRun(jobs, run) && i < |run|
    ensures OneCreator(jobs, run[0].dir, run[i].done)
  {
    if i > 0 {
      OneCreatorAlways(jobs, run, i - 1);
      PagesNeverTorn(jobs, run, i - 1);
      assert StepAt(jobs, run, i);
      CreateNext(jobs, run[0].dir, run[i - 1], run[i]);
    }
  }

  /** Among interleaved Creates at most one succeeds per path, none on a path that existed; the page is its bytes. */
  lemma AtMostOneCreate(jobs: map<Wid, Job>, run: seq<State>, i: nat, k: nat)
    requires PageJobs(jobs) && AllCreate(jobs) && IsRun(jobs, run) && i < |run| && k < |run[i].done|
    ensures run[i].done[k] in jobs
    ensures var job := jobs[run[i].done[k]];
      && job.target !in run[0].dir && job.target in run[i].dir && run[i].dir[job.target] == job.raw
      && forall j :: 0 <= j < |run[i].done| && j != k ==>
            run[i].done[j] in jobs && jobs[run[i].done[j]].target != job.target
  {
    OneCreatorAlways(jobs, run, i);
    PagesNeverTorn(jobs, run, i);
    CreatorsKeep(jobs, run[0].dir, run[i]);
  }

  lemma CreatorsKeep(jobs: map<Wid, Job>, dir0: map<string, Bytes>, s: State)
    requires PageJobs(jobs) && OneCreator(jobs, dir0, s.done) && PagesWhole(jobs, dir0, s)
    ensures forall k :: 0 <= k < |s.done| ==>
              var job := jobs[s.done[k]]; job.target in s.dir && s.dir[job.target] == job.raw
  {
    forall k | 0 <= k < |s.done|
      ensures var job := jobs[s.done[k]]; job.target in s.dir && s.dir[job.target] == job.raw
    {
      LastIsOnly(jobs, dir0, s.done, k);
    }
  }

  lemma {:induction false} LastIsOnly(jobs: map<Wid, Job>, dir0: map<string, Bytes>, done: seq<Wid>, k: nat)
    requires OneCreator(jobs, dir0, done) && k < |done|
    ensures Expected(jobs, dir0, done, jobs[done[k]].target) == Some(jobs[done[k]].raw)
  {
    if k < |done| - 1 {
      var init := done[..|done| - 1];
      assert init[k] == done[k];
      LastIsOnly(jobs, dir0, init, k);
    }
  }
}
