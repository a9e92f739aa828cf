/**
 * The backup service itself: one method per stretch of code between two awaits, each tied to the protocol's step
 * (backend-nest/src/backup/tenant-backup.service.ts:54-81, 153-243, 311-344).
 */
module BackupService {
  import opened Wrappers
  import opened BackupStorage
  import opened BackupProtocol

  class TenantBackups {
    const hash: Hash
    var jobs: map<JobId, Job>
    var known: seq<JobId>
    var asked: multiset<Tenant>
    var running: set<Tenant>
    var active: map<JobId, Phase>
    var dirs: map<Tenant, Directory>

    constructor (hash: Hash, dirs: map<Tenant, Directory>)
      ensures this.hash == hash && Now() == Fresh(dirs) && Valid()
    {
      this.hash, this.dirs := hash, dirs;
      jobs, known, asked, running, active := map[], [], multiset{}, {}, map[];
      new;
      RestartKeeps(hash, Fresh(dirs));
    }

    ghost function Now(): Service
      reads this
    {
      Service(jobs, known, asked, running, active, dirs)
    }

    /** What every stretch of code keeps, whatever its outcome. */
    ghost predicate Valid()
      reads this
    {
      Inv(hash, Now())
    }

    /** Answers the job in flight if there is one; otherwise the call goes on to ask for the factory's name. */
    method Enqueue(t: Tenant) returns (existing: Option<JobId>)
      modifies this
      ensures old(Valid()) ==> Valid() && Protected(hash, old(Now()), Now())
      ensures Now() == Look(old(Now()), t)
      ensures existing.None? <==> !InFlight(jobs, known, t)
      ensures existing.Some? ==> existing.value in known && existing.value in jobs
      ensures existing.Some? ==> jobs[existing.value].tenant == t && Waits(jobs[existing.value])
    {
      hide Inv, Protected;
      if Inv(hash, Now()) {
        LookKeeps(hash, Now(), t);
        KeptWhenSame(hash, Now());
      }
      var list := ByStart(jobs, known);
      for i := 0 to |list|
        invariant forall k :: 0 <= k < i && list[k] in jobs ==> !(jobs[list[k]].tenant == t && Waits(jobs[list[k]]))
        invariant Now() == old(Now())
      {
        var id := list[i];
        assert id in list;
        if id in jobs && jobs[id].tenant == t && Waits(jobs[id]) {
          return Some(id);
        }
      }
      assert !InFlight(jobs, known, t);
      asked := asked + multiset{t};
      existing := None;
    }

    /** The new job runs exactly when its factory has no run, and is then the only run of that factory. */
    method Register(t: Tenant, id: JobId, now: int)
      requires t in asked && id !in jobs
      modifies this
      ensures Now() == Create(old(Now()), t, id, now)
      ensures old(Valid()) ==> Valid() && Protected(hash, old(Now()), Now())
      ensures old(Valid()) ==> (id in active <==> t !in old(running)) && (id in active ==> OnlyRun(Now(), id, t))
      ensures id in known && id in jobs && jobs[id].tenant == t && Waits(jobs[id])
    {
      hide Inv, Protected, OnlyRun, Create;
      RegisterFacts(hash, Now(), t, id, now);
      CreatedAs(Now(), t, id, now);
      asked := asked - multiset{t};
      jobs := jobs[id := Job(t, Queued, now, None, false)];
      known := known + [id];
      if t in running {
        assert running + {t} == running;
        return;
      }
      running := running + {t};
      jobs := jobs[id := jobs[id].(state := Running)];
      assert jobs == old(jobs)[id := Job(t, Running, now, None, false)];
      active := active[id := Opening];
    }

    method AfterOpening(id: JobId)
      requires id in active && id in jobs && active[id].Opening?
      modifies this
      ensures old(Valid()) ==> Valid() && Protected(hash, old(Now()), Now())
      ensures Now() == Open(old(Now()), id)
    {
      hide Inv, Protected;
      if Inv(hash, Now()) {
        OpenKeeps(hash, Now(), id);
      }
      active := active[id := Snapshotting];
      assert jobs == jobs[id := jobs[id]];
    }

    /** No file is touched; without a snapshot the run fails. */
    method AfterSnapshot(id: JobId, buffer: Option<seq<int>>, name: string)
      requires id in active && id in jobs && active[id].Snapshotting?
      modifies this
      ensures old(Valid()) ==> Valid() && Protected(hash, old(Now()), Now())
      ensures dirs == old(dirs) && id in jobs
      ensures old(Valid()) ==> (jobs[id].state == Failed <==> buffer.None?)
      ensures Now() == Snap(old(Now()), id, buffer, name)
    {
      hide Inv, Protected;
      if Inv(hash, Now()) {
        SnapKeeps(hash, Now(), id, buffer, name);
        RunFacts(hash, Now(), id);
      }
      match buffer
      case None => Catch(id);
      case Some(bytes) =>
        active := active[id := Writing(name, bytes)];
        assert jobs == jobs[id := jobs[id]];
    }

    /**
     * What landed is in the factory's directory even if the write threw. It verifies exactly when it is not empty and
     * has the checksum of what should have been written, and no other file of any factory is touched.
     */
    method AfterWrite(id: JobId, landed: Option<seq<int>>, now: int, thrown: bool)
      requires id in active && id in jobs && active[id].Writing?
      requires landed.None? ==> thrown
      modifies this
      ensures old(Valid()) && Clocked(old(Now()), Written(id, landed, now, thrown)) ==> Valid() && Protected(hash, old(Now()), Now())
      ensures var (t, name) := (old(jobs[id].tenant), old(active[id].name));
              && (landed.Some? ==> name in DirOf(Now(), t))
              && (landed.Some? ==>
                    (Passes(hash, DirOf(Now(), t)[name]) <==> landed.value != [] && hash(landed.value) == hash(old(active[id].buffer))))
              && (forall n :: n != name ==> (n in DirOf(Now(), t) <==> n in DirOf(old(Now()), t)))
              && (forall n :: n != name && n in DirOf(Now(), t) ==> DirOf(Now(), t)[n] == DirOf(old(Now()), t)[n])
              && (forall u :: u != t ==> DirOf(Now(), u) == DirOf(old(Now()), u))
      ensures Now() == Put(hash, old(Now()), id, landed, now, thrown)
    {
      hide Inv, Protected, Clocked, Passes;
      if Inv(hash, Now()) && Clocked(Now(), Written(id, landed, now, thrown)) {
        WriteKeeps(hash, Now(), id, landed, now, thrown);
      }
      WriteFacts(hash, Now(), id, landed, now, thrown);
      var job, name, checksum := jobs[id], active[id].name, hash(active[id].buffer);
      if landed.Some? {
        var dir := if job.tenant in dirs then dirs[job.tenant] else map[];
        dirs := dirs[job.tenant := dir[name := Stored(now, landed.value, checksum)]];
      }
      if thrown {
        Catch(id);
      } else {
        jobs := jobs[id := job.(file := Some(name))];
        active := active[id := Verifying(name, checksum)];
      }
    }

    /** `verifyFile` and what `run` makes of its answer: done means that the file on disk verifies. */
    method AfterReadBack(id: JobId, readable: bool)
      requires id in active && id in jobs && active[id].Verifying?
      modifies this
      ensures old(Valid()) ==> Valid() && Protected(hash, old(Now()), Now())
      ensures id in jobs
      ensures old(Valid()) ==>
                var dir := DirOf(Now(), jobs[id].tenant);
                && old(active[id].written) in dir && dirs == old(dirs)
                && (jobs[id].state == Done <==> readable && Passes(hash, dir[old(active[id].written)]))
                && (jobs[id].state == Done ==> HasGood(hash, dir))
      ensures Now() == Verify(hash, old(Now()), id, readable)
    {
      hide Inv, Protected, Passes, HasGood;
      ReadBackFacts(hash, Now(), id, readable);
      var name, checksum := active[id].written, active[id].checksum;
      var dir := if jobs[id].tenant in dirs then dirs[jobs[id].tenant] else map[];
      var verified := false;
      if readable && name in dir {
        if |dir[name].contents| > 0 {
          verified := hash(dir[name].contents) == checksum;
        }
      }
      jobs := jobs[id := jobs[id].(verified := verified, state := Done)];
      if !verified {
        jobs := jobs[id := jobs[id].(state := Failed)];
      }
      active := active[id := Closing];
      assert Now() == Verify(hash, old(Now()), id, readable);
    }

    /** Only a finished backup prunes; any other run is over and its factory free for the next. */
    method AfterClosing(id: JobId)
      requires id in active && id in jobs && active[id].Closing?
      modifies this
      ensures old(Valid()) ==> Valid() && Protected(hash, old(Now()), Now())
      ensures dirs == old(dirs) && id in jobs
      ensures old(Valid()) ==> (id in active <==> jobs[id].state == Done) && (jobs[id].tenant in running <==> jobs[id].state == Done)
      ensures Now() == Close(old(Now()), id)
    {
      if Inv(hash, Now()) {
        CloseKeeps(hash, Now(), id);
        RunFacts(hash, Now(), id);
      }
      hide Inv, Protected;
      if jobs[id].state == Done {
        active := active[id := Listing];
        assert jobs == jobs[id := jobs[id]];
      } else {
        Finally(id);
      }
    }

    /** `prune`, up to its first unlink; the run's own verified file is not among the candidates. */
    method AfterListing(id: JobId, cutoff: int, thrown: bool) returns (ghost names: Option<seq<string>>)
      requires id in active && id in jobs && active[id].Listing?
      modifies this
      ensures old(Valid()) ==> Valid() && Protected(hash, old(Now()), Now())
      ensures old(Valid()) && id in active && active[id].Pruning? ==>
                jobs[id].file.Some? && jobs[id].file.value !in active[id].candidates
      ensures names.Some? <==> !thrown
      ensures names.Some? ==> NewestFirst(DirOf(old(Now()), old(jobs[id].tenant)), names.value)
      ensures Now() == List(old(Now()), id, names, cutoff)
    {
      hide Inv, Protected;
      ghost var before := Now();
      if thrown {
        names := None;
        if Inv(hash, before) {
          ListKeeps(hash, before, id, names, cutoff);
        }
        Catch(id);
        return;
      }
      var dir := if jobs[id].tenant in dirs then dirs[jobs[id].tenant] else map[];
      var list := ListDirectory(dir);
      names := Some(list);
      if Inv(hash, before) {
        ListKeeps(hash, before, id, names, cutoff);
        OwnFileSpared(hash, List(before, id, names, cutoff), id);
      }
      var candidates := Candidates(dir, list, 1, cutoff);
      if candidates == [] {
        Finally(id);
      } else {
        active := active[id := Pruning(candidates)];
        assert jobs == jobs[id := jobs[id]];
      }
    }

    /** One candidate goes or is skipped; the run's own file stays, newest and verified, and the last one ends the run. */
    method AfterUnlink(id: JobId, thrown: bool)
      requires id in active && id in jobs && active[id].Pruning? && active[id].candidates != []
      modifies this
      ensures old(Valid()) ==> Valid() && Protected(hash, old(Now()), Now())
      ensures id in jobs
      ensures old(Valid()) ==>
                var (dir, own) := (DirOf(Now(), jobs[id].tenant), jobs[id].file);
                own.Some? && Newest(dir, own.value) && Passes(hash, dir[own.value])
      ensures id in active <==> |old(active[id].candidates)| > 1
      ensures Now() == Unlink(old(Now()), id, thrown)
    {
      if Inv(hash, Now()) {
        UnlinkKeeps(hash, Now(), id, thrown);
        RunFacts(hash, Now(), id);
        OwnFileStays(hash, Now(), id, thrown);
      }
      hide Inv, Protected, Newest, Passes, JobOk;
      var t, candidates := jobs[id].tenant, active[id].candidates;
      if !thrown {
        var dir := if t in dirs then dirs[t] else map[];
        dirs := dirs[t := dir - {candidates[0]}];
      }
      if |candidates| == 1 {
        Finally(id);
      } else {
        active := active[id := Pruning(candidates[1..])];
        assert jobs == jobs[id := jobs[id]];
      }
    }

    method Catch(id: JobId)
      requires id in active && id in jobs
      modifies this
      ensures Now() == Fail(old(Now()), id)
    {
      jobs := jobs[id := jobs[id].(state := Failed)];
      active := active[id := Closing];
    }

    method Finally(id: JobId)
      requires id in active && id in jobs
      modifies this
      ensures Now() == Finish(old(Now()), id)
    {
      running := running - {jobs[id].tenant};
      active := active - {id};
      known := Remembered(jobs, known);
    }
  }

  lemma KeptWhenSame(hash: Hash, s: Service)
    ensures Protected(hash, s, s)
  {
    SameIsProtected(hash, s);
  }

  /** The factory has this run and no other. */
  ghost predicate OnlyRun(s: Service, id: JobId, t: Tenant) {
    forall x :: At(s, x) && s.jobs[x].tenant == t <==> x == id
  }

  lemma CreatedAs(s: Service, t: Tenant, id: JobId, now: int)
    requires t in s.asked && id !in s.jobs
    ensures var state := if t in s.running then Queued else Running;
            var active := if t in s.running then s.active else s.active[id := Opening];
            Create(s, t, id, now)
              == Service(s.jobs[id := Job(t, state, now, None, false)], s.known + [id], s.asked - multiset{t}, s.running + {t}, active, s.dirs)
  {
  }

  lemma RegisterFacts(hash: Hash, s: Service, t: Tenant, id: JobId, now: int)
    requires t in s.asked && id !in s.jobs
    ensures var s' := Create(s, t, id, now);
            Inv(hash, s) ==>
              Inv(hash, s') && Protected(hash, s, s') && (id in s'.active <==> t !in s.running) && (id in s'.active ==> OnlyRun(s', id, t))
  {
    if Inv(hash, s) {
      CreateKeeps(hash, s, t, id, now);
      ActiveAreJobs(s);
      hide JobsOk, Protected;
      var s' := Create(s, t, id, now);
      forall x | id in s'.active && At(s', x) && s'.jobs[x].tenant == t
        ensures x == id
      {
        assert Apart(s', x, id);
      }
    }
  }

  /** What a write leaves in the directories. */
  lemma WriteFacts(hash: Hash, s: Service, id: JobId, landed: Option<seq<int>>, now: int, thrown: bool)
    requires At(s, id) && s.active[id].Writing? && (landed.None? ==> thrown)
    ensures var s' := Put(hash, s, id, landed, now, thrown);
            var t, name := s.jobs[id].tenant, s.active[id].name;
            && (landed.Some? ==> name in DirOf(s', t))
            && (landed.Some? ==> (Passes(hash, DirOf(s', t)[name]) <==> landed.value != [] && hash(landed.value) == hash(s.active[id].buffer)))
            && (forall n :: n != name ==> (n in DirOf(s', t) <==> n in DirOf(s, t)))
            && (forall n :: n != name && n in DirOf(s', t) ==> DirOf(s', t)[n] == DirOf(s, t)[n])
            && (forall u :: u != t ==> DirOf(s', u) == DirOf(s, u))
  {
  }

  lemma ReadBackFacts(hash: Hash, s: Service, id: JobId, readable: bool)
    requires At(s, id) && s.active[id].Verifying?
    ensures var s' := Verify(hash, s, id, readable);
            var dir := DirOf(s, s.jobs[id].tenant);
            Inv(hash, s) ==>
              && Inv(hash, s') && Protected(hash, s, s')
              && s.active[id].written in dir
              && (s'.jobs[id].state == Done <==> readable && Passes(hash, dir[s.active[id].written]))
              && (s'.jobs[id].state == Done ==> HasGood(hash, dir))
  {
    hide Inv, Protected;
    if Inv(hash, s) {
      VerifyKeeps(hash, s, id, readable);
      RunFacts(hash, s, id);
    }
  }

  lemma OwnFileSpared(hash: Hash, s: Service, id: JobId)
    requires Inv(hash, s)
    ensures At(s, id) && s.active[id].Pruning? ==> s.jobs[id].file.Some? && s.jobs[id].file.value !in s.active[id].candidates
  {
    if At(s, id) && s.active[id].Pruning? {
      RunFacts(hash, s, id);
    }
  }

  lemma OwnFileStays(hash: Hash, s: Service, id: JobId, thrown: bool)
    requires Inv(hash, s) && At(s, id) && s.active[id].Pruning? && s.active[id].candidates != []
    ensures var t := s.jobs[id].tenant;
            var dir := if thrown then DirOf(s, t) else DirOf(s, t) - {s.active[id].candidates[0]};
            s.jobs[id].file.Some? && Newest(dir, s.jobs[id].file.value) && Passes(hash, dir[s.jobs[id].file.value])
  {
    hide Inv, Passes;
    RunFacts(hash, s, id);
    assert s.active[id].candidates[0] in s.active[id].candidates;
    StillNewest(hash, DirOf(s, s.jobs[id].tenant), s.jobs[id].file.value, s.active[id].candidates[0]);
  }
}
