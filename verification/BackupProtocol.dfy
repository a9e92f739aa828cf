/**
 * Backup jobs of many factories, interleaved at every `await`
 * (backend-nest/src/backup/tenant-backup.service.ts:153-243, 311-344).
 *
 * One action is one stretch of code between two awaits, with the outcome of the awaited call as its argument; any
 * action of any job may come next. A restart, which loses everything but the files, may come at any moment too.
 */
module BackupProtocol {
  import opened Wrappers
  import opened BackupStorage

  type Tenant = string
  type JobId = nat

  datatype State = Queued | Running | Done | Failed

  datatype Job = Job(tenant: Tenant, state: State, startedAt: int, file: Option<string>, verified: bool)

  /** What a run is waiting for. */
  datatype Phase =
    | Opening
    | Snapshotting
    | Writing(name: string, buffer: seq<int>)
    | Verifying(written: string, checksum: string)
    | Closing
    | Listing
    | Pruning(candidates: seq<string>)

  /**
   * `jobs` are the job objects, `known` those still in the service's job list, in insertion order; `asked` are
   * the calls that saw no job in flight and wait for the factory's name; `active` are the runs under way.
   */
  datatype Service = Service(
    jobs: map<JobId, Job>, known: seq<JobId>, asked: multiset<Tenant>, running: set<Tenant>, active: map<JobId, Phase>,
    dirs: map<Tenant, Directory>)

  const EMPTY := Service(map[], [], multiset{}, {}, map[], map[])
  const REMEMBERED: nat := 50

  function DirOf(s: Service, t: Tenant): Directory {
    if t in s.dirs then s.dirs[t] else map[]
  }

  function SetDir(s: Service, t: Tenant, dir: Directory): Service {
    s.(dirs := s.dirs[t := dir])
  }

  function Move(s: Service, id: JobId, job: Job, phase: Phase): Service {
    s.(jobs := s.jobs[id := job], active := s.active[id := phase])
  }

  predicate At(s: Service, id: JobId) {
    id in s.active && id in s.jobs
  }

  // ------------------------------------------------------------------ the job list

  predicate Waits(j: Job) {
    j.state == Queued || j.state == Running
  }

  predicate InFlight(jobs: map<JobId, Job>, known: seq<JobId>, t: Tenant) {
    exists id :: id in known && id in jobs && jobs[id].tenant == t && Waits(jobs[id])
  }

  function Started(jobs: map<JobId, Job>, id: JobId): int {
    if id in jobs then jobs[id].startedAt else 0
  }

  function InsertByStart(jobs: map<JobId, Job>, id: JobId, sorted: seq<JobId>): (r: seq<JobId>)
    ensures forall x :: x in r <==> x == id || x in sorted
  {
    if sorted == [] then [id]
    else if Started(jobs, id) >= Started(jobs, sorted[0]) then [id] + sorted
    else [sorted[0]] + InsertByStart(jobs, id, sorted[1..])
  }

  /** `listJobs`: the latest start first, ties in insertion order. */
  function ByStart(jobs: map<JobId, Job>, known: seq<JobId>): (r: seq<JobId>)
    ensures forall x :: x in r <==> x in known
  {
    if known == [] then [] else InsertByStart(jobs, known[0], ByStart(jobs, known[1..]))
  }

  function Keep(known: seq<JobId>, kept: seq<JobId>): (r: seq<JobId>)
    ensures forall x :: x in r <==> x in known && x in kept
  {
    if known == [] then []
    else (if known[0] in kept then [known[0]] else []) + Keep(known[1..], kept)
  }

  /** `forgetOldJobs`. */
  function Remembered(jobs: map<JobId, Job>, known: seq<JobId>): (r: seq<JobId>)
    ensures forall x :: x in r ==> x in known
  {
    var all := ByStart(jobs, known);
    Keep(known, if |all| <= REMEMBERED then all else all[..REMEMBERED])
  }

  ghost predicate LatestFirst(jobs: map<JobId, Job>, ids: seq<JobId>) {
    forall i, j :: 0 <= i < j < |ids| ==> Started(jobs, ids[i]) >= Started(jobs, ids[j])
  }

  lemma {:induction false} InsertKeepsLatestFirst(jobs: map<JobId, Job>, id: JobId, sorted: seq<JobId>)
    requires LatestFirst(jobs, sorted)
    ensures LatestFirst(jobs, InsertByStart(jobs, id, sorted))
  {
    if sorted != [] && Started(jobs, id) < Started(jobs, sorted[0]) {
      var tail := sorted[1..];
      assert forall i :: 0 <= i < |tail| ==> tail[i] == sorted[i + 1];
      InsertKeepsLatestFirst(jobs, id, tail);
      var rest := InsertByStart(jobs, id, tail);
      forall i | 0 <= i < |rest|
        ensures Started(jobs, sorted[0]) >= Started(jobs, rest[i])
      {
        assert rest[i] in rest;
      }
    }
  }

  lemma {:induction false} ListIsLatestFirst(jobs: map<JobId, Job>, known: seq<JobId>)
    ensures LatestFirst(jobs, ByStart(jobs, known))
  {
    if known != [] {
      ListIsLatestFirst(jobs, known[1..]);
      InsertKeepsLatestFirst(jobs, known[0], ByStart(jobs, known[1..]));
    }
  }

  ghost predicate NoneTwice(ids: seq<JobId>) {
    forall i, j :: 0 <= i < j < |ids| ==> ids[i] != ids[j]
  }

  lemma {:induction false} InsertLength(jobs: map<JobId, Job>, id: JobId, sorted: seq<JobId>)
    requires NoneTwice(sorted) && id !in sorted
    ensures |InsertByStart(jobs, id, sorted)| == |sorted| + 1 && NoneTwice(InsertByStart(jobs, id, sorted))
  {
    if sorted != [] && Started(jobs, id) < Started(jobs, sorted[0]) {
      var tail := sorted[1..];
      assert forall i :: 0 <= i < |tail| ==> tail[i] == sorted[i + 1];
      InsertLength(jobs, id, tail);
      var rest := InsertByStart(jobs, id, tail);
      assert forall i :: 0 <= i < |rest| ==> rest[i] in rest;
    }
  }

  lemma {:induction false} ListLength(jobs: map<JobId, Job>, known: seq<JobId>)
    requires NoneTwice(known)
    ensures |ByStart(jobs, known)| == |known| && NoneTwice(ByStart(jobs, known))
  {
    if known != [] {
      var tail := known[1..];
      assert forall i :: 0 <= i < |tail| ==> tail[i] == known[i + 1];
      ListLength(jobs, tail);
      InsertLength(jobs, known[0], ByStart(jobs, tail));
    }
  }

  lemma {:induction false} KeepsNoneTwice(known: seq<JobId>, kept: seq<JobId>)
    requires NoneTwice(known)
    ensures NoneTwice(Keep(known, kept))
  {
    if known != [] {
      var tail := known[1..];
      assert forall i :: 0 <= i < |tail| ==> tail[i] == known[i + 1];
      KeepsNoneTwice(tail, kept);
      var rest := Keep(tail, kept);
      assert forall i :: 0 <= i < |rest| ==> rest[i] in rest;
    }
  }

  lemma {:induction false} KeepsAll(known: seq<JobId>, kept: seq<JobId>)
    requires forall x :: x in known ==> x in kept
    ensures Keep(known, kept) == known
  {
    if known != [] {
      KeepsAll(known[1..], kept);
    }
  }

  function Elements(ids: seq<JobId>): (r: set<JobId>)
    ensures forall x :: x in r <==> x in ids
  {
    set x | x in ids
  }

  lemma {:induction false} SizeOfList(ids: seq<JobId>)
    requires NoneTwice(ids)
    ensures |Elements(ids)| == |ids|
  {
    if ids == [] {
      assert Elements(ids) == {};
    } else {
      var tail := ids[1..];
      assert forall i :: 0 <= i < |tail| ==> tail[i] == ids[i + 1];
      SizeOfList(tail);
      assert ids[0] !in Elements(tail);
      assert Elements(ids) == {ids[0]} + Elements(tail);
    }
  }

  /** Up to fifty jobs are all remembered, in the order they came; of more, fifty are. */
  lemma FiftyAreRemembered(jobs: map<JobId, Job>, known: seq<JobId>)
    requires NoneTwice(known)
    ensures |known| <= 50 ==> Remembered(jobs, known) == known
    ensures |known| > 50 ==> |Remembered(jobs, known)| == 50
  {
    var all := ByStart(jobs, known);
    ListLength(jobs, known);
    if |known| <= 50 {
      KeepsAll(known, all);
    } else {
      var newest, r := all[..50], Remembered(jobs, known);
      KeepsNoneTwice(known, newest);
      assert forall x :: x in newest ==> x in all;
      SizeOfList(newest);
      SizeOfList(r);
      assert Elements(r) == Elements(newest);
    }
  }

  lemma RememberedOnce(jobs: map<JobId, Job>, known: seq<JobId>)
    requires NoneTwice(known)
    ensures NoneTwice(Remembered(jobs, known))
  {
    var all := ByStart(jobs, known);
    KeepsNoneTwice(known, if |all| <= REMEMBERED then all else all[..REMEMBERED]);
  }

  /** A forgotten job started no later than any remembered one. */
  lemma OnlyTheOldestAreForgotten(jobs: map<JobId, Job>, known: seq<JobId>, kept: JobId, gone: JobId)
    requires kept in Remembered(jobs, known)
    requires gone in known && gone !in Remembered(jobs, known)
    ensures Started(jobs, kept) >= Started(jobs, gone)
  {
    var all := ByStart(jobs, known);
    ListIsLatestFirst(jobs, known);
    var i :| 0 <= i < |all| && all[i] == gone;
    assert |all| > REMEMBERED;
    var newest := all[..REMEMBERED];
    var j :| 0 <= j < |newest| && newest[j] == kept;
    assert forall k :: 0 <= k < REMEMBERED ==> newest[k] in newest;
  }

  // ------------------------------------------------------------------ the stretches of code

  /** `enqueue`, up to the query for the factory's name. */
  function Look(s: Service, t: Tenant): Service {
    if InFlight(s.jobs, s.known, t) then s else s.(asked := s.asked + multiset{t})
  }

  /** `enqueue` after the query, and `run` up to the opening of its record. */
  function Create(s: Service, t: Tenant, id: JobId, now: int): Service {
    if t !in s.asked || id in s.jobs then s
    else
      var job := Job(t, if t in s.running then Queued else Running, now, None, false);
      s.(asked := s.asked - multiset{t}, jobs := s.jobs[id := job], known := s.known + [id],
         running := s.running + {t}, active := if t in s.running then s.active else s.active[id := Opening])
  }

  function Open(s: Service, id: JobId): Service {
    if At(s, id) && s.active[id].Opening? then Move(s, id, s.jobs[id], Snapshotting) else s
  }

  /** The `catch` block, up to the closing of the record; `verified` keeps its value. */
  function Fail(s: Service, id: JobId): Service
    requires At(s, id)
  {
    Move(s, id, s.jobs[id].(state := Failed), Closing)
  }

  /** The snapshot arrives, or throws. */
  function Snap(s: Service, id: JobId, buffer: Option<seq<int>>, name: string): Service {
    if !At(s, id) || !s.active[id].Snapshotting? then s
    else match buffer
      case None => Fail(s, id)
      case Some(bytes) => Move(s, id, s.jobs[id], Writing(name, bytes))
  }

  /** The write ends: something may have landed on disk whether or not it threw. */
  function Put(hash: Hash, s: Service, id: JobId, landed: Option<seq<int>>, now: int, thrown: bool): Service {
    if !At(s, id) || !s.active[id].Writing? || (landed.None? && !thrown) then s
    else
      var job, name, checksum := s.jobs[id], s.active[id].name, hash(s.active[id].buffer);
      var dir := DirOf(s, job.tenant);
      var after := if landed.None? then s else SetDir(s, job.tenant, dir[name := Stored(now, landed.value, checksum)]);
      if thrown then Fail(after, id) else Move(after, id, job.(file := Some(name)), Verifying(name, checksum))
  }

  /** The file is read back, or cannot be. */
  function Verify(hash: Hash, s: Service, id: JobId, readable: bool): Service {
    if !At(s, id) || !s.active[id].Verifying? then s
    else
      var job, name := s.jobs[id], s.active[id].written;
      var dir := DirOf(s, job.tenant);
      var ok := readable && name in dir && |dir[name].contents| > 0 && hash(dir[name].contents) == s.active[id].checksum;
      Move(s, id, job.(verified := ok, state := if ok then Done else Failed), Closing)
  }

  /** The record is closed: a finished backup goes on to prune. */
  function Close(s: Service, id: JobId): Service {
    if !At(s, id) || !s.active[id].Closing? then s
    else if s.jobs[id].state == Done then Move(s, id, s.jobs[id], Listing)
    else Finish(s, id)
  }

  /** The directory is listed for pruning, or listing throws. */
  ghost function List(s: Service, id: JobId, names: Option<seq<string>>, cutoff: int): Service {
    if !At(s, id) || !s.active[id].Listing? then s
    else match names
      case None => Fail(s, id)
      case Some(list) =>
        var dir := DirOf(s, s.jobs[id].tenant);
        if !NewestFirst(dir, list) then s
        else
          var candidates := Candidates(dir, list, 1, cutoff);
          if candidates == [] then Finish(s, id) else Move(s, id, s.jobs[id], Pruning(candidates))
  }

  /** One candidate is unlinked, or skipped when that throws. */
  function Unlink(s: Service, id: JobId, thrown: bool): Service {
    if !At(s, id) || !s.active[id].Pruning? || s.active[id].candidates == [] then s
    else
      var t, candidates := s.jobs[id].tenant, s.active[id].candidates;
      var after := if thrown then s else SetDir(s, t, DirOf(s, t) - {candidates[0]});
      if |candidates| == 1 then Finish(after, id) else Move(after, id, s.jobs[id], Pruning(candidates[1..]))
  }

  /** The `finally` block. */
  function Finish(s: Service, id: JobId): Service
    requires At(s, id)
  {
    s.(running := s.running - {s.jobs[id].tenant}, active := s.active - {id}, known := Remembered(s.jobs, s.known))
  }

  datatype Action =
    | LookUp(tenant: Tenant)
    | Created(tenant: Tenant, id: JobId, now: int)
    | Opened(id: JobId)
    | Snapped(id: JobId, buffer: Option<seq<int>>, name: string)
    | Written(id: JobId, landed: Option<seq<int>>, now: int, thrown: bool)
    | ReadBack(id: JobId, readable: bool)
    | Closed(id: JobId)
    | Listed(id: JobId, names: Option<seq<string>>, cutoff: int)
    | Unlinked(id: JobId, thrown: bool)
    | Restart

  ghost function Step(hash: Hash, s: Service, a: Action): Service {
    match a
    case LookUp(t) => Look(s, t)
    case Created(t, id, now) => Create(s, t, id, now)
    case Opened(id) => Open(s, id)
    case Snapped(id, buffer, name) => Snap(s, id, buffer, name)
    case Written(id, landed, now, thrown) => Put(hash, s, id, landed, now, thrown)
    case ReadBack(id, readable) => Verify(hash, s, id, readable)
    case Closed(id) => Close(s, id)
    case Listed(id, names, cutoff) => List(s, id, names, cutoff)
    case Unlinked(id, thrown) => Unlink(s, id, thrown)
    case Restart => EMPTY.(dirs := s.dirs)
  }

  ghost function Run(hash: Hash, s: Service, actions: seq<Action>): Service
    decreases |actions|
  {
    if actions == [] then s else Run(hash, Step(hash, s, actions[0]), actions[1..])
  }

  /** No job is listed twice, and those listed exist. */
  ghost predicate ListedOnce(s: Service) {
    NoneTwice(s.known) && forall id :: id in s.known ==> id in s.jobs
  }

  /** Over every run the list names no job twice. */
  lemma {:induction false} JobsAreListedOnce(hash: Hash, s: Service, actions: seq<Action>)
    requires ListedOnce(s)
    ensures ListedOnce(Run(hash, s, actions))
    decreases |actions|
  {
    if actions != [] {
      StepKeepsListedOnce(hash, s, actions[0]);
      JobsAreListedOnce(hash, Step(hash, s, actions[0]), actions[1..]);
    }
  }

  lemma StepKeepsListedOnce(hash: Hash, s: Service, a: Action)
    requires ListedOnce(s)
    ensures ListedOnce(Step(hash, s, a))
  {
    hide Remembered, InFlight, NewestFirst, Candidates, DirOf, Create;
    RememberedOnce(s.jobs, s.known);
    match a
    case Created(t, id, now) => CreateListsOnce(s, t, id, now);
    case _ =>
  }

  lemma CreateListsOnce(s: Service, t: Tenant, id: JobId, now: int)
    requires ListedOnce(s)
    ensures ListedOnce(Create(s, t, id, now))
  {
  }

  /** The end of a run, however it ends, leaves at most fifty jobs listed, and all of up to fifty. */
  lemma FinishedRunForgets(hash: Hash, s: Service, a: Action, id: JobId)
    requires ListedOnce(s) && !a.Restart? && id in s.active && id !in Step(hash, s, a).active
    ensures |s.known| <= 50 ==> Step(hash, s, a).known == s.known
    ensures |s.known| > 50 ==> |Step(hash, s, a).known| == 50
  {
    hide Remembered;
    FiftyAreRemembered(s.jobs, s.known);
  }

  /** File names come from the clock and are new; times of writing increase. */
  predicate Clocked(s: Service, a: Action) {
    a.Written? && At(s, a.id) && s.active[a.id].Writing? ==>
      var dir := DirOf(s, s.jobs[a.id].tenant);
      s.active[a.id].name !in dir && forall n :: n in dir ==> dir[n].mtime < a.now
  }

  ghost predicate ClockedRun(hash: Hash, s: Service, actions: seq<Action>)
    decreases |actions|
  {
    actions == [] || (Clocked(s, actions[0]) && ClockedRun(hash, Step(hash, s, actions[0]), actions[1..]))
  }

  // ------------------------------------------------------------------ what every action keeps

  /** The run's own file is verified, newer than any other and out of its own pruning's reach. */
  ghost predicate Safe(hash: Hash, job: Job, dir: Directory, candidates: seq<string>) {
    && job.state == Done && job.verified && job.file.Some? && Newest(dir, job.file.value)
    && Passes(hash, dir[job.file.value]) && job.file.value !in candidates
  }

  ghost predicate JobOk(hash: Hash, job: Job, phase: Phase, dir: Directory) {
    match phase
    case Opening => job.state == Running && !job.verified
    case Snapshotting => job.state == Running && !job.verified
    case Writing(_, _) => job.state == Running && !job.verified
    case Verifying(name, checksum) =>
      job.state == Running && !job.verified && job.file == Some(name) && Newest(dir, name) && dir[name].expected == checksum
    case Closing => job.state == Failed || Safe(hash, job, dir, [])
    case Listing => Safe(hash, job, dir, [])
    case Pruning(candidates) => candidates != [] && Safe(hash, job, dir, candidates)
  }

  /** A finished job is a verified one, and a verified job's factory has a file that verifies. */
  ghost predicate Recorded(hash: Hash, job: Job, dir: Directory) {
    && (job.state == Done ==> job.verified)
    && (job.verified ==> HasGood(hash, dir))
  }

  ghost predicate Held(s: Service, t: Tenant) {
    exists id :: At(s, id) && s.jobs[id].tenant == t
  }

  predicate Apart(s: Service, x: JobId, y: JobId) {
    At(s, x) && At(s, y) && s.jobs[x].tenant == s.jobs[y].tenant ==> x == y
  }

  /** No two runs of one factory at a time, and the `running` set names exactly the factories with a run. */
  ghost predicate OnePerFactory(s: Service) {
    && (forall id :: id in s.active ==> id in s.jobs && s.jobs[id].tenant in s.running)
    && (forall x, y {:trigger Apart(s, x, y)} :: Apart(s, x, y))
    && (forall t {:trigger Held(s, t)} :: t in s.running ==> Held(s, t))
  }

  ghost predicate JobsOk(hash: Hash, s: Service) {
    && (forall id :: At(s, id) ==> JobOk(hash, s.jobs[id], s.active[id], DirOf(s, s.jobs[id].tenant)))
    && (forall id :: id in s.jobs ==> Recorded(hash, s.jobs[id], DirOf(s, s.jobs[id].tenant)))
    && (forall id :: id in s.jobs && id !in s.active ==> s.jobs[id].state != Running)
    && (forall id :: id in s.known ==> id in s.jobs)
  }

  ghost predicate Inv(hash: Hash, s: Service) {
    OnePerFactory(s) && JobsOk(hash, s)
  }

  /** Between two states no verified protection is lost. */
  ghost predicate Protected(hash: Hash, s: Service, s': Service) {
    forall t :: HasGood(hash, DirOf(s, t)) ==> HasGood(hash, DirOf(s', t))
  }

  /** One run moves on: only its own job, phase and directory change. */
  ghost predicate OnlyMoved(s: Service, s': Service, x: JobId) {
    && At(s, x) && s'.jobs.Keys == s.jobs.Keys && s'.active.Keys == s.active.Keys
    && s'.running == s.running && s'.known == s.known && s'.jobs[x].tenant == s.jobs[x].tenant
    && (forall id :: id in s.jobs && id != x ==> s'.jobs[id] == s.jobs[id])
    && (forall id :: id in s.active && id != x ==> s'.active[id] == s.active[id])
    && (forall t :: t != s.jobs[x].tenant ==> DirOf(s', t) == DirOf(s, t))
  }

  lemma SameOwnersKeep(s: Service, s': Service)
    requires OnePerFactory(s) && s'.running == s.running
    requires forall id :: At(s', id) <==> At(s, id)
    requires forall id :: At(s, id) ==> id in s'.jobs && s'.jobs[id].tenant == s.jobs[id].tenant
    requires forall id :: id in s'.active ==> id in s'.jobs
    ensures OnePerFactory(s')
  {
    forall t | t in s'.running
      ensures Held(s', t)
    {
      assert Held(s, t);
      var id :| At(s, id) && s.jobs[id].tenant == t;
      assert At(s', id) && s'.jobs[id].tenant == t;
    }
    forall y, z
      ensures Apart(s', y, z)
    {
      assert Apart(s, y, z);
    }
    forall id | id in s'.active
      ensures id in s'.jobs && s'.jobs[id].tenant in s'.running
    {
      assert At(s', id) && At(s, id);
    }
  }

  lemma MovedOwners(s: Service, s': Service, x: JobId)
    requires OnlyMoved(s, s', x)
    ensures s'.running == s.running
    ensures forall id :: At(s', id) <==> At(s, id)
    ensures forall id :: At(s, id) ==> id in s'.jobs && s'.jobs[id].tenant == s.jobs[id].tenant
  {
    hide DirOf;
    forall id
      ensures At(s', id) <==> At(s, id)
    {
      assert id in s'.jobs <==> id in s.jobs;
      assert id in s'.active <==> id in s.active;
    }
  }

  lemma MoveKeepsOnePerFactory(s: Service, s': Service, x: JobId)
    requires OnePerFactory(s) && OnlyMoved(s, s', x)
    ensures OnePerFactory(s')
  {
    hide DirOf, Held, Apart;
    MovedOwners(s, s', x);
    forall id | id in s'.active
      ensures id in s'.jobs
    {
      assert id in s.active;
    }
    SameOwnersKeep(s, s');
  }

  lemma MoveKeepsJobs(hash: Hash, s: Service, s': Service, x: JobId)
    requires OnePerFactory(s) && JobsOk(hash, s) && OnlyMoved(s, s', x)
    requires JobOk(hash, s'.jobs[x], s'.active[x], DirOf(s', s'.jobs[x].tenant))
    requires Recorded(hash, s'.jobs[x], DirOf(s', s'.jobs[x].tenant))
    requires HasGood(hash, DirOf(s, s.jobs[x].tenant)) ==> HasGood(hash, DirOf(s', s.jobs[x].tenant))
    ensures JobsOk(hash, s')
  {
    hide JobOk, HasGood, DirOf, Held;
    forall id | At(s', id)
      ensures JobOk(hash, s'.jobs[id], s'.active[id], DirOf(s', s'.jobs[id].tenant))
    {
      assert Apart(s, id, x);
    }
    forall id | id in s'.jobs
      ensures Recorded(hash, s'.jobs[id], DirOf(s', s'.jobs[id].tenant))
    {
      if id != x { assert Recorded(hash, s.jobs[id], DirOf(s, s.jobs[id].tenant)); }
    }
  }

  lemma MoveKeeps(hash: Hash, s: Service, s': Service, x: JobId)
    requires Inv(hash, s) && OnlyMoved(s, s', x)
    requires JobOk(hash, s'.jobs[x], s'.active[x], DirOf(s', s'.jobs[x].tenant))
    requires Recorded(hash, s'.jobs[x], DirOf(s', s'.jobs[x].tenant))
    requires HasGood(hash, DirOf(s, s.jobs[x].tenant)) ==> HasGood(hash, DirOf(s', s.jobs[x].tenant))
    ensures Inv(hash, s') && Protected(hash, s, s')
  {
    hide JobOk, HasGood, DirOf, Held, OnePerFactory, JobsOk, Recorded;
    MoveKeepsOnePerFactory(s, s', x);
    MoveKeepsJobs(hash, s, s', x);
  }

  /** What is known of one run. */
  lemma RunFacts(hash: Hash, s: Service, x: JobId)
    requires Inv(hash, s) && At(s, x)
    ensures JobOk(hash, s.jobs[x], s.active[x], DirOf(s, s.jobs[x].tenant))
    ensures Recorded(hash, s.jobs[x], DirOf(s, s.jobs[x].tenant))
  {
    hide JobOk, Recorded, DirOf, OnePerFactory;
  }

  lemma MoveOnly(s: Service, x: JobId, dir: Directory, job: Job, phase: Phase)
    requires At(s, x) && job.tenant == s.jobs[x].tenant
    ensures OnlyMoved(s, Move(s, x, job, phase), x)
    ensures OnlyMoved(s, Move(SetDir(s, job.tenant, dir), x, job, phase), x)
    ensures DirOf(Move(SetDir(s, job.tenant, dir), x, job, phase), job.tenant) == dir
  {
  }

  lemma QuietMoveKeeps(hash: Hash, s: Service, x: JobId, job: Job, phase: Phase)
    requires Inv(hash, s) && At(s, x) && job.tenant == s.jobs[x].tenant
    requires JobOk(hash, job, phase, DirOf(s, job.tenant)) && Recorded(hash, job, DirOf(s, job.tenant))
    ensures Inv(hash, Move(s, x, job, phase)) && Protected(hash, s, Move(s, x, job, phase))
  {
    hide Inv, Protected, JobOk, Recorded, DirOf, HasGood, OnlyMoved;
    MoveOnly(s, x, map[], job, phase);
    SameDirs(s, Move(s, x, job, phase));
    MoveKeeps(hash, s, Move(s, x, job, phase), x);
  }

  lemma DirMoveKeeps(hash: Hash, s: Service, x: JobId, dir: Directory, job: Job, phase: Phase)
    requires Inv(hash, s) && At(s, x) && job.tenant == s.jobs[x].tenant
    requires JobOk(hash, job, phase, dir) && Recorded(hash, job, dir)
    requires HasGood(hash, DirOf(s, job.tenant)) ==> HasGood(hash, dir)
    ensures var s' := Move(SetDir(s, job.tenant, dir), x, job, phase); Inv(hash, s') && Protected(hash, s, s')
  {
    hide Inv, Protected, JobOk, Recorded, DirOf, HasGood, OnlyMoved;
    MoveOnly(s, x, dir, job, phase);
    MoveKeeps(hash, s, Move(SetDir(s, job.tenant, dir), x, job, phase), x);
  }

  lemma FinishKeeps(hash: Hash, s: Service, x: JobId)
    requires Inv(hash, s) && At(s, x)
    requires s.jobs[x].state == Done || s.jobs[x].state == Failed
    ensures Inv(hash, Finish(s, x)) && Protected(hash, s, Finish(s, x))
  {
    hide JobOk, HasGood, Remembered;
    var s' := Finish(s, x);
    forall t | t in s'.running
      ensures Held(s', t)
    {
      assert Held(s, t);
      var id :| At(s, id) && s.jobs[id].tenant == t;
      assert At(s', id);
    }
    forall y, z
      ensures Apart(s', y, z)
    {
      assert Apart(s, y, z);
    }
    assert forall id :: id in s'.active ==> Apart(s, id, x);
  }

  lemma CreateKeepsOnePerFactory(s: Service, t: Tenant, id: JobId, now: int)
    requires OnePerFactory(s)
    ensures OnePerFactory(Create(s, t, id, now))
  {
    var s' := Create(s, t, id, now);
    if s' != s {
      forall y, z
        ensures Apart(s', y, z)
      {
        assert Apart(s, y, z);
      }
      forall u | u in s'.running
        ensures Held(s', u)
      {
        if u in s.running {
          assert Held(s, u);
          var x :| At(s, x) && s.jobs[x].tenant == u;
          assert At(s', x) && s'.jobs[x].tenant == u;
        } else {
          assert At(s', id) && s'.jobs[id].tenant == u;
        }
      }
    }
  }

  lemma CreateKeeps(hash: Hash, s: Service, t: Tenant, id: JobId, now: int)
    requires Inv(hash, s)
    ensures Inv(hash, Create(s, t, id, now)) && Protected(hash, s, Create(s, t, id, now))
  {
    hide HasGood, OnePerFactory, DirOf, Safe;
    var s' := Create(s, t, id, now);
    assert forall x :: x in s.active ==> x in s.jobs by { ActiveAreJobs(s); }
    CreateKeepsOnePerFactory(s, t, id, now);
    if s' != s {
      assert forall u :: DirOf(s', u) == DirOf(s, u) by { SameDirs(s, s'); }
      assert forall x :: x in s'.jobs && x != id ==> x in s.jobs && s'.jobs[x] == s.jobs[x];
      assert forall x :: At(s', x) && x != id ==> At(s, x) && s'.active[x] == s.active[x];
      assert id !in s.active;
      JobsOkAfterCreate(hash, s, s', id);
    }
  }

  lemma ActiveAreJobs(s: Service)
    requires OnePerFactory(s)
    ensures forall x :: x in s.active ==> x in s.jobs
  {
  }

  lemma SameDirs(s: Service, s': Service)
    requires s'.dirs == s.dirs
    ensures forall u :: DirOf(s', u) == DirOf(s, u)
  {
  }

  lemma JobsOkAfterCreate(hash: Hash, s: Service, s': Service, id: JobId)
    requires JobsOk(hash, s) && id in s'.jobs && !s'.jobs[id].verified
    requires forall u :: DirOf(s', u) == DirOf(s, u)
    requires forall x :: x in s'.jobs && x != id ==> x in s.jobs && s'.jobs[x] == s.jobs[x]
    requires forall x :: At(s', x) && x != id ==> At(s, x) && s'.active[x] == s.active[x]
    requires forall x :: x in s.active ==> x in s'.active
    requires if id in s'.active then s'.active[id].Opening? && s'.jobs[id].state == Running else s'.jobs[id].state == Queued
    requires forall x :: x in s'.known ==> x in s'.jobs
    ensures JobsOk(hash, s')
  {
    hide HasGood, DirOf, Safe, Newest;
    forall x | x in s'.jobs
      ensures Recorded(hash, s'.jobs[x], DirOf(s', s'.jobs[x].tenant))
    {
      if x != id { assert Recorded(hash, s.jobs[x], DirOf(s, s.jobs[x].tenant)); }
    }
    forall x | At(s', x)
      ensures JobOk(hash, s'.jobs[x], s'.active[x], DirOf(s', s'.jobs[x].tenant))
    {
      if x != id { assert At(s, x); }
    }
  }

  lemma WriteKeeps(hash: Hash, s: Service, x: JobId, landed: Option<seq<int>>, now: int, thrown: bool)
    requires Inv(hash, s) && Clocked(s, Written(x, landed, now, thrown))
    ensures var s' := Put(hash, s, x, landed, now, thrown); Inv(hash, s') && Protected(hash, s, s')
  {
    hide Inv, Passes, HasGood;
    var s' := Put(hash, s, x, landed, now, thrown);
    if s' != s {
      RunFacts(hash, s, x);
      var job, name, checksum := s.jobs[x], s.active[x].name, hash(s.active[x].buffer);
      var dir := DirOf(s, job.tenant);
      if landed.Some? {
        var dir' := dir[name := Stored(now, landed.value, checksum)];
        MoreFilesKeepGood(hash, dir, dir');
        DirMoveKeeps(hash, s, x, dir', s'.jobs[x], s'.active[x]);
      } else {
        QuietMoveKeeps(hash, s, x, s'.jobs[x], s'.active[x]);
      }
    } else {
      SameIsProtected(hash, s);
    }
  }

  lemma SameIsProtected(hash: Hash, s: Service)
    ensures Protected(hash, s, s)
  {
    hide HasGood, DirOf;
  }

  lemma MoreFilesKeepGood(hash: Hash, dir: Directory, dir': Directory)
    requires forall n :: n in dir ==> n in dir' && dir'[n] == dir[n]
    ensures HasGood(hash, dir) ==> HasGood(hash, dir')
  {
    if HasGood(hash, dir) {
      var n :| n in dir && Passes(hash, dir[n]);
      assert n in dir' && Passes(hash, dir'[n]);
    }
  }

  lemma VerifyKeeps(hash: Hash, s: Service, x: JobId, readable: bool)
    requires Inv(hash, s)
    ensures var s' := Verify(hash, s, x, readable); Inv(hash, s') && Protected(hash, s, s')
  {
    hide Inv, Protected;
    var s' := Verify(hash, s, x, readable);
    SameIsProtected(hash, s);
    if At(s, x) && s.active[x].Verifying? {
      RunFacts(hash, s, x);
      QuietMoveKeeps(hash, s, x, s'.jobs[x], Closing);
    }
  }

  lemma ListKeeps(hash: Hash, s: Service, x: JobId, names: Option<seq<string>>, cutoff: int)
    requires Inv(hash, s)
    ensures var s' := List(s, x, names, cutoff); Inv(hash, s') && Protected(hash, s, s')
  {
    hide Inv, Protected, Candidates, Passes, NewestFirst, Newest, HasGood, DirOf;
    SameIsProtected(hash, s);
    if At(s, x) && s.active[x].Listing? {
      RunFacts(hash, s, x);
      var job, dir := s.jobs[x], DirOf(s, s.jobs[x].tenant);
      if names.None? {
        QuietMoveKeeps(hash, s, x, job.(state := Failed), Closing);
      } else if NewestFirst(dir, names.value) {
        NewestIsKept(dir, names.value, 1, cutoff, job.file.value);
        ListedExist(dir, names.value);
        var candidates := Candidates(dir, names.value, 1, cutoff);
        if candidates == [] {
          FinishKeeps(hash, s, x);
        } else {
          QuietMoveKeeps(hash, s, x, job, Pruning(candidates));
        }
      }
    }
  }

  lemma ListedExist(dir: Directory, names: seq<string>)
    requires NewestFirst(dir, names)
    ensures forall n :: n in names ==> n in dir
  {
  }

  lemma UnlinkKeeps(hash: Hash, s: Service, x: JobId, thrown: bool)
    requires Inv(hash, s)
    ensures var s' := Unlink(s, x, thrown); Inv(hash, s') && Protected(hash, s, s')
  {
    hide Inv, Protected, Passes, HasGood, DirOf, Newest;
    SameIsProtected(hash, s);
    if At(s, x) && s.active[x].Pruning? {
      RunFacts(hash, s, x);
      var job, candidates := s.jobs[x], s.active[x].candidates;
      var dir, file := DirOf(s, job.tenant), s.jobs[x].file.value;
      var gone, rest := candidates[0], candidates[1..];
      assert gone in candidates && forall n :: n in rest ==> n in candidates;
      StillNewest(hash, dir, file, gone);
      if |candidates| > 1 {
        if thrown {
          QuietMoveKeeps(hash, s, x, job, Pruning(rest));
        } else {
          DirMoveKeeps(hash, s, x, dir - {gone}, job, Pruning(rest));
        }
      } else if thrown {
        FinishKeeps(hash, s, x);
      } else {
        LastUnlinkKeeps(hash, s, x, dir - {gone});
      }
    }
  }

  lemma StillNewest(hash: Hash, dir: Directory, file: string, gone: string)
    requires Newest(dir, file) && Passes(hash, dir[file]) && gone != file
    ensures Newest(dir - {gone}, file) && (dir - {gone})[file] == dir[file] && HasGood(hash, dir - {gone})
  {
    assert file in dir - {gone};
  }

  lemma LastUnlinkKeeps(hash: Hash, s: Service, x: JobId, dir: Directory)
    requires Inv(hash, s) && At(s, x) && s.active[x].Pruning? && HasGood(hash, dir)
    requires s.jobs[x].file.Some? && Newest(dir, s.jobs[x].file.value) && Passes(hash, dir[s.jobs[x].file.value])
    ensures var s' := Finish(SetDir(s, s.jobs[x].tenant, dir), x); Inv(hash, s') && Protected(hash, s, s')
  {
    hide Inv, Passes, HasGood, DirOf, Newest;
    RunFacts(hash, s, x);
    var job := s.jobs[x];
    DirMoveKeeps(hash, s, x, dir, job, Listing);
    var between := Move(SetDir(s, job.tenant, dir), x, job, Listing);
    FinishKeeps(hash, between, x);
    assert between.jobs == s.jobs;
    assert between.active - {x} == s.active - {x};
    assert Finish(between, x) == Finish(SetDir(s, job.tenant, dir), x);
  }

  /** Every action, whatever its outcome, keeps one run per factory and loses no factory's protection. */
  lemma StepKeeps(hash: Hash, s: Service, a: Action)
    requires Inv(hash, s) && Clocked(s, a)
    ensures Inv(hash, Step(hash, s, a)) && Protected(hash, s, Step(hash, s, a))
  {
    hide Inv, Protected, Look, Create, Open, Snap, Put, Verify, Close, List, Unlink, Clocked;
    match a
    case LookUp(t) => LookKeeps(hash, s, t);
    case Created(t, id, now) => CreateKeeps(hash, s, t, id, now);
    case Opened(id) => OpenKeeps(hash, s, id);
    case Snapped(id, buffer, name) => SnapKeeps(hash, s, id, buffer, name);
    case Written(id, landed, now, thrown) => WriteKeeps(hash, s, id, landed, now, thrown);
    case ReadBack(id, readable) => VerifyKeeps(hash, s, id, readable);
    case Closed(id) => CloseKeeps(hash, s, id);
    case Listed(id, names, cutoff) => ListKeeps(hash, s, id, names, cutoff);
    case Unlinked(id, thrown) => UnlinkKeeps(hash, s, id, thrown);
    case Restart => RestartKeeps(hash, s);
  }

  lemma RestartKeeps(hash: Hash, s: Service)
    ensures Inv(hash, EMPTY.(dirs := s.dirs)) && Protected(hash, s, EMPTY.(dirs := s.dirs))
  {
    SameDirs(s, EMPTY.(dirs := s.dirs));
  }

  lemma LookKeeps(hash: Hash, s: Service, t: Tenant)
    requires Inv(hash, s)
    ensures Inv(hash, Look(s, t)) && Protected(hash, s, Look(s, t))
  {
    hide JobOk, Recorded, HasGood, InFlight;
    var s' := Look(s, t);
    assert forall u :: Held(s, u) ==> Held(s', u) by {
      forall u | Held(s, u)
        ensures Held(s', u)
      {
        var id :| At(s, id) && s.jobs[id].tenant == u;
        assert At(s', id);
      }
    }
    forall y, z
      ensures Apart(s', y, z)
    {
      assert Apart(s, y, z);
    }
  }

  lemma OpenKeeps(hash: Hash, s: Service, x: JobId)
    requires Inv(hash, s)
    ensures Inv(hash, Open(s, x)) && Protected(hash, s, Open(s, x))
  {
    hide Inv, Protected, HasGood, DirOf;
    SameIsProtected(hash, s);
    if At(s, x) && s.active[x].Opening? {
      RunFacts(hash, s, x);
      QuietMoveKeeps(hash, s, x, s.jobs[x], Snapshotting);
    }
  }

  lemma SnapKeeps(hash: Hash, s: Service, x: JobId, buffer: Option<seq<int>>, name: string)
    requires Inv(hash, s)
    ensures var s' := Snap(s, x, buffer, name); Inv(hash, s') && Protected(hash, s, s')
  {
    hide Inv, Protected, HasGood, DirOf;
    SameIsProtected(hash, s);
    if At(s, x) && s.active[x].Snapshotting? {
      RunFacts(hash, s, x);
      match buffer
      case None => QuietMoveKeeps(hash, s, x, s.jobs[x].(state := Failed), Closing);
      case Some(bytes) => QuietMoveKeeps(hash, s, x, s.jobs[x], Writing(name, bytes));
    }
  }

  lemma CloseKeeps(hash: Hash, s: Service, x: JobId)
    requires Inv(hash, s)
    ensures Inv(hash, Close(s, x)) && Protected(hash, s, Close(s, x))
  {
    hide Inv, Protected, HasGood, DirOf, Passes, Newest;
    SameIsProtected(hash, s);
    if At(s, x) && s.active[x].Closing? {
      RunFacts(hash, s, x);
      if s.jobs[x].state == Done {
        QuietMoveKeeps(hash, s, x, s.jobs[x], Listing);
      } else {
        FinishKeeps(hash, s, x);
      }
    }
  }

  // ------------------------------------------------------------------ over whole runs

  lemma {:induction false} RunKeeps(hash: Hash, s: Service, actions: seq<Action>)
    requires Inv(hash, s) && ClockedRun(hash, s, actions)
    ensures Inv(hash, Run(hash, s, actions)) && Protected(hash, s, Run(hash, s, actions))
    decreases |actions|
  {
    hide Inv, Step, HasGood, DirOf;
    if actions != [] {
      StepKeeps(hash, s, actions[0]);
      RunKeeps(hash, Step(hash, s, actions[0]), actions[1..]);
    }
  }

  /** The service as it comes up, with whatever files earlier processes left. */
  function Fresh(dirs: map<Tenant, Directory>): Service {
    EMPTY.(dirs := dirs)
  }

  lemma FinishKeepsOnePerFactory(s: Service, x: JobId)
    requires OnePerFactory(s) && At(s, x)
    ensures OnePerFactory(Finish(s, x))
  {
    hide Remembered;
    var s' := Finish(s, x);
    forall t | t in s'.running
      ensures Held(s', t)
    {
      assert Held(s, t);
      var id :| At(s, id) && s.jobs[id].tenant == t;
      assert At(s', id);
    }
    forall y, z
      ensures Apart(s', y, z)
    {
      assert Apart(s, y, z);
    }
    assert forall id :: id in s'.active ==> Apart(s, id, x);
  }

  lemma MoveAlongKeepsOnePerFactory(s: Service, x: JobId, job: Job, phase: Phase, dirs: map<Tenant, Directory>)
    requires OnePerFactory(s) && At(s, x) && job.tenant == s.jobs[x].tenant
    ensures OnePerFactory(Move(s.(dirs := dirs), x, job, phase))
  {
    hide Held, Apart;
    SameOwnersKeep(s, Move(s.(dirs := dirs), x, job, phase));
  }

  lemma OtherDirs(s: Service, dirs: map<Tenant, Directory>)
    requires OnePerFactory(s)
    ensures OnePerFactory(s.(dirs := dirs))
  {
    hide Held, Apart;
    SameOwnersKeep(s, s.(dirs := dirs));
  }

  lemma LookKeepsOnePerFactory(s: Service, t: Tenant)
    requires OnePerFactory(s)
    ensures OnePerFactory(Look(s, t))
  {
    hide Held, Apart, InFlight;
    SameOwnersKeep(s, Look(s, t));
  }

  /** Mutual exclusion owes nothing to file names or clocks. */
  lemma StepKeepsOnePerFactory(hash: Hash, s: Service, a: Action)
    requires OnePerFactory(s)
    ensures OnePerFactory(Step(hash, s, a))
  {
    hide OnePerFactory, Move, Finish, At;
    var s' := Step(hash, s, a);
    if a.LookUp? {
      LookKeepsOnePerFactory(s, a.tenant);
    } else if a.Created? {
      CreateKeepsOnePerFactory(s, a.tenant, a.id, a.now);
    } else if a.Restart? {
      NobodyRuns(s.dirs);
    } else if s' != s {
      MovedOn(hash, s, a);
      if a.id in s'.active {
        MoveAlongKeepsOnePerFactory(s, a.id, s'.jobs[a.id], s'.active[a.id], s'.dirs);
      } else {
        OtherDirs(s, s'.dirs);
        StillAt(s, s'.dirs, a.id);
        FinishKeepsOnePerFactory(s.(dirs := s'.dirs), a.id);
      }
    }
  }

  lemma NobodyRuns(dirs: map<Tenant, Directory>)
    ensures OnePerFactory(Fresh(dirs))
  {
  }

  lemma StillAt(s: Service, dirs: map<Tenant, Directory>, id: JobId)
    ensures At(s.(dirs := dirs), id) <==> At(s, id)
  {
  }

  ghost predicate DoneIsVerified(s: Service) {
    forall id :: id in s.jobs && s.jobs[id].state == Done ==> s.jobs[id].verified
  }

  lemma StepKeepsDoneVerified(hash: Hash, s: Service, a: Action)
    requires DoneIsVerified(s)
    ensures DoneIsVerified(Step(hash, s, a))
  {
    hide Remembered, DirOf, Candidates, NewestFirst, InFlight;
  }

  lemma {:induction false} RunKeepsOnePerFactory(hash: Hash, s: Service, actions: seq<Action>)
    requires OnePerFactory(s) && DoneIsVerified(s)
    ensures OnePerFactory(Run(hash, s, actions)) && DoneIsVerified(Run(hash, s, actions))
    decreases |actions|
  {
    hide OnePerFactory, DoneIsVerified, Step;
    if actions != [] {
      StepKeepsOnePerFactory(hash, s, actions[0]);
      StepKeepsDoneVerified(hash, s, actions[0]);
      RunKeepsOnePerFactory(hash, Step(hash, s, actions[0]), actions[1..]);
    }
  }

  /**
   * Whatever is asked for, however it is interleaved and whatever the clock shows, no factory has two backups under
   * way, the `running` set names exactly the factories that have one, and no job says done without being verified.
   */
  lemma AtMostOneBackupPerFactory(hash: Hash, dirs: map<Tenant, Directory>, actions: seq<Action>, x: JobId, y: JobId, t: Tenant)
    ensures var s := Run(hash, Fresh(dirs), actions);
            && (At(s, x) && At(s, y) && s.jobs[x].tenant == s.jobs[y].tenant ==> x == y)
            && (t in s.running <==> exists id :: At(s, id) && s.jobs[id].tenant == t)
            && (x in s.jobs && s.jobs[x].state == Done ==> s.jobs[x].verified)
  {
    hide Step, Run;
    NobodyRuns(dirs);
    RunKeepsOnePerFactory(hash, Fresh(dirs), actions);
    var s := Run(hash, Fresh(dirs), actions);
    assert Apart(s, x, y);
    assert t in s.running ==> Held(s, t);
  }

  /** Once a backup of a factory has been verified, a file that verifies is there ever after, restarts included. */
  lemma VerifiedOnceProtectedForever(hash: Hash, dirs: map<Tenant, Directory>, before: seq<Action>, after: seq<Action>, id: JobId)
    requires ClockedRun(hash, Fresh(dirs), before)
    requires var s := Run(hash, Fresh(dirs), before); id in s.jobs && s.jobs[id].verified && ClockedRun(hash, s, after)
    ensures var s := Run(hash, Fresh(dirs), before);
            HasGood(hash, DirOf(Run(hash, s, after), s.jobs[id].tenant))
  {
    hide JobOk, HasGood, Step, Run, ClockedRun, DirOf;
    RestartKeeps(hash, Fresh(dirs));
    RunKeeps(hash, Fresh(dirs), before);
    var s := Run(hash, Fresh(dirs), before);
    RunKeeps(hash, s, after);
    assert Recorded(hash, s.jobs[id], DirOf(s, s.jobs[id].tenant));
    assert Protected(hash, s, Run(hash, s, after));
  }

  /**
   * The order of writing times is needed: let the clock step back for one backup and forward again before it prunes,
   * and the file kept as newest is a broken one while both good ones go.
   */
  lemma SteppedClockLosesEverything(hash: Hash)
    ensures var dirs := map["t" := map["p" := Stored(100, [], "?"), "v" := Stored(5, [1], hash([1]))]];
            var listed := List(Close(Verify(hash, UpToWriting(hash, dirs), 0, true), 0), 0, Some(["p", "n", "v"]), 50);
            var pruned := Unlink(Unlink(listed, 0, false), 0, false);
            0 in pruned.jobs && pruned.jobs[0].state == Done && pruned.jobs[0].verified && !HasGood(hash, DirOf(pruned, "t"))
  {
    hide List, Unlink, UpToWriting, Fresh, Candidates, NewestFirst;
    var dirs := map["t" := map["p" := Stored(100, [], "?"), "v" := Stored(5, [1], hash([1]))]];
    WrittenUnderSteppedClock(hash, dirs);
    var closed := Close(Verify(hash, UpToWriting(hash, dirs), 0, true), 0);
    assert closed.active == map[0 := Listing] && closed.jobs == map[0 := Job("t", Done, 10, Some("n"), true)];
    PrunedUnderSteppedClock(hash, closed);
  }

  /** A backup of "t" that starts and is written while the clock shows 10. */
  ghost function UpToWriting(hash: Hash, dirs: map<Tenant, Directory>): Service {
    var recorded := Open(Create(Look(Fresh(dirs), "t"), "t", 0, 10), 0);
    Put(hash, Snap(recorded, 0, Some([1]), "n"), 0, Some([1]), 10, false)
  }

  lemma WrittenUnderSteppedClock(hash: Hash, dirs: map<Tenant, Directory>)
    requires dirs.Keys == {"t"}
    ensures var s := UpToWriting(hash, dirs);
            && s.jobs == map[0 := Job("t", Running, 10, Some("n"), false)] && s.active == map[0 := Verifying("n", hash([1]))]
            && DirOf(s, "t") == dirs["t"]["n" := Stored(10, [1], hash([1]))]
  {
    var looked := Look(Fresh(dirs), "t");
    assert looked.asked == multiset{"t"};
    var queued := Create(looked, "t", 0, 10);
    assert queued.active == map[0 := Opening] && queued.jobs == map[0 := Job("t", Running, 10, None, false)];
    var snapped := Snap(Open(queued, 0), 0, Some([1]), "n");
    assert snapped.active == map[0 := Writing("n", [1])] && snapped.jobs == queued.jobs;
  }

  lemma PrunedUnderSteppedClock(hash: Hash, s: Service)
    requires s.active == map[0 := Listing] && s.jobs == map[0 := Job("t", Done, 10, Some("n"), true)]
    requires DirOf(s, "t") == map["p" := Stored(100, [], "?"), "v" := Stored(5, [1], hash([1])), "n" := Stored(10, [1], hash([1]))]
    ensures var pruned := Unlink(Unlink(List(s, 0, Some(["p", "n", "v"]), 50), 0, false), 0, false);
            pruned.jobs == s.jobs && DirOf(pruned, "t") == map["p" := Stored(100, [], "?")]
  {
    hide Remembered, NewestFirst, Candidates;
    NewFileAmongCandidates(hash, DirOf(s, "t"));
    var listed := List(s, 0, Some(["p", "n", "v"]), 50);
    assert listed.active[0] == Pruning(["n", "v"]);
    var once := Unlink(listed, 0, false);
    assert ["n", "v"][1..] == ["v"];
    assert once.active[0] == Pruning(["v"]);
  }

  lemma NewFileAmongCandidates(hash: Hash, dir: Directory)
    requires dir == map["p" := Stored(100, [], "?"), "v" := Stored(5, [1], hash([1])), "n" := Stored(10, [1], hash([1]))]
    ensures NewestFirst(dir, ["p", "n", "v"]) && Candidates(dir, ["p", "n", "v"], 1, 50) == ["n", "v"]
  {
    assert ["p", "n", "v"][1..] == ["n", "v"];
    assert ["n", "v"][1..] == ["v"];
    assert ["v"][1..] == [];
    assert OlderThan(dir, ["v"], 50) == ["v"];
  }

  // ------------------------------------------------------------------ the in-flight check

  /** Two calls may both look before either creates its job; the second job is then queued and never started. */
  lemma RacingCallsLeaveALoser(t: Tenant)
    ensures var s := Create(Create(Look(Look(Fresh(map[]), t), t), t, 0, 0), t, 1, 0);
            Stuck(s, 1, t) && 1 in s.known && t !in s.asked
  {
    hide Look, Create, Fresh;
    BothLook(t);
    OneRuns(t);
    OneWaits(t);
    assert map[0 := Job(t, Running, 0, None, false)][1 := Job(t, Queued, 0, None, false)].Keys == {0, 1};
  }

  lemma BothLook(t: Tenant)
    ensures Look(Look(Fresh(map[]), t), t) == Service(map[], [], multiset{t, t}, {}, map[], map[])
  {
  }

  lemma OneRuns(t: Tenant)
    ensures Create(Service(map[], [], multiset{t, t}, {}, map[], map[]), t, 0, 0)
         == Service(map[0 := Job(t, Running, 0, None, false)], [0], multiset{t}, {t}, map[0 := Opening], map[])
  {
  }

  lemma OneWaits(t: Tenant)
    ensures Create(Service(map[0 := Job(t, Running, 0, None, false)], [0], multiset{t}, {t}, map[0 := Opening], map[]), t, 1, 0)
         == Service(map[0 := Job(t, Running, 0, None, false)][1 := Job(t, Queued, 0, None, false)], [0, 1], multiset{}, {t}, map[0 := Opening], map[])
  {
  }

  /** A job that waits without a run, of a factory nobody else is being asked for. */
  ghost predicate Stuck(s: Service, id: JobId, t: Tenant) {
    && id in s.jobs && s.jobs[id].tenant == t && s.jobs[id].state == Queued && id !in s.active
    && forall x :: x in s.known ==> x in s.jobs
  }

  ghost function JobsOf(s: Service, t: Tenant): set<JobId> {
    set id | id in s.jobs && s.jobs[id].tenant == t
  }

  /** What a step of any other kind leaves of a service with a stuck job. */
  ghost predicate OthersMoved(s: Service, s': Service, id: JobId) {
    && s'.asked == s.asked && s'.jobs.Keys == s.jobs.Keys && id in s.jobs && id !in s'.active && s'.jobs[id] == s.jobs[id]
    && (forall x :: x in s'.known ==> x in s.known)
    && (forall x :: x in s.jobs ==> s'.jobs[x].tenant == s.jobs[x].tenant)
  }

  lemma MoveMovesOthers(s: Service, x: JobId, job: Job, phase: Phase, dirs: map<Tenant, Directory>, id: JobId, t: Tenant)
    requires Stuck(s, id, t) && At(s, x) && job.tenant == s.jobs[x].tenant
    ensures OthersMoved(s, Move(s.(dirs := dirs), x, job, phase), id)
  {
  }

  lemma FinishMovesOthers(s: Service, x: JobId, dirs: map<Tenant, Directory>, id: JobId, t: Tenant)
    requires Stuck(s, id, t) && At(s, x)
    ensures OthersMoved(s, Finish(s.(dirs := dirs), x), id)
  {
  }

  lemma OthersOnly(hash: Hash, s: Service, a: Action, id: JobId, t: Tenant)
    requires Stuck(s, id, t) && !a.LookUp? && !a.Created? && !a.Restart?
    ensures OthersMoved(s, Step(hash, s, a), id)
  {
    hide OthersMoved, DirOf, Candidates, NewestFirst, Stuck, Finish, Move;
    NothingMoved(s, id, t);
    var s' := Step(hash, s, a);
    if s' != s {
      var x := a.id;
      if x in s'.active {
        assert s' == Move(s.(dirs := s'.dirs), x, s'.jobs[x], s'.active[x]) by { MovedOn(hash, s, a); }
        assert s'.jobs[x].tenant == s.jobs[x].tenant by { MovedOn(hash, s, a); }
        MoveMovesOthers(s, x, s'.jobs[x], s'.active[x], s'.dirs, id, t);
      } else {
        assert s' == Finish(s.(dirs := s'.dirs), x) by { MovedOn(hash, s, a); }
        FinishMovesOthers(s, x, s'.dirs, id, t);
      }
    }
  }

  lemma NothingMoved(s: Service, id: JobId, t: Tenant)
    requires Stuck(s, id, t)
    ensures OthersMoved(s, s, id)
  {
  }

  /** Every stretch of a run either moves it on or ends it. */
  lemma MovedOn(hash: Hash, s: Service, a: Action)
    requires !a.LookUp? && !a.Created? && !a.Restart? && Step(hash, s, a) != s
    ensures var s' := Step(hash, s, a);
            && At(s, a.id)
            && (a.id in s'.active ==> a.id in s'.jobs && s' == Move(s.(dirs := s'.dirs), a.id, s'.jobs[a.id], s'.active[a.id])
                                      && s'.jobs[a.id].tenant == s.jobs[a.id].tenant)
            && (a.id !in s'.active ==> s' == Finish(s.(dirs := s'.dirs), a.id))
  {
    hide DirOf, Candidates, NewestFirst, Remembered;
  }

  lemma StuckStaysStuck(hash: Hash, s: Service, a: Action, id: JobId, t: Tenant)
    requires Stuck(s, id, t) && a != Restart
    ensures var s' := Step(hash, s, a);
            && Stuck(s', id, t)
            && (id in s'.known ==> id in s.known)
            && (id in s.known && t !in s.asked ==> t !in s'.asked && JobsOf(s', t) == JobsOf(s, t))
  {
    hide Put, Verify, Snap, Open, Close, List, Unlink, InFlight;
    if a.LookUp? {
      if id in s.known { Shown(s, id, t); }
    } else if a.Created? {
      CreateLeavesStuck(s, a.tenant, a.id, a.now, id, t);
    } else {
      OthersOnly(hash, s, a, id, t);
    }
  }

  lemma CreateLeavesStuck(s: Service, tenant: Tenant, x: JobId, now: int, id: JobId, t: Tenant)
    requires Stuck(s, id, t)
    ensures var s' := Create(s, tenant, x, now);
            && Stuck(s', id, t)
            && (id in s'.known ==> id in s.known)
            && (t !in s.asked ==> t !in s'.asked && JobsOf(s', t) == JobsOf(s, t))
  {
    var s' := Create(s, tenant, x, now);
    if s' != s {
      assert forall y :: y in s'.known ==> y in s.known || y == x;
      assert s'.asked <= s.asked;
    }
  }

  lemma Shown(s: Service, id: JobId, t: Tenant)
    requires Stuck(s, id, t) && id in s.known
    ensures InFlight(s.jobs, s.known, t)
  {
  }

  lemma {:induction false} KnownWasKnown(hash: Hash, s: Service, actions: seq<Action>, id: JobId, t: Tenant)
    requires Stuck(s, id, t) && Restart !in actions
    ensures id in Run(hash, s, actions).known ==> id in s.known
    decreases |actions|
  {
    hide Step, Stuck;
    if actions != [] {
      assert actions[0] in actions && forall a :: a in actions[1..] ==> a in actions;
      StuckStaysStuck(hash, s, actions[0], id, t);
      KnownWasKnown(hash, Step(hash, s, actions[0]), actions[1..], id, t);
    }
  }

  /**
   * Such a job shuts its factory out: as long as it is remembered and the process lives, no further backup of that
   * factory is ever registered, however often one is asked for.
   */
  lemma {:induction false} LoserShutsItsFactoryOut(hash: Hash, s: Service, actions: seq<Action>, id: JobId, t: Tenant)
    requires Stuck(s, id, t) && t !in s.asked && Restart !in actions
    ensures id in Run(hash, s, actions).known ==> JobsOf(Run(hash, s, actions), t) == JobsOf(s, t)
    decreases |actions|
  {
    hide Step, Stuck, JobsOf;
    if actions != [] {
      assert actions[0] in actions && forall a :: a in actions[1..] ==> a in actions;
      KnownWasKnown(hash, s, actions, id, t);
      StuckStaysStuck(hash, s, actions[0], id, t);
      if id in Run(hash, s, actions).known { LoserShutsItsFactoryOut(hash, Step(hash, s, actions[0]), actions[1..], id, t); }
    }
  }
}
