// What a sweep of the clock guarantees, for every run and every behaviour of the callbacks.
// All laws read the log only: when a job was armed, dropped and run, and where sweeps began.

module ClockLaws {
  import opened Clock

  function Drop(r: seq<(nat, nat)>, id: nat): (d: seq<(nat, nat)>)
    ensures forall e :: e in d <==> e in r && e.0 != id
  {
    if r == [] then []
    else
      var d := Drop(r[..|r| - 1], id);
      if r[|r| - 1].0 == id then d else d + [r[|r| - 1]]
  }

  /** The jobs (id, due time) that the log says were armed and neither dropped nor run since. */
  function Outstanding(log: seq<Event>): seq<(nat, nat)> {
    if log == [] then []
    else
      var r := Outstanding(log[..|log| - 1]);
      match log[|log| - 1]
      case Armed(id, t) => r + [(id, t)]
      case Dropped(id) => Drop(r, id)
      case SweepBegan(_) => r
      case Ran(id, _) => Drop(r, id)
  }

  /** Where the latest sweep began, or -1. */
  function LastSweep(log: seq<Event>): (b: int)
    ensures -1 <= b < |log|
    ensures b >= 0 ==> log[b].SweepBegan?
    ensures forall i :: b < i < |log| ==> !log[i].SweepBegan?
  {
    if log == [] then -1
    else if log[|log| - 1].SweepBegan? then |log| - 1
    else LastSweep(log[..|log| - 1])
  }

  // ---- the laws --------------------------------------------------------------------------

  ghost predicate RunsOnce(log: seq<Event>) {
    forall i, j :: 0 <= i < j < |log| && log[i].Ran? && log[j].Ran? ==> log[i].id != log[j].id
  }

  ghost predicate NeverRunsAfterCancel(log: seq<Event>) {
    forall s, i, j :: 0 <= s < i < j < |log| && log[s].Armed? && log[i] == Dropped(log[s].id) && log[j].Ran?
      ==> log[j].id != log[s].id
  }

  /** A run belongs to a sweep, was armed with this due time before that sweep began, was still
      outstanding then, and its due time had come. */
  ghost predicate RunsDueJobsArmedEarlier(log: seq<Event>) {
    forall j :: 0 <= j < |log| && log[j].Ran? ==>
      var b := LastSweep(log[..j]);
      && b >= 0
      && log[j].runAt <= log[b].now
      && (log[j].id, log[j].runAt) in Outstanding(log[..b])
      && exists s :: 0 <= s < b && log[s] == Armed(log[j].id, log[j].runAt)
  }

  ghost predicate RunsInDueOrder(log: seq<Event>) {
    forall i, j :: 0 <= i < j < |log| && log[i].Ran? && log[j].Ran? && LastSweep(log[..i]) == LastSweep(log[..j])
      ==> Before((log[i].runAt, log[i].id), (log[j].runAt, log[j].id))
  }

  ghost predicate SweepLaws(log: seq<Event>) {
    RunsOnce(log) && NeverRunsAfterCancel(log) && RunsDueJobsArmedEarlier(log) && RunsInDueOrder(log)
  }

  // ---- the inductive form of the laws ----------------------------------------------------

  ghost predicate LawfulAt(log: seq<Event>, j: nat)
    requires j < |log|
  {
    match log[j]
    case Armed(id, _) => forall i :: 0 <= i < j && log[i].Armed? ==> log[i].id < id
    case Ran(id, t) =>
      var b := LastSweep(log[..j]);
      && b >= 0 && t <= log[b].now
      && (id, t) in Outstanding(log[..j]) && (id, t) in Outstanding(log[..b])
      && forall i :: b < i < j && log[i].Ran? ==> Before((log[i].runAt, log[i].id), (t, id))
    case _ => true
  }

  ghost predicate Lawful(log: seq<Event>) {
    forall j :: 0 <= j < |log| ==> LawfulAt(log, j)
  }

  function Agenda<T>(jobs: seq<Job<T>>): seq<(nat, nat)> {
    if jobs == [] then [] else Agenda(jobs[..|jobs| - 1]) + [(jobs[|jobs| - 1].id, jobs[|jobs| - 1].runAt)]
  }

  ghost predicate IdsIncrease<T(!new)>(jobs: seq<Job<T>>) {
    forall i, j :: 0 <= i < j < |jobs| ==> jobs[i].id < jobs[j].id
  }

  ghost predicate Good<T(!new)>(tl: Timeline<T>) {
    && Lawful(tl.log)
    && Outstanding(tl.log) == Agenda(tl.clock.jobs)
    && IdsIncrease(tl.clock.jobs)
    && (forall i :: 0 <= i < |tl.clock.jobs| ==> tl.clock.jobs[i].id < tl.clock.nextJob)
    && (forall i :: 0 <= i < |tl.log| && tl.log[i].Armed? ==> tl.log[i].id < tl.clock.nextJob)
  }

  lemma {:induction false} LawfulSnoc(log: seq<Event>, e: Event)
    requires Lawful(log)
    requires LawfulAt(log + [e], |log|)
    ensures Lawful(log + [e])
  {
    forall j | 0 <= j < |log| ensures LawfulAt(log + [e], j) {
      assert (log + [e])[..j] == log[..j];
      assert LawfulAt(log, j);
      if log[j].Ran? {
        var b := LastSweep(log[..j]);
        assert (log + [e])[..b] == log[..b];
      }
    }
  }

  lemma {:induction false} AgendaMember<T(!new)>(jobs: seq<Job<T>>, e: (nat, nat))
    ensures e in Agenda(jobs) <==> exists k :: 0 <= k < |jobs| && jobs[k].id == e.0 && jobs[k].runAt == e.1
  {
    if jobs != [] {
      var front := jobs[..|jobs| - 1];
      AgendaMember(front, e);
      forall k | 0 <= k < |front| ensures front[k] == jobs[k] {}
    }
  }

  lemma {:induction false} AgendaRemove<T(!new)>(jobs: seq<Job<T>>, id: nat)
    ensures Agenda(RemoveJob(jobs, id)) == Drop(Agenda(jobs), id)
  {
    if jobs != [] {
      var front, last := jobs[..|jobs| - 1], jobs[|jobs| - 1];
      AgendaRemove(front, id);
      var r := RemoveJob(front, id);
      assert (r + [last])[..|r|] == r;
      var a := Agenda(front);
      assert (a + [(last.id, last.runAt)])[..|a|] == a;
    }
  }

  lemma {:induction false} RemoveKeeps<T(!new)>(jobs: seq<Job<T>>, id: nat)
    ensures forall job :: job in RemoveJob(jobs, id) ==> job in jobs && job.id != id
    ensures IdsIncrease(jobs) ==> IdsIncrease(RemoveJob(jobs, id))
  {
    if jobs != [] {
      var front, last := jobs[..|jobs| - 1], jobs[|jobs| - 1];
      RemoveKeeps(front, id);
      var r := RemoveJob(front, id);
      assert forall job :: job in front ==> job in jobs;
      if last.id != id && IdsIncrease(jobs) {
        assert IdsIncrease(front);
        forall k | 0 <= k < |r| ensures r[k].id < last.id {
          assert r[k] in r;
        }
      }
    }
  }

  /** Erasing the one job with this id is removing all jobs with it, when ids are distinct. */
  lemma {:induction false} EraseIsRemove<T(!new)>(jobs: seq<Job<T>>, k: nat)
    requires k < |jobs|
    requires IdsIncrease(jobs)
    ensures EraseAt(jobs, k) == RemoveJob(jobs, jobs[k].id)
    decreases |jobs|
  {
    var front := jobs[..|jobs| - 1];
    if k == |jobs| - 1 {
      RemoveAbsent(front, jobs[k].id);
    } else {
      EraseIsRemove(front, k);
      assert EraseAt(jobs, k) == EraseAt(front, k) + [jobs[|jobs| - 1]];
    }
  }

  lemma {:induction false} RemoveAbsent<T(!new)>(jobs: seq<Job<T>>, id: nat)
    requires forall i :: 0 <= i < |jobs| ==> jobs[i].id != id
    ensures RemoveJob(jobs, id) == jobs
  {
    if jobs != [] { RemoveAbsent(jobs[..|jobs| - 1], id); }
  }

  // ---- one operation ---------------------------------------------------------------------

  /** `tl'` extends `tl` by callback operations only: no sweep begins and nothing runs. */
  ghost predicate Extends<T(!new)>(tl: Timeline<T>, tl': Timeline<T>) {
    && tl.log <= tl'.log
    && (forall i :: |tl.log| <= i < |tl'.log| ==> tl'.log[i].Armed? || tl'.log[i].Dropped?)
    && tl.clock.now == tl'.clock.now
    && tl.clock.nextJob <= tl'.clock.nextJob
    && (forall job :: job in tl'.clock.jobs ==> job in tl.clock.jobs || job.id >= tl.clock.nextJob)
  }

  lemma {:induction false} PerformedGood<T(!new)>(tl: Timeline<T>, op: ClockOp<T>)
    requires Good(tl)
    ensures Good(Performed(tl, op)) && Extends(tl, Performed(tl, op))
  {
    match op
    case Schedule(delay, callback) => ScheduledGood(tl, delay, callback);
    case CancelJob(id) => CancelledGood(tl, id);
  }

  lemma {:induction false} OutstandingSnoc(log: seq<Event>, e: Event)
    ensures Outstanding(log + [e])
         == match e
            case Armed(id, t) => Outstanding(log) + [(id, t)]
            case Dropped(id) => Drop(Outstanding(log), id)
            case SweepBegan(_) => Outstanding(log)
            case Ran(id, _) => Drop(Outstanding(log), id)
  {
    assert (log + [e])[..|log|] == log;
  }

  lemma {:induction false} ArmedLawful(log: seq<Event>, id: nat, runAt: nat)
    requires Lawful(log) && forall i :: 0 <= i < |log| && log[i].Armed? ==> log[i].id < id
    ensures Lawful(log + [Armed(id, runAt)])
  {
    assert LawfulAt(log + [Armed(id, runAt)], |log|);
    LawfulSnoc(log, Armed(id, runAt));
  }

  lemma {:induction false} AgendaSnoc<T(!new)>(jobs: seq<Job<T>>, job: Job<T>)
    ensures Agenda(jobs + [job]) == Agenda(jobs) + [(job.id, job.runAt)]
  {
    assert (jobs + [job])[..|jobs|] == jobs;
  }

  lemma {:induction false} ScheduledJobs<T(!new)>(jobs: seq<Job<T>>, job: Job<T>)
    requires IdsIncrease(jobs) && forall i :: 0 <= i < |jobs| ==> jobs[i].id < job.id
    ensures var jobs' := jobs + [job];
            && Agenda(jobs') == Agenda(jobs) + [(job.id, job.runAt)] && IdsIncrease(jobs')
            && (forall i :: 0 <= i < |jobs'| ==> jobs'[i].id < job.id + 1)
            && (forall other :: other in jobs' ==> other in jobs || other == job)
  {
    AgendaSnoc(jobs, job);
  }

  lemma {:induction false} ScheduledLog(log: seq<Event>, id: nat, runAt: nat)
    requires Lawful(log) && forall i :: 0 <= i < |log| && log[i].Armed? ==> log[i].id < id
    ensures var log' := log + [Armed(id, runAt)];
            && Lawful(log') && Outstanding(log') == Outstanding(log) + [(id, runAt)] && log <= log'
            && (forall i :: 0 <= i < |log'| && log'[i].Armed? ==> log'[i].id < id + 1)
  {
    ArmedLawful(log, id, runAt);
    OutstandingSnoc(log, Armed(id, runAt));
  }

  lemma {:induction false} ScheduledKeeps<T(!new)>(tl: Timeline<T>, tl': Timeline<T>, id: nat, job: Job<T>)
    requires Good(tl) && id == tl.clock.nextJob && job.id == id
    requires tl'.log == tl.log + [Armed(id, job.runAt)]
    requires tl'.clock.jobs == tl.clock.jobs + [job] && tl'.clock.nextJob == id + 1
    ensures Good(tl')
  {
    ScheduledLog(tl.log, id, job.runAt);
    ScheduledJobs(tl.clock.jobs, job);
  }

  lemma {:induction false} ScheduledExtends<T(!new)>(tl: Timeline<T>, delay: nat, callback: T)
    ensures Extends(tl, Performed(tl, Schedule(delay, callback)))
  {
  }

  lemma {:induction false} ScheduledGood<T(!new)>(tl: Timeline<T>, delay: nat, callback: T)
    requires Good(tl)
    ensures var tl' := Performed(tl, Schedule(delay, callback)); Good(tl') && Extends(tl, tl')
  {
    var id, tl' := tl.clock.nextJob, Performed(tl, Schedule(delay, callback));
    ScheduledKeeps(tl, tl', id, Job(id, tl.clock.now + delay, callback));
    ScheduledExtends(tl, delay, callback);
  }

  lemma {:induction false} CancelledGood<T(!new)>(tl: Timeline<T>, id: nat)
    requires Good(tl)
    ensures var tl' := Performed(tl, CancelJob(id)); Good(tl') && Extends(tl, tl')
  {
    var kept := RemoveJob(tl.clock.jobs, id);
    assert (tl.log + [Dropped(id)])[..|tl.log|] == tl.log;
    LawfulSnoc(tl.log, Dropped(id));
    AgendaRemove(tl.clock.jobs, id);
    RemoveKeeps(tl.clock.jobs, id);
    assert forall i :: 0 <= i < |kept| ==> kept[i] in kept;
  }

  lemma {:induction false} PerformedAllGood<T(!new)>(tl: Timeline<T>, ops: seq<ClockOp<T>>)
    requires Good(tl)
    ensures Good(PerformedAll(tl, ops)) && Extends(tl, PerformedAll(tl, ops))
  {
    if ops != [] {
      PerformedAllGood(tl, ops[..|ops| - 1]);
      PerformedGood(PerformedAll(tl, ops[..|ops| - 1]), ops[|ops| - 1]);
    }
  }

  // ---- the order of the due list ---------------------------------------------------------

  lemma {:induction false} InsertSorted(due: seq<(nat, nat)>, e: (nat, nat))
    requires Sorted(due) && forall k :: 0 <= k < |due| ==> due[k].1 != e.1
    ensures Sorted(Insert(due, e))
    ensures forall x :: x in Insert(due, e) <==> x in due || x == e
    ensures |Insert(due, e)| == |due| + 1
  {
    if due != [] && !Before(e, due[0]) {
      InsertSorted(due[1..], e);
      var r := Insert(due[1..], e);
      forall k | 0 <= k < |r| ensures Before(due[0], r[k]) {
        assert r[k] in due[1..] || r[k] == e;
      }
    }
  }

  /** The sweep's list: exactly the due jobs, in strict (due time, id) order. */
  lemma {:induction false} DueSorted<T(!new)>(jobs: seq<Job<T>>, now: nat)
    requires IdsIncrease(jobs)
    ensures var due := Sort(DueEntries(jobs, now));
            && Sorted(due)
            && forall x :: x in due <==> (x.1, x.0) in Agenda(jobs) && x.0 <= now
  {
    if jobs != [] {
      var front, last := jobs[..|jobs| - 1], jobs[|jobs| - 1];
      DueSorted(front, now);
      var r := DueEntries(front, now);
      if last.runAt <= now {
        assert (r + [(last.runAt, last.id)])[..|r|] == r;
        forall k | 0 <= k < |Sort(r)| ensures Sort(r)[k].1 != last.id {
          assert Sort(r)[k] in Sort(r);
          AgendaMember(front, (Sort(r)[k].1, Sort(r)[k].0));
        }
        InsertSorted(Sort(r), (last.runAt, last.id));
      }
    }
  }

  // ---- the sweep -------------------------------------------------------------------------

  /** The state of a sweep that began from `base` and has handled the first `n` due entries. */
  ghost predicate Sweeping<T(!new)>(base: Timeline<T>, tl: Timeline<T>, due: seq<(nat, nat)>, n: nat)
    requires n <= |due|
  {
    && Good(tl)
    && |base.log| < |tl.log| && tl.log[..|base.log|] == base.log
    && tl.log[|base.log|] == SweepBegan(tl.clock.now)
    && base.clock.nextJob <= tl.clock.nextJob
    && (forall i :: |base.log| < i < |tl.log| ==> !tl.log[i].SweepBegan?)
    && (forall i :: |base.log| < i < |tl.log| && tl.log[i].Ran? ==>
          && n > 0
          && var e := (tl.log[i].runAt, tl.log[i].id);
             e == due[n - 1] || Before(e, due[n - 1]))
    && (forall k, i :: 0 <= k < n && 0 <= i < |tl.clock.jobs| ==> tl.clock.jobs[i].id != due[k].1)
  }

  ghost predicate DueList<T(!new)>(base: Timeline<T>, due: seq<(nat, nat)>, now: nat) {
    Sorted(due) && forall k :: 0 <= k < |due| ==> due[k].0 <= now && (due[k].1, due[k].0) in Outstanding(base.log)
  }

  lemma {:induction false} OutstandingArmed(log: seq<Event>, e: (nat, nat))
    requires e in Outstanding(log)
    ensures exists s :: 0 <= s < |log| && log[s] == Armed(e.0, e.1)
                        && forall j :: s < j < |log| ==> log[j] != Dropped(e.0) && !(log[j].Ran? && log[j].id == e.0)
  {
    var front, last := log[..|log| - 1], log[|log| - 1];
    if e in Outstanding(front) {
      OutstandingArmed(front, e);
      var s :| 0 <= s < |front| && front[s] == Armed(e.0, e.1)
               && forall j :: s < j < |front| ==> front[j] != Dropped(e.0) && !(front[j].Ran? && front[j].id == e.0);
      assert log[s] == Armed(e.0, e.1);
      forall j | s < j < |log| ensures log[j] != Dropped(e.0) && !(log[j].Ran? && log[j].id == e.0) {
        if j < |front| { assert front[j] == log[j]; }
      }
    } else {
      assert log[|log| - 1] == Armed(e.0, e.1);
    }
  }

  lemma {:induction false} ArmedOnce(log: seq<Event>, s: nat, s': nat)
    requires Lawful(log) && s < |log| && s' < |log|
    requires log[s].Armed? && log[s'].Armed? && log[s].id == log[s'].id
    ensures s == s'
  {
    assert LawfulAt(log, s) && LawfulAt(log, s');
  }

  /** A job found for a due entry still has the due time the entry was made from. */
  lemma {:induction false} DueTimeStands<T(!new)>(base: Timeline<T>, tl: Timeline<T>, due: seq<(nat, nat)>, n: nat,
                                           k: nat)
    requires n < |due| && Sweeping(base, tl, due, n) && DueList(base, due, tl.clock.now)
    requires k < |tl.clock.jobs| && tl.clock.jobs[k].id == due[n].1
    ensures tl.clock.jobs[k].runAt == due[n].0
    ensures (due[n].1, due[n].0) in Outstanding(tl.log)
  {
    var job := tl.clock.jobs[k];
    AgendaMember(tl.clock.jobs, (job.id, job.runAt));
    OutstandingArmed(tl.log, (job.id, job.runAt));
    OutstandingArmed(base.log, (due[n].1, due[n].0));
    var s :| 0 <= s < |tl.log| && tl.log[s] == Armed(job.id, job.runAt);
    var s' :| 0 <= s' < |base.log| && base.log[s'] == Armed(due[n].1, due[n].0);
    assert tl.log[s'] == base.log[s'];
    ArmedOnce(tl.log, s, s');
  }

  lemma {:induction false} TakenLawful<T(!new)>(base: Timeline<T>, tl: Timeline<T>, due: seq<(nat, nat)>, n: nat)
    requires n < |due| && Sweeping(base, tl, due, n) && DueList(base, due, tl.clock.now)
    requires (due[n].1, due[n].0) in Outstanding(tl.log)
    ensures Lawful(tl.log + [Ran(due[n].1, due[n].0)])
  {
    var e := Ran(due[n].1, due[n].0);
    var log' := tl.log + [e];
    assert log'[..|tl.log|] == tl.log;
    assert LastSweep(tl.log) == |base.log|;
    assert log'[..|base.log|] == base.log;
    assert n > 0 ==> Before(due[n - 1], due[n]);
    assert LawfulAt(log', |tl.log|);
    LawfulSnoc(tl.log, e);
  }

  lemma {:induction false} TakenJobs<T(!new)>(jobs: seq<Job<T>>, id: nat)
    requires IdsIncrease(jobs) && FindJob(jobs, id) < |jobs|
    ensures var kept := EraseAt(jobs, FindJob(jobs, id));
            && Agenda(kept) == Drop(Agenda(jobs), id)
            && IdsIncrease(kept)
            && forall i :: 0 <= i < |kept| ==> kept[i] in jobs && kept[i].id != id
  {
    EraseIsRemove(jobs, FindJob(jobs, id));
    AgendaRemove(jobs, id);
    RemoveKeeps(jobs, id);
    var kept := EraseAt(jobs, FindJob(jobs, id));
    assert forall i :: 0 <= i < |kept| ==> kept[i] in kept;
  }

  lemma {:induction false} TakenGood<T(!new)>(tl: Timeline<T>, id: nat)
    requires Good(tl) && FindJob(tl.clock.jobs, id) < |tl.clock.jobs|
    requires Lawful(Taken(tl, id).log)
    ensures Good(Taken(tl, id))
    ensures forall i :: 0 <= i < |Taken(tl, id).clock.jobs| ==>
              Taken(tl, id).clock.jobs[i] in tl.clock.jobs && Taken(tl, id).clock.jobs[i].id != id
  {
    var tl' := Taken(tl, id);
    assert tl'.log[..|tl.log|] == tl.log;
    TakenJobs(tl.clock.jobs, id);
  }

  /** Entry `n` names no job any more. */
  lemma {:induction false} SkippedSweeping<T(!new)>(base: Timeline<T>, tl: Timeline<T>, due: seq<(nat, nat)>, n: nat)
    requires n < |due| && Sweeping(base, tl, due, n) && Sorted(due)
    requires FindJob(tl.clock.jobs, due[n].1) == |tl.clock.jobs|
    ensures Sweeping(base, tl, due, n + 1)
  {
    assert n > 0 ==> Before(due[n - 1], due[n]);
  }

  lemma {:induction false} FoundSweeping<T(!new)>(base: Timeline<T>, tl: Timeline<T>, tl': Timeline<T>, due: seq<(nat,
                                           nat)>, n: nat)
    requires n < |due| && Sweeping(base, tl, due, n) && Sorted(due) && Good(tl')
    requires tl'.log == tl.log + [Ran(due[n].1, due[n].0)]
    requires tl'.clock.now == tl.clock.now && tl'.clock.nextJob == tl.clock.nextJob
    requires forall i :: 0 <= i < |tl'.clock.jobs| ==>
               tl'.clock.jobs[i] in tl.clock.jobs && tl'.clock.jobs[i].id != due[n].1
    ensures Sweeping(base, tl', due, n + 1)
  {
    assert n > 0 ==> Before(due[n - 1], due[n]);
    assert tl'.log[..|base.log|] == base.log;
  }

  lemma {:induction false} TakenSweeping<T(!new)>(base: Timeline<T>, tl: Timeline<T>, due: seq<(nat, nat)>, n: nat)
    requires n < |due| && Sweeping(base, tl, due, n) && DueList(base, due, tl.clock.now)
    ensures Sweeping(base, Taken(tl, due[n].1), due, n + 1)
  {
    var id := due[n].1;
    var k := FindJob(tl.clock.jobs, id);
    if k == |tl.clock.jobs| {
      SkippedSweeping(base, tl, due, n);
    } else {
      DueTimeStands(base, tl, due, n, k);
      TakenLawful(base, tl, due, n);
      TakenGood(tl, id);
      FoundSweeping(base, tl, Taken(tl, id), due, n);
    }
  }

  lemma {:induction false} ExtendsSweeping<T(!new)>(base: Timeline<T>, tl: Timeline<T>, tl': Timeline<T>,
                                             due: seq<(nat, nat)>, n: nat)
    requires n <= |due| && Sweeping(base, tl, due, n) && Good(tl') && Extends(tl, tl')
    requires forall k :: 0 <= k < |due| ==> due[k].1 < base.clock.nextJob
    ensures Sweeping(base, tl', due, n)
  {
    assert tl'.log[..|base.log|] == base.log;
    forall i | |tl.log| <= i < |tl'.log| ensures !tl'.log[i].SweepBegan? && !tl'.log[i].Ran? {}
    forall i | 0 <= i < |tl.log| ensures tl'.log[i] == tl.log[i] {}
    forall k, i | 0 <= k < n && 0 <= i < |tl'.clock.jobs| ensures tl'.clock.jobs[i].id != due[k].1 {
      assert tl'.clock.jobs[i] in tl'.clock.jobs;
    }
  }

  lemma {:induction false} RanSweeping<T(!new)>(behave: Behaviour<T>, base: Timeline<T>, tl: Timeline<T>,
                                                tl': Timeline<T>, due: seq<(nat, nat)>, n: nat)
    requires n < |due| && Sweeping(base, tl, due, n) && DueList(base, due, tl.clock.now)
    requires forall k :: 0 <= k < |due| ==> due[k].1 < base.clock.nextJob
    requires tl' == RanOne(behave, tl, due[n].1)
    ensures Sweeping(base, tl', due, n + 1) && tl'.clock.now == tl.clock.now
  {
    var id := due[n].1;
    TakenSweeping(base, tl, due, n);
    if FindJob(tl.clock.jobs, id) < |tl.clock.jobs| {
      var taken := Taken(tl, id);
      PerformedAllGood(taken, behave(id));
      ExtendsSweeping(base, taken, PerformedAll(taken, behave(id)), due, n + 1);
    }
  }

  lemma {:induction false} SweptSweeping<T(!new)>(behave: Behaviour<T>, base: Timeline<T>, tl: Timeline<T>,
                                                  due: seq<(nat, nat)>, n: nat)
    requires n <= |due| && Sweeping(base, tl, due, 0) && DueList(base, due, tl.clock.now)
    requires forall k :: 0 <= k < |due| ==> due[k].1 < base.clock.nextJob
    ensures Sweeping(base, Swept(behave, tl, due[..n]), due, n)
    ensures Swept(behave, tl, due[..n]).clock.now == tl.clock.now
  {
    if n > 0 {
      SweptSweeping(behave, base, tl, due, n - 1);
      assert due[..n][..n - 1] == due[..n - 1];
      RanSweeping(behave, base, Swept(behave, tl, due[..n - 1]), Swept(behave, tl, due[..n]), due, n - 1);
    }
  }

  /** The list made at the start of a sweep from `tl`. */
  lemma {:induction false} DueListMade<T(!new)>(tl: Timeline<T>, now: nat)
    requires Good(tl)
    ensures var due := Sort(DueEntries(tl.clock.jobs, now));
            DueList(tl, due, now) && forall k :: 0 <= k < |due| ==> due[k].1 < tl.clock.nextJob
  {
    var due := Sort(DueEntries(tl.clock.jobs, now));
    DueSorted(tl.clock.jobs, now);
    forall k | 0 <= k < |due|
      ensures due[k].0 <= now && (due[k].1, due[k].0) in Outstanding(tl.log) && due[k].1 < tl.clock.nextJob
    {
      assert due[k] in due;
      AgendaMember(tl.clock.jobs, (due[k].1, due[k].0));
    }
  }

  lemma {:induction false} BegunLawful(log: seq<Event>, now: nat)
    requires Lawful(log)
    ensures Lawful(log + [SweepBegan(now)])
  {
    assert LawfulAt(log + [SweepBegan(now)], |log|);
    LawfulSnoc(log, SweepBegan(now));
  }

  lemma {:induction false} BegunGood<T(!new)>(tl: Timeline<T>, ms: nat)
    requires Good(tl)
    ensures Good(SweepBegun(tl, ms))
  {
    BegunLawful(tl.log, tl.clock.now + ms);
    OutstandingSnoc(tl.log, SweepBegan(tl.clock.now + ms));
  }

  lemma {:induction false} BegunSweeping<T(!new)>(tl: Timeline<T>, ms: nat, due: seq<(nat, nat)>)
    requires Good(SweepBegun(tl, ms))
    ensures Sweeping(tl, SweepBegun(tl, ms), due, 0)
  {
    assert SweepBegun(tl, ms).log[..|tl.log|] == tl.log;
  }

  lemma {:induction false} AdvancedGood<T(!new)>(behave: Behaviour<T>, tl: Timeline<T>, ms: nat)
    requires Good(tl)
    ensures var tl' := Advanced(behave, tl, ms);
            var due := Sort(DueEntries(tl.clock.jobs, tl.clock.now + ms));
            Sweeping(tl, tl', due, |due|)
  {
    var due := Sort(DueEntries(tl.clock.jobs, tl.clock.now + ms));
    DueListMade(tl, tl.clock.now + ms);
    BegunGood(tl, ms);
    BegunSweeping(tl, ms, due);
    SweptSweeping(behave, tl, SweepBegun(tl, ms), due, |due|);
    assert due[..|due|] == due;
  }

  lemma {:induction false} RunGood<T(!new)>(behave: Behaviour<T>, cmds: seq<ClockCommand<T>>)
    ensures Good(ClockRun(behave, cmds))
  {
    if cmds != [] {
      var tl := ClockRun(behave, cmds[..|cmds| - 1]);
      RunGood(behave, cmds[..|cmds| - 1]);
      match cmds[|cmds| - 1]
      case Do(op) => PerformedGood(tl, op);
      case Tick(ms) => AdvancedGood(behave, tl, ms);
    }
  }

  lemma {:induction false} RanWasArmed(log: seq<Event>, j: nat) returns (s: nat)
    requires Lawful(log) && j < |log| && log[j].Ran?
    ensures s < j && log[s] == Armed(log[j].id, log[j].runAt)
    ensures forall i :: s < i < j ==> log[i] != Dropped(log[j].id) && !(log[i].Ran? && log[i].id == log[j].id)
  {
    var before := log[..j];
    assert LawfulAt(log, j);
    OutstandingArmed(before, (log[j].id, log[j].runAt));
    s :| 0 <= s < j && before[s] == Armed(log[j].id, log[j].runAt)
         && forall i :: s < i < |before| ==>
              before[i] != Dropped(log[j].id) && !(before[i].Ran? && before[i].id == log[j].id);
    forall i | s < i < j ensures log[i] != Dropped(log[j].id) && !(log[i].Ran? && log[i].id == log[j].id) {
      assert before[i] == log[i];
    }
  }

  lemma {:induction false} RunsOnceHolds(log: seq<Event>)
    requires Lawful(log)
    ensures RunsOnce(log)
  {
    forall i, j | 0 <= i < j < |log| && log[i].Ran? && log[j].Ran? ensures log[i].id != log[j].id {
      if log[i].id == log[j].id {
        var s := RanWasArmed(log, i);
        var s' := RanWasArmed(log, j);
        ArmedOnce(log, s, s');
      }
    }
  }

  lemma {:induction false} CancelHolds(log: seq<Event>)
    requires Lawful(log)
    ensures NeverRunsAfterCancel(log)
  {
    forall s, i, j | 0 <= s < i < j < |log| && log[s].Armed? && log[i] == Dropped(log[s].id) && log[j].Ran?
      ensures log[j].id != log[s].id
    {
      if log[j].id == log[s].id {
        var s' := RanWasArmed(log, j);
        ArmedOnce(log, s, s');
      }
    }
  }

  lemma {:induction false} DueHolds(log: seq<Event>)
    requires Lawful(log)
    ensures RunsDueJobsArmedEarlier(log)
  {
    forall j | 0 <= j < |log| && log[j].Ran?
      ensures var b := LastSweep(log[..j]);
              && b >= 0 && log[j].runAt <= log[b].now && (log[j].id, log[j].runAt) in Outstanding(log[..b])
              && exists s :: 0 <= s < b && log[s] == Armed(log[j].id, log[j].runAt)
    {
      assert LawfulAt(log, j);
      var before := log[..LastSweep(log[..j])];
      OutstandingArmed(before, (log[j].id, log[j].runAt));
      var s :| 0 <= s < |before| && before[s] == Armed(log[j].id, log[j].runAt);
      assert log[s] == before[s];
    }
  }

  lemma {:induction false} OrderHolds(log: seq<Event>)
    requires Lawful(log)
    ensures RunsInDueOrder(log)
  {
    forall i, j | 0 <= i < j < |log| && log[i].Ran? && log[j].Ran? && LastSweep(log[..i]) == LastSweep(log[..j])
      ensures Before((log[i].runAt, log[i].id), (log[j].runAt, log[j].id))
    {
      assert LawfulAt(log, j) && LawfulAt(log, i);
    }
  }

  // ---- main results ----------------------------------------------------------------------

  /** Over any run, whatever the callbacks schedule and cancel: each job runs at most once, never
      after being cancelled, never before its due time, in (due time, id) order within a sweep, and
      never in a sweep that had begun when it was armed. */
  lemma {:induction false} SweepLawsHold<T(!new)>(behave: Behaviour<T>, cmds: seq<ClockCommand<T>>)
    ensures SweepLaws(ClockRun(behave, cmds).log)
  {
    RunGood(behave, cmds);
    var log := ClockRun(behave, cmds).log;
    RunsOnceHolds(log);
    CancelHolds(log);
    DueHolds(log);
    OrderHolds(log);
  }

  /** Nothing that was due is left behind: after a sweep no job that was outstanding and due when
      it began is still outstanding (it ran, or a callback cancelled it). */
  lemma {:induction false} SweepIsComplete<T(!new)>(behave: Behaviour<T>, cmds: seq<ClockCommand<T>>, ms: nat, e: (nat,
                                             nat))
    requires e in Outstanding(ClockRun(behave, cmds).log) && e.1 <= ClockRun(behave, cmds).clock.now + ms
    ensures e !in Outstanding(ClockRun(behave, cmds + [Tick(ms)]).log)
  {
    RunGood(behave, cmds);
    AdvancedComplete(behave, ClockRun(behave, cmds), ms, e);
    RunSnoc(behave, cmds, Tick(ms));
  }

  lemma {:induction false} AdvancedComplete<T(!new)>(behave: Behaviour<T>, tl: Timeline<T>, ms: nat, e: (nat, nat))
    requires Good(tl) && e in Outstanding(tl.log) && e.1 <= tl.clock.now + ms
    ensures e !in Outstanding(Advanced(behave, tl, ms).log)
  {
    AdvancedGood(behave, tl, ms);
    DueHandled(tl, Advanced(behave, tl, ms), Sort(DueEntries(tl.clock.jobs, tl.clock.now + ms)), tl.clock.now + ms, e);
  }

  lemma {:induction false} RunSnoc<T>(behave: Behaviour<T>, cmds: seq<ClockCommand<T>>, cmd: ClockCommand<T>)
    ensures ClockRun(behave, cmds + [cmd]) == ClockStep(behave, ClockRun(behave, cmds), cmd)
  {
    assert (cmds + [cmd])[..|cmds|] == cmds;
  }

  lemma {:induction false} DueHandled<T(!new)>(tl: Timeline<T>, tl': Timeline<T>, due: seq<(nat, nat)>, now: nat,
                                        e: (nat, nat))
    requires Good(tl) && e in Outstanding(tl.log) && e.1 <= now
    requires due == Sort(DueEntries(tl.clock.jobs, now)) && Sweeping(tl, tl', due, |due|)
    ensures e !in Outstanding(tl'.log)
  {
    DueSorted(tl.clock.jobs, now);
    assert (e.1, e.0) in due;
    AgendaMember(tl'.clock.jobs, e);
  }
}
