/** The pending jobs of one bot: work it backs up, waiting for its turn. */
module JobTable {
  import opened Text
  import KickRun

  const MAX_PENDING_JOBS := 32
  const ENF_SWEEP_MS := 5000

  datatype Act = Deop | Dehalf | Reop | Kick | BanNuh | BanMask | Unban | Mode | Limit
  datatype Job = Job(used: bool, act: Act, chan: string, target: string, reason: string, created: int)

  /** How the bot stands to a job when it looks: whether it is in the channel, its rank there
      (negative: it takes no part), whether the reason for the job has gone. */
  datatype View = View(inChan: Job -> bool, rank: Job -> int, moot: Job -> bool)

  predicate Same(j: Job, act: Act, chan: string, target: string) {
    j.used && j.act == act && EqIc(j.chan, chan) && EqIc(j.target, target)
  }

  predicate Waiting(jobs: seq<Job>, act: Act, chan: string, target: string) {
    exists i :: 0 <= i < |jobs| && Same(jobs[i], act, chan, target)
  }

  /** The first free slot; the table size when there is none. */
  function Free(jobs: seq<Job>): (i: nat)
    ensures i <= |jobs|
    ensures i < |jobs| ==> !jobs[i].used
    ensures forall j :: 0 <= j < i ==> jobs[j].used
  {
    if jobs == [] then 0 else if !jobs[0].used then 0 else 1 + Free(jobs[1..])
  }

  function Submit(jobs: seq<Job>, act: Act, chan: string, target: string, reason: string, now: int): seq<Job> {
    var i := Free(jobs);
    if Waiting(jobs, act, chan, target) || i == |jobs| then jobs
    else jobs[i := Job(true, act, chan, target, reason, now)]
  }

  function WaitOf(act: Act, rank: nat): nat {
    rank * KickRun.JOB_STEP_MS + if act == Limit then ENF_SWEEP_MS else 0
  }

  /** A slot looked at: given up, kept waiting, or its job run. */
  predicate Stale(j: Job, v: View, now: int) {
    !v.inChan(j) || now - j.created > KickRun.JOB_MAX_AGE_MS || v.rank(j) < 0
  }

  predicate Runs(j: Job, v: View, now: int) {
    j.used && !Stale(j, v, now) && now - j.created >= WaitOf(j.act, v.rank(j))
  }

  function Looked(j: Job, v: View, now: int): Job {
    if j.used && (Stale(j, v, now) || Runs(j, v, now)) then j.(used := false) else j
  }

  function Tick(jobs: seq<Job>, v: View, now: int): (r: seq<Job>)
    ensures |r| == |jobs| && forall i :: 0 <= i < |jobs| ==> r[i] == Looked(jobs[i], v, now)
  {
    seq(|jobs|, i requires 0 <= i < |jobs| => Looked(jobs[i], v, now))
  }

  /** The jobs run, in the order of their slots. */
  function Executed(jobs: seq<Job>, v: View, now: int): (r: seq<Job>)
    ensures forall j :: j in r <==> j in jobs && Runs(j, v, now) && !v.moot(j)
  {
    if jobs == [] then []
    else
      var n := |jobs| - 1;
      assert jobs == jobs[..n] + [jobs[n]];
      Executed(jobs[..n], v, now) + if Runs(jobs[n], v, now) && !v.moot(jobs[n]) then [jobs[n]] else []
  }

  lemma ExecutedNone(v: View, now: int)
    ensures Executed([], v, now) == []
  {
  }

  lemma ExecutedMore(jobs: seq<Job>, k: nat, v: View, now: int)
    requires k < |jobs|
    ensures Executed(jobs[..k + 1], v, now)
            == Executed(jobs[..k], v, now) + if Runs(jobs[k], v, now) && !v.moot(jobs[k]) then [jobs[k]] else []
  {
    assert jobs[..k + 1][..k] == jobs[..k];
  }

  class Jobs {
    const slots: array<Job>

    constructor ()
      ensures fresh(slots) && slots.Length == MAX_PENDING_JOBS
      ensures forall i :: 0 <= i < slots.Length ==> !slots[i].used
    {
      slots := new Job[MAX_PENDING_JOBS](_ => Job(false, Deop, "", "", "", 0));
    }

    /** False when the queue is full. */
    method SubmitJob(act: Act, chan: string, target: string, reason: string, now: int) returns (ok: bool)
      modifies slots
      ensures slots[..] == Submit(old(slots[..]), act, chan, target, reason, now)
      ensures ok <==> Waiting(slots[..], act, chan, target)
    {
      hide Lower;
      var slot: nat := slots.Length;
      for i := 0 to slots.Length
        invariant slots[..] == old(slots[..]) && slot <= slots.Length
        invariant slot == slots.Length ==> forall j :: 0 <= j < i ==> slots[j].used
        invariant slot < slots.Length ==> slot < i && !slots[slot].used && forall j :: 0 <= j < slot ==> slots[j].used
        invariant forall j :: 0 <= j < i ==> !Same(slots[j], act, chan, target)
      {
        if !slots[i].used {
          if slot == slots.Length {
            slot := i;
          }
        } else if slots[i].act == act && EqIc(slots[i].chan, chan) && EqIc(slots[i].target, target) {
          assert Same(slots[..][i], act, chan, target);
          return true;
        }
      }
      ghost var was := slots[..];
      assert !Waiting(was, act, chan, target);
      if slot == slots.Length {
        return false;
      }
      slots[slot] := Job(true, act, chan, target, reason, now);
      assert Same(slots[..][slot], act, chan, target);
      ok := true;
    }

    method Look(j: Job, v: View, now: int) returns (j': Job, run: bool)
      ensures j' == Looked(j, v, now)
      ensures run <==> Runs(j, v, now) && !v.moot(j)
    {
      if !j.used {
        return j, false;
      }
      if !v.inChan(j) || now - j.created > KickRun.JOB_MAX_AGE_MS {
        return j.(used := false), false;
      }
      var rank := v.rank(j);
      if rank < 0 {
        return j.(used := false), false;
      }
      if now - j.created < WaitOf(j.act, rank) {
        return j, false;
      }
      return j.(used := false), !v.moot(j);
    }

    method TickAll(v: View, now: int) returns (run: seq<Job>)
      modifies slots
      ensures slots[..] == Tick(old(slots[..]), v, now)
      ensures run == Executed(old(slots[..]), v, now)
    {
      hide Looked, Runs, Executed;
      ExecutedNone(v, now);
      run := [];
      ghost var was := slots[..];
      assert was[..0] == [];
      for i := 0 to slots.Length
        invariant forall j :: 0 <= j < i ==> slots[j] == Looked(was[j], v, now)
        invariant forall j :: i <= j < slots.Length ==> slots[j] == was[j]
        invariant run == Executed(was[..i], v, now)
      {
        ExecutedMore(was, i, v, now);
        var j := slots[i];
        var j', go := Look(j, v, now);
        slots[i] := j';
        if go {
          run := run + [j];
        }
      }
      assert was[..slots.Length] == was;
    }
  }

  // ---- one kick, as the other bots' clocks see it ------------------------------------------

  /** At most one slot for a piece of work. */
  predicate Unique(jobs: seq<Job>) {
    forall i, j :: 0 <= i < j < |jobs| && jobs[i].used ==> !Same(jobs[j], jobs[i].act, jobs[i].chan, jobs[i].target)
  }

  /** The slot of a piece of work; the table size when it is not waiting. */
  function SlotOf(jobs: seq<Job>, act: Act, chan: string, target: string): (i: nat)
    ensures i <= |jobs|
    ensures i < |jobs| ==> Same(jobs[i], act, chan, target)
    ensures forall j :: 0 <= j < i ==> !Same(jobs[j], act, chan, target)
  {
    if jobs == [] then 0 else if Same(jobs[0], act, chan, target) then 0 else 1 + SlotOf(jobs[1..], act, chan, target)
  }

  /** Since when a piece of work has been waiting. */
  function QueuedAt(jobs: seq<Job>, act: Act, chan: string, target: string): Option<int> {
    var i := SlotOf(jobs, act, chan, target);
    if i < |jobs| then Some(jobs[i].created) else None
  }

  lemma SlotIs(jobs: seq<Job>, i: nat, act: Act, chan: string, target: string)
    requires Unique(jobs) && i < |jobs| && Same(jobs[i], act, chan, target)
    ensures SlotOf(jobs, act, chan, target) == i
  {
    var s := SlotOf(jobs, act, chan, target);
    if s < i {
      assert Same(jobs[i], jobs[s].act, jobs[s].chan, jobs[s].target);
    }
  }

  lemma SubmitUnique(jobs: seq<Job>, act: Act, chan: string, target: string, reason: string, now: int)
    requires Unique(jobs)
    ensures Unique(Submit(jobs, act, chan, target, reason, now))
  {
  }

  lemma TickUnique(jobs: seq<Job>, v: View, now: int)
    requires Unique(jobs)
    ensures Unique(Tick(jobs, v, now))
  {
  }

  lemma SlotAfterPut(jobs: seq<Job>, f: nat, j: Job, act: Act, chan: string, target: string)
    requires f < |jobs| && !jobs[f].used && Unique(jobs[f := j])
    ensures var s := SlotOf(jobs, act, chan, target);
            SlotOf(jobs[f := j], act, chan, target)
            == if s < |jobs| then s else if Same(j, act, chan, target) then f else |jobs|
  {
    hide EqIc;
    var jobs', s := jobs[f := j], SlotOf(jobs, act, chan, target);
    if s < |jobs| {
      assert jobs'[s] == jobs[s];
      SlotIs(jobs', s, act, chan, target);
    } else if Same(j, act, chan, target) {
      SlotIs(jobs', f, act, chan, target);
    }
  }

  lemma SameAs(act: Act, chan: string, target: string, reason: string, now: int, act': Act, chan': string, target': string)
    ensures Same(Job(true, act, chan, target, reason, now), act', chan', target')
            <==> act == act' && EqIc(chan, chan') && EqIc(target, target')
  {
  }

  lemma NotWaiting(jobs: seq<Job>, act: Act, chan: string, target: string, act': Act, chan': string, target': string)
    requires act == act' && EqIc(chan, chan') && EqIc(target, target')
    ensures Waiting(jobs, act, chan, target) <==> SlotOf(jobs, act', chan', target') < |jobs|
  {
    hide Lower;
    var s := SlotOf(jobs, act', chan', target');
    if s < |jobs| {
      assert Same(jobs[s], act, chan, target);
    }
  }

  /** Submitting queues the work from now on, unless it waits already or the table is full; no
      other work is touched. */
  lemma SubmitMeans(jobs: seq<Job>, act: Act, chan: string, target: string, reason: string, now: int,
                    act': Act, chan': string, target': string)
    requires Unique(jobs)
    ensures var jobs' := Submit(jobs, act, chan, target, reason, now);
            var before := QueuedAt(jobs, act', chan', target');
            QueuedAt(jobs', act', chan', target')
            == if act == act' && EqIc(chan, chan') && EqIc(target, target') && before.None? && Free(jobs) < |jobs|
               then Some(now) else before
  {
    hide EqIc, Free, SlotOf, Same, Waiting, Unique;
    var f := Free(jobs);
    if act == act' && EqIc(chan, chan') && EqIc(target, target') {
      NotWaiting(jobs, act, chan, target, act', chan', target');
    }
    if !Waiting(jobs, act, chan, target) && f < |jobs| {
      SubmitUnique(jobs, act, chan, target, reason, now);
      SameAs(act, chan, target, reason, now, act', chan', target');
      SlotAfterPut(jobs, f, Job(true, act, chan, target, reason, now), act', chan', target');
    }
  }

  /** A look at the table, for a kick in a channel the bot is in and takes part in: it is run
      exactly when it is due by the rank's wait and not too old, and then, or when it is too old,
      it waits no more. */
  lemma TickMeans(jobs: seq<Job>, v: View, now: int, chan: string, target: string, seen: bool, acted: Option<int>)
    requires Unique(jobs)
    requires var i := SlotOf(jobs, Kick, chan, target);
             i < |jobs| ==> v.inChan(jobs[i]) && v.rank(jobs[i]) >= 0 && !v.moot(jobs[i])
    ensures var q := QueuedAt(jobs, Kick, chan, target);
            var i := SlotOf(jobs, Kick, chan, target);
            var due := q.Some? && KickRun.Due(v.rank(jobs[i]), KickRun.Bot(seen, q, acted), now);
            && (q.Some? ==> (jobs[i] in Executed(jobs, v, now) <==> due))
            && QueuedAt(Tick(jobs, v, now), Kick, chan, target)
               == if due || (q.Some? && now - q.value > KickRun.JOB_MAX_AGE_MS) then None else q
  {
    var i, t := SlotOf(jobs, Kick, chan, target), Tick(jobs, v, now);
    TickUnique(jobs, v, now);
    if i < |jobs| {
      assert jobs[i] in jobs;
      if t[i].used {
        SlotIs(t, i, Kick, chan, target);
      } else {
        var s := SlotOf(t, Kick, chan, target);
        if s < |t| {
          SlotIs(jobs, s, Kick, chan, target);
        }
      }
    } else {
      assert forall s :: 0 <= s < |t| && t[s].used ==> jobs[s] == t[s];
    }
  }

  /** What the bot sees of a waiting job: it is in the channel and takes part there. */
  predicate TakesPart(v: View, j: Job) {
    v.inChan(j) && v.rank(j) >= 0
  }

  /** The wait is over -- 1.5 s for each bot dealt before, and a sweep of 5 s more for a limit -- and the job
      is at most 30 s old. */
  predicate Ripe(v: View, j: Job, now: int) {
    v.rank(j) * 1500 + (if j.act == Limit then 5000 else 0) <= now - j.created <= 30000
  }

  /** A look at the table, for every kind of work: what waits is run exactly when the bot takes part, the
      job is ripe and there is still a reason; and it waits on exactly while the bot takes part and
      the job is neither ripe nor too old. */
  lemma LookMeans(jobs: seq<Job>, v: View, now: int, act: Act, chan: string, target: string)
    requires Unique(jobs) && SlotOf(jobs, act, chan, target) < |jobs|
    ensures var j := jobs[SlotOf(jobs, act, chan, target)];
            && (j in Executed(jobs, v, now) <==> TakesPart(v, j) && Ripe(v, j, now) && !v.moot(j))
            && QueuedAt(Tick(jobs, v, now), act, chan, target)
               == if TakesPart(v, j) && !Ripe(v, j, now) && now - j.created <= 30000 then Some(j.created) else None
  {
    hide EqIc;
    var i, t := SlotOf(jobs, act, chan, target), Tick(jobs, v, now);
    TickUnique(jobs, v, now);
    assert jobs[i] in jobs;
    if t[i].used {
      SlotIs(t, i, act, chan, target);
    } else {
      var s := SlotOf(t, act, chan, target);
      if s < |t| {
        SlotIs(jobs, s, act, chan, target);
      }
    }
  }

  lemma SameAsItself(s: string)
    ensures EqIc(s, s)
  {
  }

  /** A backup that submits a kick queues it as in the run of all bots, where its queue has room when a slot
      is free. */
  lemma SubmitIsKickRun(jobs: seq<Job>, chan: string, target: string, reason: string, now: int,
                        rank: KickRun.Ranks, net: KickRun.Net, b: string)
    requires Unique(jobs) && rank(b) > 0
    requires KickRun.At(net, b).queued == QueuedAt(jobs, Kick, chan, target)
    ensures var next := KickRun.Step(rank, net, KickRun.Submit(b, now, Free(jobs) < |jobs|));
            && KickRun.At(next, b).queued == QueuedAt(Submit(jobs, Kick, chan, target, reason, now), Kick, chan, target)
            && next.kicks == net.kicks
  {
    hide EqIc, Unique, QueuedAt, Submit, Free;
    SubmitMeans(jobs, Kick, chan, target, reason, now, Kick, chan, target);
    SameAsItself(chan);
    SameAsItself(target);
  }
}
