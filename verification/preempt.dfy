/**
 * The partition-priority preemption plugin: which running or suspended jobs
 * a pending job may preempt, in which order, and with which preemption mode.
 * The global job list is passed in as a sequence, node bitmaps are sets of
 * node indices and a NULL pointer is None.
 */
module PartitionPrio {
  import opened CLib

  type Uint16 = x: nat | x < 0x1_0000
  type Uint32 = x: nat | x < 0x1_0000_0000

  /** (uint16_t) NO_VAL: a partition without its own preemption mode. */
  const NO_VAL16: bv16 := 0xfffe
  const PREEMPT_MODE_OFF: bv16 := 0x0000
  const PREEMPT_MODE_GANG: bv16 := 0x8000

  datatype JobState = Pending | Running | Suspended | Complete | Cancelled | Failed | Timeout | NodeFail

  datatype Partition = Partition(
    name: string,
    priority: Uint16,
    preemptMode: bv16,
    nodeBitmap: Option<set<nat>>)

  datatype JobDetails = JobDetails(expandingJobId: Uint32)

  datatype Job = Job(
    jobId: Uint32,
    state: JobState,
    part: Option<Partition>,
    nodeBitmap: Option<set<nat>>,
    nodeCnt: Uint32,
    details: Option<JobDetails>)

  /** An entry of the scheduler's job queue: a job paired with one of its partitions. */
  datatype JobQueueRec = JobQueueRec(job: Job, part: Option<Partition>)

  /** The preemptor checks at the head of find_preemptable_jobs. */
  predicate ValidPreemptor(p: Option<Job>)
  {
    p.Some? && p.value.state == Pending && p.value.part.Some? && p.value.part.value.nodeBitmap.Some?
  }

  /** The four checks a job must pass to become a preemption candidate of p. */
  predicate IsCandidate(p: Job, j: Job)
    requires ValidPreemptor(Some(p))
  {
    && (j.state == Running || j.state == Suspended)
    && j.part.Some? && j.part.value.priority < p.part.value.priority
    && j.nodeBitmap.Some? && j.nodeBitmap.value * p.part.value.nodeBitmap.value != {}
    && !(p.details.Some? && p.details.value.expandingJobId == j.jobId)
  }

  /** The candidates among jobs, in list order. */
  function Candidates(p: Job, jobs: seq<Job>): (c: seq<Job>)
    requires ValidPreemptor(Some(p))
    ensures |c| <= |jobs|
  {
    if jobs == [] then []
    else
      var last := jobs[|jobs| - 1];
      Candidates(p, jobs[..|jobs| - 1]) + (if IsCandidate(p, last) then [last] else [])
  }

  /** A job is among the candidates exactly when it is in the list and passes every check. */
  lemma {:induction false} CandidatesExact(p: Job, jobs: seq<Job>, j: Job)
    requires ValidPreemptor(Some(p))
    ensures j in Candidates(p, jobs) <==> j in jobs && IsCandidate(p, j)
    ensures multiset(Candidates(p, jobs))[j] == if IsCandidate(p, j) then multiset(jobs)[j] else 0
  {
    if jobs != [] {
      var init := jobs[..|jobs| - 1];
      CandidatesExact(p, init, j);
      assert jobs == init + [jobs[|jobs| - 1]];
    }
  }

  /**
   * _gen_job_prio: the partition priority in the upper 16 bits and the node
   * count, clamped to 0xffff, in the lower 16 bits, computed in uint32_t.
   */
  function GenJobPrio(j: Job): (key: Uint32)
    ensures key / 0x1_0000 == (if j.part.Some? then j.part.value.priority else 0)
    ensures key % 0x1_0000 == if j.nodeCnt >= 0xffff then 0xffff else j.nodeCnt
  {
    var high := if j.part.Some? then (j.part.value.priority * 0x1_0000) % 0x1_0000_0000 else 0;
    var low := if j.nodeCnt >= 0xffff then 0xffff else j.nodeCnt;
    (high + low) % 0x1_0000_0000
  }

  /** _sort_by_prio: a three-way comparison of the two keys as unsigned values. */
  function SortByPrio(x: Job, y: Job): (rc: int)
    ensures rc == -1 <==> GenJobPrio(x) < GenJobPrio(y)
    ensures rc == 0 <==> GenJobPrio(x) == GenJobPrio(y)
    ensures rc == 1 <==> GenJobPrio(x) > GenJobPrio(y)
  {
    var p1 := GenJobPrio(x);
    var p2 := GenJobPrio(y);
    if p1 > p2 then 1 else if p1 < p2 then -1 else 0
  }

  /** The comparator is antisymmetric: swapping the jobs negates the answer. */
  lemma SortByPrioAntisymmetric(x: Job, y: Job)
    ensures SortByPrio(x, y) == -SortByPrio(y, x)
  {
  }

  /** A job of a lower-priority partition always ranks before one of a higher one. */
  lemma {:induction false} PartitionPriorityDominates(x: Job, y: Job)
    requires x.part.Some? && y.part.Some? && x.part.value.priority < y.part.value.priority
    ensures SortByPrio(x, y) == -1
  {
    var kx, ky := GenJobPrio(x), GenJobPrio(y);
    assert kx == (kx / 0x1_0000) * 0x1_0000 + kx % 0x1_0000;
    assert ky == (ky / 0x1_0000) * 0x1_0000 + ky % 0x1_0000;
  }

  /** Within one partition priority, fewer (clamped) nodes rank first. */
  lemma {:induction false} NodeCountBreaksTies(x: Job, y: Job)
    requires x.part.Some? && y.part.Some? && x.part.value.priority == y.part.value.priority
    requires x.nodeCnt < y.nodeCnt && x.nodeCnt < 0xffff
    ensures SortByPrio(x, y) == -1
  {
    var kx, ky := GenJobPrio(x), GenJobPrio(y);
    assert kx == (kx / 0x1_0000) * 0x1_0000 + kx % 0x1_0000;
    assert ky == (ky / 0x1_0000) * 0x1_0000 + ky % 0x1_0000;
  }

  /** Ascending order under _sort_by_prio. */
  predicate SortedByPrio(s: seq<Job>)
  {
    forall i, k :: 0 <= i < k < |s| ==> SortByPrio(s[i], s[k]) <= 0
  }

  /** Inserts x into a sorted sequence after every job that does not rank above it. */
  function Insert(s: seq<Job>, x: Job): (t: seq<Job>)
    requires SortedByPrio(s)
    ensures SortedByPrio(t) && multiset(t) == multiset(s) + multiset{x}
  {
    if s == [] then [x]
    else if SortByPrio(s[0], x) <= 0 then
      SortedTail(s);
      var rest := Insert(s[1..], x);
      assert s == [s[0]] + s[1..];
      HeadBelowAll(s, x, rest);
      SortedCons(s[0], rest);
      [s[0]] + rest
    else
      assert s == [s[0]] + s[1..];
      SortedCons(x, s);
      [x] + s
  }

  lemma SortedTail(s: seq<Job>)
    requires s != [] && SortedByPrio(s)
    ensures SortedByPrio(s[1..])
  {
    forall i, k | 0 <= i < k < |s| - 1 ensures SortByPrio(s[1..][i], s[1..][k]) <= 0 {
      assert s[1..][i] == s[i + 1] && s[1..][k] == s[k + 1];
    }
  }

  /** The head of a sorted sequence ranks no higher than anything in its tail with x added. */
  lemma HeadBelowAll(s: seq<Job>, x: Job, rest: seq<Job>)
    requires s != [] && SortedByPrio(s) && SortByPrio(s[0], x) <= 0
    requires multiset(rest) == multiset(s[1..]) + multiset{x}
    ensures forall k :: 0 <= k < |rest| ==> SortByPrio(s[0], rest[k]) <= 0
  {
    forall k | 0 <= k < |rest| ensures SortByPrio(s[0], rest[k]) <= 0 {
      assert rest[k] in multiset(rest);
      if rest[k] != x {
        assert rest[k] in multiset(s[1..]);
        var m :| 0 <= m < |s[1..]| && s[1..][m] == rest[k];
        assert SortByPrio(s[0], s[m + 1]) <= 0;
      }
    }
  }

  lemma SortedCons(h: Job, t: seq<Job>)
    requires SortedByPrio(t) && forall k :: 0 <= k < |t| ==> SortByPrio(h, t[k]) <= 0
    ensures SortedByPrio([h] + t)
  {
    var s := [h] + t;
    forall i, k | 0 <= i < k < |s| ensures SortByPrio(s[i], s[k]) <= 0 {
      assert s[k] == t[k - 1];
      if i > 0 {
        assert s[i] == t[i - 1];
      }
    }
  }

  /**
   * list_sort(list, _sort_by_prio): the list reordered ascending by the
   * comparator. Ties are left in an unspecified order.
   */
  method ListSort(s: seq<Job>) returns (t: seq<Job>)
    ensures SortedByPrio(t)
    ensures multiset(t) == multiset(s)
  {
    t := [];
    for i := 0 to |s|
      invariant SortedByPrio(t)
      invariant multiset(t) == multiset(s[..i])
    {
      assert s[..i + 1] == s[..i] + [s[i]];
      t := Insert(t, s[i]);
    }
    assert s[..|s|] == s;
  }

  /**
   * find_preemptable_jobs: None for an invalid preemptor or when no job
   * qualifies; otherwise every qualifying job of the list, each as often as
   * it occurs in the list, sorted by _sort_by_prio.
   */
  method FindPreemptableJobs(jobPtr: Option<Job>, jobList: seq<Job>) returns (r: Option<seq<Job>>)
    ensures !ValidPreemptor(jobPtr) ==> r == None
    ensures ValidPreemptor(jobPtr) ==> (r == None <==> Candidates(jobPtr.value, jobList) == [])
    ensures r.Some? ==> ValidPreemptor(jobPtr) && |r.value| > 0 && SortedByPrio(r.value)
    ensures r.Some? ==> multiset(r.value) == multiset(Candidates(jobPtr.value, jobList))
  {
    if jobPtr.None? || jobPtr.value.state != Pending || jobPtr.value.part.None?
       || jobPtr.value.part.value.nodeBitmap.None? {
      return None;
    }
    var p := jobPtr.value;
    var pPrio := p.part.value.priority;
    var pNodes := p.part.value.nodeBitmap.value;
    var preempteeJobList: Option<seq<Job>> := None;
    var i := 0;
    while i < |jobList|
      invariant 0 <= i <= |jobList|
      invariant preempteeJobList.None? <==> Candidates(p, jobList[..i]) == []
      invariant preempteeJobList.Some? ==> preempteeJobList.value == Candidates(p, jobList[..i])
    {
      var jp := jobList[i];
      assert jobList[..i + 1][..i] == jobList[..i];
      i := i + 1;
      if jp.state != Running && jp.state != Suspended {
        continue;
      }
      if jp.part.None? || jp.part.value.priority >= pPrio {
        continue;
      }
      if jp.nodeBitmap.None? || jp.nodeBitmap.value * pNodes == {} {
        continue;
      }
      if p.details.Some? && p.details.value.expandingJobId == jp.jobId {
        continue;
      }
      if preempteeJobList.None? {
        preempteeJobList := Some([]);
      }
      preempteeJobList := Some(preempteeJobList.value + [jp]);
    }
    assert jobList[..|jobList|] == jobList;
    if preempteeJobList.Some? {
      var sorted := ListSort(preempteeJobList.value);
      r := Some(sorted);
    } else {
      r := None;
    }
  }

  /**
   * The safety rules of the selection: every returned job is running or
   * suspended, belongs to a strictly lower-priority partition, holds nodes
   * that overlap the preemptor's partition, and is not the job the
   * preemptor is expanding.
   */
  lemma ReturnedJobsAreSafe(p: Job, jobs: seq<Job>, result: seq<Job>, j: Job)
    requires ValidPreemptor(Some(p))
    requires multiset(result) == multiset(Candidates(p, jobs))
    requires j in result
    ensures j.state == Running || j.state == Suspended
    ensures j.part.Some? && j.part.value.priority < p.part.value.priority
    ensures j.nodeBitmap.Some? && exists n :: n in j.nodeBitmap.value && n in p.part.value.nodeBitmap.value
    ensures p.details.Some? ==> p.details.value.expandingJobId != j.jobId
  {
    assert j in multiset(result);
    CandidatesExact(p, jobs, j);
    var n :| n in j.nodeBitmap.value * p.part.value.nodeBitmap.value;
  }

  /** Completeness: a job of the list that passes every check is returned, as often as it is listed. */
  lemma QualifyingJobsAreReturned(p: Job, jobs: seq<Job>, result: seq<Job>, j: Job)
    requires ValidPreemptor(Some(p))
    requires multiset(result) == multiset(Candidates(p, jobs))
    requires j in jobs && IsCandidate(p, j)
    ensures j in result
    ensures multiset(result)[j] == multiset(jobs)[j]
  {
    CandidatesExact(p, jobs, j);
  }

  /** In a sorted result, partition priorities never decrease along the list. */
  lemma {:induction false} SortedResultHasAscendingPriorities(s: seq<Job>, i: nat, k: nat)
    requires SortedByPrio(s) && i < k < |s|
    requires s[i].part.Some? && s[k].part.Some?
    ensures s[i].part.value.priority <= s[k].part.value.priority
  {
    if s[i].part.value.priority > s[k].part.value.priority {
      PartitionPriorityDominates(s[k], s[i]);
      SortByPrioAntisymmetric(s[k], s[i]);
    }
  }

  /**
   * job_preempt_mode: the partition's own preemption mode when it is set;
   * otherwise the cluster-wide mode with only the GANG bit cleared.
   */
  function JobPreemptMode(j: Job, clusterMode: bv16): (mode: bv16)
    ensures j.part.Some? && j.part.value.preemptMode != NO_VAL16 ==> mode == j.part.value.preemptMode
    ensures !(j.part.Some? && j.part.value.preemptMode != NO_VAL16) ==>
              mode & PREEMPT_MODE_GANG == 0 && mode | (clusterMode & PREEMPT_MODE_GANG) == clusterMode
  {
    if j.part.Some? && j.part.value.preemptMode != NO_VAL16 then j.part.value.preemptMode
    else clusterMode & !PREEMPT_MODE_GANG
  }

  /** preemption_enabled: the cluster-wide mode is anything but OFF. */
  function PreemptionEnabled(clusterMode: bv16): (enabled: bool)
    ensures enabled <==> clusterMode != PREEMPT_MODE_OFF
  {
    clusterMode != PREEMPT_MODE_OFF
  }

  /**
   * With preemption disabled cluster-wide, a job whose partition sets no
   * mode of its own resolves to OFF as well; with GANG alone it resolves to OFF
   * although preemption counts as enabled.
   */
  lemma FallbackModeOff(j: Job, clusterMode: bv16)
    requires !(j.part.Some? && j.part.value.preemptMode != NO_VAL16)
    ensures !PreemptionEnabled(clusterMode) ==> JobPreemptMode(j, clusterMode) == PREEMPT_MODE_OFF
    ensures clusterMode == PREEMPT_MODE_GANG ==>
              PreemptionEnabled(clusterMode) && JobPreemptMode(j, clusterMode) == PREEMPT_MODE_OFF
  {
  }

  /** job_preempt_check: both partitions known and the preemptor's strictly higher. */
  function JobPreemptCheck(preemptor: JobQueueRec, preemptee: JobQueueRec): (can: bool)
    ensures can ==> preemptor.part.Some? && preemptee.part.Some?
    ensures preemptor.part.Some? && preemptee.part.Some? ==>
              (can <==> preemptor.part.value.priority > preemptee.part.value.priority)
  {
    if preemptor.part.Some? && preemptee.part.Some? then
      preemptor.part.value.priority > preemptee.part.value.priority
    else false
  }

  /** The pairwise check is a strict order: never both ways, and transitive. */
  lemma JobPreemptCheckStrictOrder(a: JobQueueRec, b: JobQueueRec, c: JobQueueRec)
    ensures !(JobPreemptCheck(a, b) && JobPreemptCheck(b, a))
    ensures !JobPreemptCheck(a, a)
    ensures JobPreemptCheck(a, b) && JobPreemptCheck(b, c) ==> JobPreemptCheck(a, c)
  {
  }

  /**
   * A candidate found by find_preemptable_jobs also passes the pairwise
   * check when both queue records carry the jobs' own partitions.
   */
  lemma CandidatePassesPairwiseCheck(p: Job, j: Job)
    requires ValidPreemptor(Some(p)) && IsCandidate(p, j)
    ensures JobPreemptCheck(JobQueueRec(p, p.part), JobQueueRec(j, j.part))
  {
  }
}
