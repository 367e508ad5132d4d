/**
 * _opt_verify: the checks sbatch runs over its option record once every
 * option is read, and the defaults it fills in on the way. The record is
 * a class whose fields the method updates one by one; OptState is its
 * value, and Accepts and Normalise say what the method returns and leaves.
 */
module SbatchVerify {
  import opened CLib
  import SbatchArgs

  /** uid_t and gid_t -1: no --uid or --gid was given. */
  const ID_UNSET: nat := 0xffff_ffff

  /** INFINITE as slurm.h defines it. */
  const INFINITE: int := 0xffff_ffff

  /** The fields of the option record that _opt_verify reads or writes, grouped by concern. */
  datatype Verbosity = Verbosity(quiet: int, verbose: int)
  datatype Placement = Placement(noAlloc: bool, nodelist: Option<string>,
                                 excNodes: Option<string>, relative: Option<string>)
  datatype Counts = Counts(mincpus: int, cpusPerTask: int, nprocs: int, nprocsSet: bool,
                           minNodes: int, maxNodes: int, nodesSet: bool)
  datatype Naming = Naming(jobName: Option<string>, scriptArgv: seq<string>)
  datatype Times = Times(maxWait: int, maxExitTimeout: int, timeLimit: int)
  datatype Ids = Ids(uid: nat, euid: nat, gid: nat, egid: nat)
  datatype OptState = OptState(out: Verbosity, place: Placement, counts: Counts, naming: Naming,
                               times: Times, ids: Ids, propagate: Option<string>)

  // The checks, each one error message of _opt_verify.

  predicate QuietAndVerbose(v: Verbosity)
  {
    v.quiet != 0 && v.verbose != 0
  }

  /** -Z without a node list, or with --exclude or --relative. */
  predicate NoAllocationMisused(p: Placement)
  {
    p.noAlloc && (p.nodelist.None? || p.excNodes.Some? || p.relative.Some?)
  }

  predicate RelativeWithNodes(p: Placement)
  {
    p.relative.Some? && (p.excNodes.Some? || p.nodelist.Some?)
  }

  /** A node range that is empty, negative, or whose non-zero maximum is below its minimum. */
  predicate BadNodeRange(c: Counts)
  {
    c.minNodes <= 0 || c.maxNodes < 0 || (c.maxNodes != 0 && c.minNodes > c.maxNodes)
  }

  /**
   * Whether _opt_verify returns true; rlimitsInvalid is what the external
   * parse_rlimits answers for the --propagate list.
   */
  predicate Accepts(s: OptState, rlimitsInvalid: bool)
  {
    !QuietAndVerbose(s.out) && !NoAllocationMisused(s.place) && !RelativeWithNodes(s.place) &&
    s.counts.nprocs > 0 && s.counts.cpusPerTask > 0 && !BadNodeRange(s.counts) &&
    !(s.propagate.Some? && rlimitsInvalid)
  }

  /** At least as many CPUs per node as per task. */
  function RaiseMincpus(c: Counts): Counts
  {
    if c.mincpus < c.cpusPerTask then c.(mincpus := c.cpusPerTask) else c
  }

  /**
   * The task and node counts once massaged: with a node count but no task
   * count, one task per node; with both and fewer tasks than nodes, the
   * minimum node count drops to the task count (and a smaller non-zero
   * maximum rises to it).
   */
  function MassageCounts(c: Counts): Counts
  {
    if c.nodesSet && !c.nprocsSet then c.(nprocs := c.minNodes)
    else if c.nodesSet && c.nprocsSet && c.nprocs < c.minNodes then
      var c1 := c.(minNodes := c.nprocs);
      if c1.maxNodes != 0 && c1.minNodes > c1.maxNodes then c1.(maxNodes := c1.minNodes) else c1
    else c
  }

  /** The counts _opt_verify leaves behind. */
  function NormaliseCounts(c: Counts): (d: Counts)
    ensures d.mincpus >= d.cpusPerTask && d.mincpus >= c.mincpus
    ensures d.cpusPerTask == c.cpusPerTask && d.nprocsSet == c.nprocsSet && d.nodesSet == c.nodesSet
    ensures c.nodesSet && !c.nprocsSet ==> d.nprocs == d.minNodes == c.minNodes && d.maxNodes == c.maxNodes
    ensures c.nodesSet && c.nprocsSet ==> d.nprocs == c.nprocs && d.minNodes <= d.nprocs
    ensures !c.nodesSet ==> d.nprocs == c.nprocs && d.minNodes == c.minNodes && d.maxNodes == c.maxNodes
    ensures d.minNodes <= c.minNodes
  {
    MassageCounts(RaiseMincpus(c))
  }

  /** A job without a name is named after its script, without the directories. */
  function NameJob(n: Naming): (m: Naming)
    ensures m.scriptArgv == n.scriptArgv
    ensures n.jobName.Some? ==> m.jobName == n.jobName
    ensures |n.scriptArgv| > 0 ==> m.jobName.Some?
    ensures n.jobName.None? && |n.scriptArgv| > 0 ==> '/' !in m.jobName.value
  {
    if n.jobName.None? && |n.scriptArgv| > 0
    then n.(jobName := SbatchArgs.BaseName(Some(n.scriptArgv[0])))
    else n
  }

  /** --wait overrides the exit timeout, and a zero time limit becomes INFINITE. */
  function NormaliseTimes(t: Times): (u: Times)
    ensures u.maxWait == t.maxWait
    ensures u.maxExitTimeout == if t.maxWait != 0 then t.maxWait else t.maxExitTimeout
    ensures u.timeLimit != 0 && (t.timeLimit != 0 ==> u.timeLimit == t.timeLimit)
  {
    var t1 := if t.maxWait != 0 then t.(maxExitTimeout := t.maxWait) else t;
    if t1.timeLimit == 0 then t1.(timeLimit := ToInt32(INFINITE)) else t1
  }

  /** A given effective group id replaces the real one. */
  function CopyEgid(i: Ids): Ids
  {
    if i.egid != ID_UNSET && i.egid != i.gid then i.(gid := i.egid) else i
  }

  /** An effective user or group id that was given replaces the real one. */
  function EffectiveIds(i: Ids): (j: Ids)
    ensures j.euid == i.euid && j.egid == i.egid
    ensures j.uid == if i.euid != ID_UNSET then i.euid else i.uid
    ensures j.gid == if i.egid != ID_UNSET then i.egid else i.gid
  {
    var i1 := if i.euid != ID_UNSET && i.euid != i.uid then i.(uid := i.euid) else i;
    CopyEgid(i1)
  }

  /** The record _opt_verify leaves behind, whatever it returns. */
  function Normalise(s: OptState): OptState
  {
    s.(counts := NormaliseCounts(s.counts), naming := NameJob(s.naming),
       times := NormaliseTimes(s.times), ids := EffectiveIds(s.ids))
  }

  /** The option record, updated in place. */
  class Opt {
    var quiet: int
    var verbose: int
    var noAlloc: bool
    var nodelist: Option<string>
    var excNodes: Option<string>
    var relative: Option<string>
    var mincpus: int
    var cpusPerTask: int
    var jobName: Option<string>
    var scriptArgv: seq<string>
    var nprocs: int
    var nprocsSet: bool
    var minNodes: int
    var maxNodes: int
    var nodesSet: bool
    var maxWait: int
    var maxExitTimeout: int
    var timeLimit: int
    var uid: nat
    var euid: nat
    var gid: nat
    var egid: nat
    var propagate: Option<string>

    function State(): OptState
      reads this
    {
      OptState(Verbosity(quiet, verbose),
               Placement(noAlloc, nodelist, excNodes, relative),
               Counts(mincpus, cpusPerTask, nprocs, nprocsSet, minNodes, maxNodes, nodesSet),
               Naming(jobName, scriptArgv),
               Times(maxWait, maxExitTimeout, timeLimit),
               Ids(uid, euid, gid, egid),
               propagate)
    }

    /** The first five checks: --quiet with --verbose, and -Z or --relative with node lists. */
    method CheckPlacement() returns (ok: bool)
      ensures ok == (!QuietAndVerbose(State().out) && !NoAllocationMisused(State().place) &&
                     !RelativeWithNodes(State().place))
    {
      ok := true;
      if quiet != 0 && verbose != 0 {
        ok := false;
      }
      if noAlloc && nodelist.None? {
        ok := false;
      }
      if noAlloc && excNodes.Some? {
        ok := false;
      }
      if noAlloc && relative.Some? {
        ok := false;
      }
      if relative.Some? && (excNodes.Some? || nodelist.Some?) {
        ok := false;
      }
    }

    method ApplyMincpus()
      modifies this
      ensures State() == old(State()).(counts := RaiseMincpus(old(State()).counts))
    {
      if mincpus < cpusPerTask {
        mincpus := cpusPerTask;
      }
    }

    method ApplyJobName()
      modifies this
      ensures State() == old(State()).(naming := NameJob(old(State()).naming))
    {
      if jobName.None? && |scriptArgv| > 0 {
        jobName := SbatchArgs.BaseName(Some(scriptArgv[0]));
      }
    }

    /** The checks for realistic task, CPU and node counts. */
    method CheckCounts() returns (ok: bool)
      ensures ok == (State().counts.nprocs > 0 && State().counts.cpusPerTask > 0 &&
                     !BadNodeRange(State().counts))
    {
      ok := true;
      if nprocs <= 0 {
        ok := false;
      }
      if cpusPerTask <= 0 {
        ok := false;
      }
      if minNodes <= 0 || maxNodes < 0 || (maxNodes != 0 && minNodes > maxNodes) {
        ok := false;
      }
    }

    method ApplyCountMassage()
      modifies this
      ensures State() == old(State()).(counts := MassageCounts(old(State()).counts))
    {
      if nodesSet && !nprocsSet {
        nprocs := minNodes;
      } else if nodesSet && nprocsSet {
        if nprocs < minNodes {
          minNodes := nprocs;
          if maxNodes != 0 && minNodes > maxNodes {
            maxNodes := minNodes;
          }
        }
      }
    }

    method ApplyTimes()
      modifies this
      ensures State() == old(State()).(times := NormaliseTimes(old(State()).times))
    {
      if maxWait != 0 {
        maxExitTimeout := maxWait;
      }
      if timeLimit == 0 {
        timeLimit := ToInt32(INFINITE);
      }
    }

    /**
     * The effective ids. The source compares and copies the group id a
     * second time, which can never change it (RepeatedEgidCheckIsIdle),
     * so that second copy is not repeated here.
     */
    method ApplyEffectiveIds()
      modifies this
      ensures State() == old(State()).(ids := EffectiveIds(old(State()).ids))
    {
      if euid != ID_UNSET && euid != uid {
        uid := euid;
      }
      if egid != ID_UNSET && egid != gid {
        gid := egid;
      }
    }

    /**
     * _opt_verify. Every check runs, so every message would be logged; the
     * result is false when any of them failed.
     */
    method Verify(rlimitsInvalid: bool) returns (verified: bool)
      modifies this
      ensures verified == Accepts(old(State()), rlimitsInvalid)
      ensures State() == Normalise(old(State()))
    {
      verified := CheckPlacement();
      ApplyMincpus();
      ApplyJobName();
      var countsOk := CheckCounts();
      verified := verified && countsOk;
      ApplyCountMassage();
      ApplyTimes();
      ApplyEffectiveIds();
      if propagate.Some? && rlimitsInvalid {
        verified := false;
      }
    }
  }

  /** A zero time limit becomes INFINITE, which the int field holds as -1. */
  lemma ZeroTimeLimitIsInfinite(t: Times)
    requires t.timeLimit == 0
    ensures NormaliseTimes(t).timeLimit == -1
  {
    assert ToInt32(INFINITE) == -1;
  }

  /** The second effective group id check finds nothing left to do. */
  lemma RepeatedEgidCheckIsIdle(i: Ids)
    ensures CopyEgid(EffectiveIds(i)) == EffectiveIds(i)
  {
  }

  /** Asking for both --quiet and --verbose, or an impossible node range, fails the check. */
  lemma Rejections(s: OptState, rlimitsInvalid: bool)
    ensures s.out.quiet != 0 && s.out.verbose != 0 ==> !Accepts(s, rlimitsInvalid)
    ensures var c := s.counts;
      c.minNodes <= 0 || c.maxNodes < 0 || 0 < c.maxNodes < c.minNodes ==> !Accepts(s, rlimitsInvalid)
    ensures s.place.noAlloc && s.place.nodelist.None? ==> !Accepts(s, rlimitsInvalid)
  {
  }

  /**
   * After a successful check the counts are consistent: at least one node,
   * the non-zero maximum not below the minimum, at least one task, and
   * with a node count given, at least as many tasks as nodes.
   */
  lemma AcceptedCounts(s: OptState, rlimitsInvalid: bool)
    requires Accepts(s, rlimitsInvalid)
    ensures var d := Normalise(s).counts;
      1 <= d.minNodes && (d.maxNodes == 0 || d.minNodes <= d.maxNodes) && d.nprocs >= 1 &&
      (d.nodesSet ==> d.minNodes <= d.nprocs) &&
      (d.nprocsSet ==> d.nprocs == s.counts.nprocs)
  {
  }

  /** Normalising a normalised record changes nothing. */
  lemma NormaliseIdempotent(s: OptState)
    ensures Normalise(Normalise(s)) == Normalise(s)
  {
  }

  /** A record that passes the check still passes it once normalised. */
  lemma AcceptsNormalised(s: OptState, rlimitsInvalid: bool)
    requires Accepts(s, rlimitsInvalid)
    ensures Accepts(Normalise(s), rlimitsInvalid)
  {
    AcceptedCounts(s, rlimitsInvalid);
  }
}
