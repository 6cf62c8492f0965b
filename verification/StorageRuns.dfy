/**
 Storage surveillance under the control loop: what the loop's own lateness, and scans that raise,
 do to the judgement of failed probes.
 */
module StorageRuns {
  import opened Outcomes
  import opened HealthTypes
  import S = Scheduler
  import opened Storage

  /** What the storage check, number `check` of a run, meets when served in round i: its probes' outcomes. */
  type RoundProbes = nat -> (nat -> Option<Probe>)

  /** The probes a service in round i makes, up to one that raises; none if the round does not serve it. */
  ghost function ProbedIn(s: StorageConfig, run: S.Run, check: nat, probes: RoundProbes, i: nat): seq<Seen>
    requires i < |run.rounds| && check < |run.initial|
  {
    if S.ServedIn(run, i, check) then Probed(s.mounts, probes(i), run.rounds[i].polls[check]) else []
  }

  /** Every probe made before round i. */
  ghost function SeenBefore(s: StorageConfig, run: S.Run, check: nat, probes: RoundProbes, i: nat): seq<Seen>
    requires i <= |run.rounds| && check < |run.initial|
  {
    if i == 0 then [] else SeenBefore(s, run, check, probes, i - 1) + ProbedIn(s, run, check, probes, i - 1)
  }

  /** What the check remembers on entering round i: a service call scans the mounts exactly when due. */
  ghost function MemoryBefore(s: StorageConfig, run: S.Run, check: nat, probes: RoundProbes, i: nat): Memory
    requires i <= |run.rounds| && check < |run.initial|
  {
    if i == 0 then FreshMemory(s)
    else
      var before := MemoryBefore(s, run, check, probes, i - 1);
      if S.ServedIn(run, i - 1, check)
      then ScanMounts(s, before, s.mounts, probes(i - 1), run.rounds[i - 1].polls[check]).memory
      else before
  }

  lemma {:induction false} RemembersWhatWasSeen(s: StorageConfig, run: S.Run, check: nat, probes: RoundProbes, i: nat)
    requires i <= |run.rounds| && check < |run.initial|
    ensures MemoryBefore(s, run, check, probes, i) == MemoryAfter(s, SeenBefore(s, run, check, probes, i))
  {
    hide ScanMounts, S.ServedIn, Probed, MemoryAfter, Judged, S.TimersAt;
    if i == 0 {
      NothingSeen(s);
    } else {
      RemembersWhatWasSeen(s, run, check, probes, i - 1);
      var seen := SeenBefore(s, run, check, probes, i - 1);
      if S.ServedIn(run, i - 1, check) {
        PollPresent(run, check, i - 1);
        ScanExtendsHistory(s, seen, s.mounts, probes(i - 1), run.rounds[i - 1].polls[check]);
      } else {
        assert seen + [] == seen;
      }
    }
  }

  lemma NothingSeen(s: StorageConfig)
    ensures MemoryAfter(s, []) == FreshMemory(s)
  {
  }

  lemma PollPresent(run: S.Run, check: nat, i: nat)
    requires i < |run.rounds| && check < |run.initial| && S.ServedIn(run, i, check)
    ensures check < |run.rounds[i].polls|
  {
  }

  /** The state the scan of round i gives to its x-th probe; it is reported unless a later probe raises. */
  ghost function StateGiven(s: StorageConfig, run: S.Run, check: nat, probes: RoundProbes, i: nat, x: nat): HealthState
    requires i < |run.rounds| && check < |run.initial| && S.ServedIn(run, i, check)
    requires x < |ProbedIn(s, run, check, probes, i)|
  {
    var scan := ScanMounts(s, MemoryBefore(s, run, check, probes, i), s.mounts, probes(i), run.rounds[i].polls[check]);
    RemembersWhatWasSeen(s, run, check, probes, i);
    ScanExtendsHistory(s, SeenBefore(s, run, check, probes, i), s.mounts, probes(i), run.rounds[i].polls[check]);
    JudgedAt(s, SeenBefore(s, run, check, probes, i), ProbedIn(s, run, check, probes, i), x);
    scan.results[x].state
  }

  /** The probes of x's mount made before it, in earlier rounds or earlier in its own scan. */
  ghost function EarlierProbes(s: StorageConfig, run: S.Run, check: nat, probes: RoundProbes, i: nat, x: nat): seq<Seen>
    requires i < |run.rounds| && check < |run.initial| && x < |ProbedIn(s, run, check, probes, i)|
  {
    var made := ProbedIn(s, run, check, probes, i);
    About(SeenBefore(s, run, check, probes, i) + made[..x], made[x].mount)
  }

  lemma MadeAtPoll(s: StorageConfig, run: S.Run, check: nat, probes: RoundProbes, i: nat)
    requires i < |run.rounds| && check < |run.initial| && S.ServedIn(run, i, check)
    ensures var made := ProbedIn(s, run, check, probes, i);
            forall a :: 0 <= a < |made| ==> made[a].at == run.rounds[i].polls[check]
  {
    ProbedAtOnce(s.mounts, probes(i), run.rounds[i].polls[check]);
  }

  /** A mount reached in round i was last probed at that round's poll. */
  lemma ReachedIn(s: StorageConfig, run: S.Run, check: nat, probes: RoundProbes, mount: string, i: nat)
    requires i < |run.rounds| && check < |run.initial|
    ensures var about := About(ProbedIn(s, run, check, probes, i), mount);
            if Probes(ProbedIn(s, run, check, probes, i), mount)
            then S.ServedIn(run, i, check) && about != [] && about[|about| - 1].at == run.rounds[i].polls[check]
            else about == []
  {
    hide About, Probed, Probes, S.TimersAt;
    NothingProbed(mount);
    if S.ServedIn(run, i, check) {
      ProbedAtOnce(s.mounts, probes(i), run.rounds[i].polls[check]);
      AboutOneInstant(ProbedIn(s, run, check, probes, i), mount, run.rounds[i].polls[check]);
    }
  }

  lemma SeenGrows(s: StorageConfig, run: S.Run, check: nat, probes: RoundProbes, mount: string, i: nat)
    requires i < |run.rounds| && check < |run.initial|
    ensures var before, made := SeenBefore(s, run, check, probes, i), ProbedIn(s, run, check, probes, i);
            About(SeenBefore(s, run, check, probes, i + 1), mount) == About(before, mount) + About(made, mount)
  {
    AboutConcat(SeenBefore(s, run, check, probes, i), ProbedIn(s, run, check, probes, i), mount);
  }

  /** Round r is the last one before round i whose scan reached the mount. */
  ghost predicate LastScanOf(s: StorageConfig, run: S.Run, check: nat, probes: RoundProbes, mount: string,
                             r: nat, i: nat)
    requires i <= |run.rounds| && check < |run.initial|
  {
    && r < i && Probes(ProbedIn(s, run, check, probes, r), mount)
    && forall e :: r < e < i ==> !Probes(ProbedIn(s, run, check, probes, e), mount)
  }

  /** Rounds whose scans never reach a mount add nothing to its history. */
  lemma {:induction false} LastReached(s: StorageConfig, run: S.Run, check: nat, probes: RoundProbes, mount: string,
                                       r: nat, i: nat)
    requires i <= |run.rounds| && check < |run.initial| && LastScanOf(s, run, check, probes, mount, r, i)
    ensures S.ServedIn(run, r, check)
    ensures var about := About(SeenBefore(s, run, check, probes, i), mount);
            about != [] && about[|about| - 1].at == run.rounds[r].polls[check]
    decreases i
  {
    hide About, Probes, ProbedIn, SeenBefore, S.ServedIn;
    SeenGrows(s, run, check, probes, mount, i - 1);
    ReachedIn(s, run, check, probes, mount, i - 1);
    if i > r + 1 {
      LastReached(s, run, check, probes, mount, r, i - 1);
    } else {
      PollPresent(run, check, r);
    }
  }

  lemma NothingProbed(mount: string)
    ensures !Probes([], mount) && About([], mount) == []
  {
  }

  /** A mount has a history before round i exactly if some earlier round's scan reached it. */
  lemma {:induction false} SeenIffReached(s: StorageConfig, run: S.Run, check: nat, probes: RoundProbes, mount: string,
                                          i: nat)
    requires i <= |run.rounds| && check < |run.initial|
    ensures About(SeenBefore(s, run, check, probes, i), mount) != []
            <==> exists r :: 0 <= r < i && Probes(ProbedIn(s, run, check, probes, r), mount)
  {
    hide About, Probes, ProbedIn, SeenBefore, S.ServedIn;
    if i == 0 {
      NothingSeenAtFirst(s, run, check, probes, mount);
    } else {
      SeenIffReached(s, run, check, probes, mount, i - 1);
      SeenGrows(s, run, check, probes, mount, i - 1);
      ReachedIn(s, run, check, probes, mount, i - 1);
    }
  }

  lemma NothingSeenAtFirst(s: StorageConfig, run: S.Run, check: nat, probes: RoundProbes, mount: string)
    requires check < |run.initial|
    ensures About(SeenBefore(s, run, check, probes, 0), mount) == []
  {
  }

  /** Probe x of round i, if it fails, is a FAULT exactly as the mount's previous probe decides. */
  ghost predicate DecidedByPrevious(s: StorageConfig, run: S.Run, check: nat, probes: RoundProbes, i: nat, x: nat)
    requires i < |run.rounds| && check < |run.initial| && S.ServedIn(run, i, check)
    requires x < |ProbedIn(s, run, check, probes, i)|
  {
    StateGiven(s, run, check, probes, i, x) == Fault
    <==> FaultAfter(s, EarlierProbes(s, run, check, probes, i, x), run.rounds[i].polls[check])
  }

  /**
   When that previous probe was: at the same poll if the mount is listed earlier in the same scan,
   otherwise at the poll of the last round whose scan reached the mount; there is none exactly if
   neither exists.
   */
  ghost predicate PreviousProbeAt(s: StorageConfig, run: S.Run, check: nat, probes: RoundProbes, i: nat, x: nat)
    requires i < |run.rounds| && check < |run.initial| && S.ServedIn(run, i, check)
    requires x < |ProbedIn(s, run, check, probes, i)|
  {
    var made, earlier := ProbedIn(s, run, check, probes, i), EarlierProbes(s, run, check, probes, i, x);
    var mount := made[x].mount;
    if Probes(made[..x], mount) then earlier != [] && earlier[|earlier| - 1].at == run.rounds[i].polls[check]
    else
      && (forall r: nat :: LastScanOf(s, run, check, probes, mount, r, i) ==>
                             && S.ServedIn(run, r, check) && earlier != []
                             && earlier[|earlier| - 1].at == run.rounds[r].polls[check])
      && (earlier == [] <==> forall r :: 0 <= r < i ==> !Probes(ProbedIn(s, run, check, probes, r), mount))
  }

  /**
   A failed probe in any round of the loop, whatever scans raised or were due in between and however
   often the mount is listed: it is a FAULT exactly when the mount's previous probe failed too, or was
   good but longer ago than the stall threshold.
   */
  lemma FailedProbeInLoop(s: StorageConfig, run: S.Run, check: nat, probes: RoundProbes, i: nat, x: nat)
    requires i < |run.rounds| && check < |run.initial| && S.ServedIn(run, i, check)
    requires x < |ProbedIn(s, run, check, probes, i)|
    ensures PreviousProbeAt(s, run, check, probes, i, x)
    ensures !ProbedIn(s, run, check, probes, i)[x].probe.ok ==> DecidedByPrevious(s, run, check, probes, i, x)
  {
    hide StateGiven, EarlierProbes, FaultAfter, PreviousProbeAt, DecidedByPrevious, S.TimersAt;
    PreviousProbeFound(s, run, check, probes, i, x);
    if !ProbedIn(s, run, check, probes, i)[x].probe.ok {
      FailureDecided(s, run, check, probes, i, x);
    }
  }

  lemma PreviousProbeFound(s: StorageConfig, run: S.Run, check: nat, probes: RoundProbes, i: nat, x: nat)
    requires i < |run.rounds| && check < |run.initial| && S.ServedIn(run, i, check)
    requires x < |ProbedIn(s, run, check, probes, i)|
    ensures PreviousProbeAt(s, run, check, probes, i, x)
  {
    hide About, Probes, ProbedIn, SeenBefore, S.TimersAt;
    PollPresent(run, check, i);
    var made, now := ProbedIn(s, run, check, probes, i), run.rounds[i].polls[check];
    var seen, mount := SeenBefore(s, run, check, probes, i), made[x].mount;
    MadeAtPoll(s, run, check, probes, i);
    AboutConcat(seen, made[..x], mount);
    AboutOneInstant(made[..x], mount, now);
    SeenIffReached(s, run, check, probes, mount, i);
    forall r: nat | LastScanOf(s, run, check, probes, mount, r, i)
      ensures S.ServedIn(run, r, check) && About(seen, mount) != []
      ensures About(seen, mount)[|About(seen, mount)| - 1].at == run.rounds[r].polls[check]
    {
      LastReached(s, run, check, probes, mount, r, i);
    }
  }

  /** A good probe in any round of the loop is judged by its readings only. */
  lemma GoodProbeInLoop(s: StorageConfig, run: S.Run, check: nat, probes: RoundProbes, i: nat, x: nat)
    requires i < |run.rounds| && check < |run.initial| && S.ServedIn(run, i, check)
    requires x < |ProbedIn(s, run, check, probes, i)| && ProbedIn(s, run, check, probes, i)[x].probe.ok
    ensures JudgedGood(s, ProbedIn(s, run, check, probes, i)[x].probe, StateGiven(s, run, check, probes, i, x))
  {
    hide About, Probed, SeenBefore, ScanMounts, MemoryAfter, MountResult, Judged, JudgedGood, S.TimersAt;
    var made, now := ProbedIn(s, run, check, probes, i), run.rounds[i].polls[check];
    var seen := SeenBefore(s, run, check, probes, i);
    RemembersWhatWasSeen(s, run, check, probes, i);
    ScanExtendsHistory(s, seen, s.mounts, probes(i), now);
    JudgedAt(s, seen, made, x);
    GoodProbeJudgement(s, seen + made[..x], made[x]);
  }

  lemma FailureDecided(s: StorageConfig, run: S.Run, check: nat, probes: RoundProbes, i: nat, x: nat)
    requires i < |run.rounds| && check < |run.initial| && S.ServedIn(run, i, check)
    requires x < |ProbedIn(s, run, check, probes, i)| && !ProbedIn(s, run, check, probes, i)[x].probe.ok
    ensures DecidedByPrevious(s, run, check, probes, i, x)
  {
    hide About, Probed, SeenBefore, ScanMounts, MemoryAfter, MountResult, Judged, FaultAfter, S.TimersAt;
    var made, now := ProbedIn(s, run, check, probes, i), run.rounds[i].polls[check];
    var seen := SeenBefore(s, run, check, probes, i);
    ProbedAtOnce(s.mounts, probes(i), now);
    RemembersWhatWasSeen(s, run, check, probes, i);
    ScanExtendsHistory(s, seen, s.mounts, probes(i), now);
    JudgedAt(s, seen, made, x);
    PreviousProbeDecides(s, seen + made[..x], made[x]);
  }

  /**
   When the stall threshold exceeds the scan period by at least twice a round's work, and the scan
   of the check's previous service reached the mount, a failed probe is a FAULT exactly when the
   mount's previous probe failed too. A scan that raised before the mount is what breaks this: then
   the previous probe is that of an older round, and a lone failure may already be a FAULT.
   */
  lemma StallMarginCoversLateness(s: StorageConfig, run: S.Run, check: nat, probes: RoundProbes, r: nat, i: nat, x: nat)
    requires S.Legal(run) && r < i < |run.rounds| && check < |run.initial|
    requires run.initial[check].period == s.scanPeriod && s.stallThreshold >= s.scanPeriod + 2.0 * run.work
    requires S.ServedIn(run, r, check) && S.ServedIn(run, i, check)
    requires forall e :: r < e < i ==> !S.ServedIn(run, e, check)
    requires x < |ProbedIn(s, run, check, probes, i)| && !ProbedIn(s, run, check, probes, i)[x].probe.ok
    requires Probes(ProbedIn(s, run, check, probes, r), ProbedIn(s, run, check, probes, i)[x].mount)
    ensures EarlierProbes(s, run, check, probes, i, x) != []
    ensures var earlier := EarlierProbes(s, run, check, probes, i, x);
            StateGiven(s, run, check, probes, i, x) == Fault <==> !earlier[|earlier| - 1].probe.ok
  {
    hide S.ServedIn, StateGiven, EarlierProbes, S.TimersAt;
    var mount := ProbedIn(s, run, check, probes, i)[x].mount;
    forall e | r < e < i
      ensures !Probes(ProbedIn(s, run, check, probes, e), mount)
    {
    }
    assert LastScanOf(s, run, check, probes, mount, r, i);
    FailedProbeInLoop(s, run, check, probes, i, x);
    S.ServiceGap(run, r, i, check);
    S.PeriodsArePositive(run, check);
  }
}
