/**
 Configuration (src/health_monitor/config.py): layering defaults, document and environment, and
 what an accepted configuration guarantees the rest of the service.

 Values are already typed here: an override carries the value its text is coerced to.
 */
module Config {
  import opened Outcomes
  import opened HealthTypes
  import opened IntervalTimers
  import opened SweepSpec
  import opened SweepRuns
  import opened Storage
  import opened LivenessSpec
  import opened LivenessHistory
  import opened LivenessStreams
  import opened PeerDelivery

  // ----- Layering -----

  /** A setting's place: its section, "" at top level, and its key. */
  datatype Path = Path(section: string, key: string)

  /** All settings by place. A place is known exactly when the defaults have it. */
  type Settings<V> = map<Path, V>

  datatype LayerError = UnknownKey(path: Path)

  /** Apply overrides in order; the first unknown place is refused. */
  function Applied<V>(settings: Settings<V>, overrides: seq<(Path, V)>): Result<Settings<V>, LayerError> {
    if overrides == [] then Success(settings)
    else if overrides[0].0 !in settings then Failure(UnknownKey(overrides[0].0))
    else Applied(settings[overrides[0].0 := overrides[0].1], overrides[1..])
  }

  method ApplyOverrides<V>(settings: Settings<V>, overrides: seq<(Path, V)>)
      returns (r: Result<Settings<V>, LayerError>)
    ensures r == Applied(settings, overrides)
  {
    var current := settings;
    for i := 0 to |overrides|
      invariant Applied(settings, overrides) == Applied(current, overrides[i..])
    {
      assert overrides[i..][0] == overrides[i] && overrides[i..][1..] == overrides[i + 1..];
      var (path, value) := overrides[i];
      if path !in current {
        return Failure(UnknownKey(path));
      }
      current := current[path := value];
    }
    r := Success(current);
  }

  /** The last value an override list gives a place, if it gives one. */
  function LastValue<V>(overrides: seq<(Path, V)>, path: Path): Option<V> {
    if overrides == [] then None
    else if overrides[|overrides| - 1].0 == path then Some(overrides[|overrides| - 1].1)
    else LastValue(overrides[..|overrides| - 1], path)
  }

  /** That is the value of the last entry for the place, and there is none exactly without an entry. */
  lemma {:induction false} LastValueIsLast<V>(overrides: seq<(Path, V)>, path: Path)
    ensures LastValue(overrides, path).None? <==> forall i :: 0 <= i < |overrides| ==> overrides[i].0 != path
    ensures forall i :: && 0 <= i < |overrides| && overrides[i].0 == path
                        && (forall j :: i < j < |overrides| ==> overrides[j].0 != path) ==>
                          LastValue(overrides, path) == Some(overrides[i].1)
  {
    hide LastValue;
    LastValueStep(overrides, path);
    if overrides != [] {
      var front := overrides[..|overrides| - 1];
      LastValueIsLast(front, path);
      assert forall i :: 0 <= i < |front| ==> front[i] == overrides[i];
    }
  }

  lemma LastValueStep<V>(overrides: seq<(Path, V)>, path: Path)
    ensures LastValue(overrides, path)
         == if overrides == [] then None
            else if overrides[|overrides| - 1].0 == path then Some(overrides[|overrides| - 1].1)
            else LastValue(overrides[..|overrides| - 1], path)
  {
  }

  ghost predicate AllKnown<V>(settings: Settings<V>, overrides: seq<(Path, V)>) {
    forall i :: 0 <= i < |overrides| ==> overrides[i].0 in settings
  }

  lemma {:induction false} AppliedSnoc<V>(settings: Settings<V>, overrides: seq<(Path, V)>, last: (Path, V))
    ensures Applied(settings, overrides + [last]) ==
            match Applied(settings, overrides)
            case Failure(e) => Failure(e)
            case Success(s) => if last.0 in s then Success(s[last.0 := last.1]) else Failure(UnknownKey(last.0))
    decreases |overrides|
  {
    if overrides == [] {
      assert overrides + [last] == [last] && [last][1..] == [];
    } else if overrides[0].0 in settings {
      assert (overrides + [last])[1..] == overrides[1..] + [last];
      AppliedSnoc(settings[overrides[0].0 := overrides[0].1], overrides[1..], last);
    }
  }

  /** Overrides are accepted exactly when every place is known, and then each place has its last value. */
  lemma {:induction false} AppliedMeaning<V>(settings: Settings<V>, overrides: seq<(Path, V)>)
    ensures Applied(settings, overrides).Success? <==> AllKnown(settings, overrides)
    ensures Applied(settings, overrides).Success? ==>
              var s := Applied(settings, overrides).value;
              && s.Keys == settings.Keys
              && forall p :: p in s ==>
                   s[p] == (match LastValue(overrides, p) case None => settings[p] case Some(v) => v)
    decreases |overrides|
  {
    if overrides != [] {
      var front, last := overrides[..|overrides| - 1], overrides[|overrides| - 1];
      assert overrides == front + [last];
      AppliedMeaning(settings, front);
      AppliedSnoc(settings, front, last);
    }
  }

  /** What is refused is the first unknown place. */
  lemma {:induction false} FirstUnknownRefused<V>(settings: Settings<V>, overrides: seq<(Path, V)>)
    ensures Applied(settings, overrides).Failure? ==>
              exists i :: 0 <= i < |overrides| && Applied(settings, overrides).error == UnknownKey(overrides[i].0)
                          && overrides[i].0 !in settings && forall j :: 0 <= j < i ==> overrides[j].0 in settings
    decreases |overrides|
  {
    if overrides != [] && overrides[0].0 in settings {
      var more := settings[overrides[0].0 := overrides[0].1];
      FirstUnknownRefused(more, overrides[1..]);
      if Applied(more, overrides[1..]).Failure? {
        var i :| && 0 <= i < |overrides[1..]|
                 && Applied(more, overrides[1..]).error == UnknownKey(overrides[1..][i].0)
                 && overrides[1..][i].0 !in more && forall j :: 0 <= j < i ==> overrides[1..][j].0 in more;
        assert overrides[i + 1] == overrides[1..][i];
        forall j | 0 <= j < i + 1
          ensures overrides[j].0 in settings
        {
          assert j > 0 ==> overrides[j] == overrides[1..][j - 1];
        }
      }
    }
  }

  /** Document over defaults, environment over document. */
  function Layered<V>(defaults: Settings<V>, document: seq<(Path, V)>, environment: seq<(Path, V)>)
    : Result<Settings<V>, LayerError>
  {
    match Applied(defaults, document)
    case Failure(e) => Failure(e)
    case Success(s) => Applied(s, environment)
  }

  ghost predicate DistinctPlaces<V>(overrides: seq<(Path, V)>) {
    forall i, j :: 0 <= i < j < |overrides| ==> overrides[i].0 != overrides[j].0
  }

  lemma {:induction false} LastValueOfDistinct<V>(overrides: seq<(Path, V)>, path: Path)
    requires DistinctPlaces(overrides)
    ensures forall i :: 0 <= i < |overrides| && overrides[i].0 == path ==>
                          LastValue(overrides, path) == Some(overrides[i].1)
    ensures LastValue(overrides, path).None? <==> forall i :: 0 <= i < |overrides| ==> overrides[i].0 != path
  {
    if overrides != [] {
      LastValueOfDistinct(overrides[..|overrides| - 1], path);
    }
  }

  /** Each setting is the environment's value, else the document's, else the default's. */
  lemma EnvironmentOverDocument<V>(defaults: Settings<V>, document: seq<(Path, V)>, environment: seq<(Path, V)>,
                                   p: Path)
    requires p in defaults
    ensures Layered(defaults, document, environment).Success? <==>
            AllKnown(defaults, document) && AllKnown(defaults, environment)
    ensures Layered(defaults, document, environment).Success? ==>
            var s := Layered(defaults, document, environment).value;
            && s.Keys == defaults.Keys
            && s[p] == match LastValue(environment, p)
                       case Some(v) => v
                       case None => match LastValue(document, p) case Some(v) => v case None => defaults[p]
  {
    AppliedMeaning(defaults, document);
    if Applied(defaults, document).Success? {
      AppliedMeaning(Applied(defaults, document).value, environment);
    }
  }

  /** With distinct places, the order in which overrides come makes no difference, to acceptance or to any value. */
  lemma OverrideOrderIrrelevant<V>(settings: Settings<V>, a: seq<(Path, V)>, b: seq<(Path, V)>)
    requires DistinctPlaces(a) && DistinctPlaces(b) && forall o :: o in a <==> o in b
    ensures Applied(settings, a).Success? <==> Applied(settings, b).Success?
    ensures Applied(settings, a).Success? ==> Applied(settings, a) == Applied(settings, b)
  {
    hide Applied, LastValue;
    AppliedMeaning(settings, a);
    AppliedMeaning(settings, b);
    assert forall i :: 0 <= i < |a| ==> a[i] in b;
    assert forall i :: 0 <= i < |b| ==> b[i] in a;
    if AllKnown(settings, a) {
      var x, y := Applied(settings, a).value, Applied(settings, b).value;
      forall p | p in settings
        ensures x[p] == y[p]
      {
        LastValueOfDistinct(a, p);
        LastValueOfDistinct(b, p);
      }
      assert x == y;
    }
  }

  // ----- Environment names -----

  const ENV_PREFIX := "HM_"

  function Lower(c: char): char {
    if 'A' <= c <= 'Z' then ((c as int) + 32) as char else c
  }

  function LowerAll(s: string): string {
    seq(|s|, i requires 0 <= i < |s| => Lower(s[i]))
  }

  predicate SeparatorAt(s: string, i: int) {
    0 <= i && i + 1 < |s| && s[i] == '_' && s[i + 1] == '_'
  }

  /** Where the first "__" starts, |s| when there is none. */
  function FirstSeparator(s: string, from: nat): (i: nat)
    requires from <= |s|
    ensures from <= i <= |s|
    ensures i < |s| ==> SeparatorAt(s, i)
    ensures forall j :: from <= j < i ==> !SeparatorAt(s, j)
    decreases |s| - from
  {
    if from == |s| || SeparatorAt(s, from) then from else FirstSeparator(s, from + 1)
  }

  /** The place an environment variable overrides, if it is one of ours. */
  function EnvPath(name: string): Option<Path> {
    if !(ENV_PREFIX <= name) then None
    else
      var remainder := LowerAll(name[|ENV_PREFIX|..]);
      var i := FirstSeparator(remainder, 0);
      Some(if i == |remainder| then Path("", remainder) else Path(remainder[..i], remainder[i + 2..]))
  }

  /** The lower-case form: ASCII capitals become the letters 32 code points on, all else stays. */
  ghost predicate IsLowerOf(low: string, s: string) {
    |low| == |s| && forall i :: 0 <= i < |s| ==>
                                  low[i] as int == s[i] as int + if 'A' <= s[i] <= 'Z' then 32 else 0
  }

  /**
   How every variable name is read: not at all without the prefix; as a top-level key if the rest, in
   lower case, holds no separator; otherwise as the section before the first separator and the key
   after it.
   */
  lemma EnvNameMeaning(name: string)
    ensures EnvPath(name).None? <==> !("HM_" <= name)
    ensures "HM_" <= name ==>
              var low, p := LowerAll(name[3..]), EnvPath(name).value;
              && IsLowerOf(low, name[3..])
              && (if forall i :: !SeparatorAt(low, i) then p == Path("", low)
                  else low == p.section + "__" + p.key
                       && forall i :: 0 <= i < |p.section| ==> !SeparatorAt(low, i))
  {
    hide FirstSeparator;
    if "HM_" <= name {
      var low := LowerAll(name[3..]);
      var i := FirstSeparator(low, 0);
      if i < |low| {
        assert low == low[..i] + "__" + low[i + 2..];
      } else {
        assert forall j :: SeparatorAt(low, j) ==> 0 <= j < i;
      }
    }
  }

  /** Capitals make no difference: a name written in upper case is read like the lower-case one. */
  lemma UpperNameReadsBack(s: string)
    requires LowerAll(s) == s
    ensures LowerAll(UpperAll(s)) == s
  {
    forall i | 0 <= i < |s|
      ensures Lower(Upper(s[i])) == s[i]
    {
      assert LowerAll(s)[i] == Lower(s[i]);
    }
  }

  /**
   Every setting can be reached: the name built from a lower-case section and key is read back as
   exactly that place, provided no separator starts inside the section.
   */
  lemma EnvNameRoundTrip(section: string, key: string)
    requires LowerAll(section) == section && LowerAll(key) == key
    requires forall i :: !SeparatorAt(section + "_", i)
    ensures EnvPath(ENV_PREFIX + section + "__" + key) == Some(Path(section, key))
  {
    hide LowerAll, FirstSeparator;
    var remainder := section + "__" + key;
    assert ENV_PREFIX + section + "__" + key == ENV_PREFIX + remainder;
    assert (ENV_PREFIX + remainder)[|ENV_PREFIX|..] == remainder;
    LowerConcat(section + "__", key);
    LowerConcat(section, "__");
    UnderscoresStay();
    SeparatorFound(section, key);
    assert remainder[..|section|] == section && remainder[|section| + 2..] == key;
  }

  lemma UnderscoresStay()
    ensures LowerAll("__") == "__"
  {
  }

  lemma SeparatorFound(section: string, key: string)
    requires forall i :: !SeparatorAt(section + "_", i)
    ensures FirstSeparator(section + "__" + key, 0) == |section|
  {
    hide FirstSeparator;
    var remainder := section + "__" + key;
    var i := FirstSeparator(remainder, 0);
    assert SeparatorAt(remainder, |section|);
    forall j | 0 <= j < |section|
      ensures !SeparatorAt(remainder, j)
    {
      assert !SeparatorAt(section + "_", j);
      assert remainder[j] == (section + "_")[j] && remainder[j + 1] == (section + "_")[j + 1];
    }
  }

  lemma LowerConcat(a: string, b: string)
    ensures LowerAll(a + b) == LowerAll(a) + LowerAll(b)
  {
  }

  /** The overrides an environment holds, in its order. */
  function EnvOverrides<V>(environ: seq<(string, V)>): seq<(Path, V)> {
    if environ == [] then []
    else
      var last := environ[|environ| - 1];
      EnvOverrides(environ[..|environ| - 1])
      + match EnvPath(last.0) case None => [] case Some(p) => [(p, last.1)]
  }

  /** What the environment gives a place is the value of the last variable read as that place, if there is one. */
  lemma {:induction false} LastVariableWins<V>(environ: seq<(string, V)>, p: Path)
    ensures LastValue(EnvOverrides(environ), p).None? <==>
            forall i :: 0 <= i < |environ| ==> EnvPath(environ[i].0) != Some(p)
    ensures forall i :: && 0 <= i < |environ| && EnvPath(environ[i].0) == Some(p)
                        && (forall j :: i < j < |environ| ==> EnvPath(environ[j].0) != Some(p)) ==>
                          LastValue(EnvOverrides(environ), p) == Some(environ[i].1)
  {
    hide EnvPath, EnvOverrides, LastValue;
    if environ == [] {
      NoVariables(environ, p);
    } else {
      var front := environ[..|environ| - 1];
      LastVariableWins(front, p);
      OneMoreVariable(environ, p);
      assert forall i :: 0 <= i < |front| ==> front[i] == environ[i];
    }
  }

  lemma NoVariables<V>(environ: seq<(string, V)>, p: Path)
    requires environ == []
    ensures LastValue(EnvOverrides(environ), p).None?
  {
  }

  lemma OneMoreVariable<V>(environ: seq<(string, V)>, p: Path)
    requires environ != []
    ensures var front, last := environ[..|environ| - 1], environ[|environ| - 1];
            LastValue(EnvOverrides(environ), p)
            == if EnvPath(last.0) == Some(p) then Some(last.1) else LastValue(EnvOverrides(front), p)
  {
    hide EnvPath;
    var before, last := EnvOverrides(environ[..|environ| - 1]), environ[|environ| - 1];
    if EnvPath(last.0).Some? {
      assert (before + [(EnvPath(last.0).value, last.1)])[..|before|] == before;
    } else {
      assert before + [] == before;
    }
  }

  /** The overrides collected by place: two names for one place leave the later value. */
  method CollectEnvironment<V>(environ: seq<(string, V)>) returns (collected: map<Path, V>)
    ensures forall p :: p in collected <==> LastValue(EnvOverrides(environ), p).Some?
    ensures forall p :: p in collected ==> LastValue(EnvOverrides(environ), p) == Some(collected[p])
  {
    collected := map[];
    for i := 0 to |environ|
      invariant forall p :: p in collected <==> LastValue(EnvOverrides(environ[..i]), p).Some?
      invariant forall p :: p in collected ==> LastValue(EnvOverrides(environ[..i]), p) == Some(collected[p])
    {
      assert environ[..i + 1][..i] == environ[..i];
      ghost var before := EnvOverrides(environ[..i]);
      var place := EnvPath(environ[i].0);
      if place == None {
        assert before + [] == before;
      } else {
        assert (before + [(place.value, environ[i].1)])[..|before|] == before;
        collected := collected[place.value := environ[i].1];
      }
    }
    assert environ[..|environ|] == environ;
  }

  // ----- Acceptance -----

  datatype HeartbeatConfig = HeartbeatConfig(
    enabled: bool,
    emitPeriod: real,
    peerTimeout: real,
    peers: seq<string>,
    quorumMinLive: int)

  datatype ServiceConfig = ServiceConfig(
    serviceName: string,
    loopPeriod: real,
    shutdownGrace: real,
    logLevel: string,
    memory: SweepConfig,
    storageEnabled: bool,
    storage: StorageConfig,
    heartbeat: HeartbeatConfig)

  datatype Rejection =
    | LoopPeriod | ShutdownGrace | ServiceName
    | MemoryPeriod | MemoryBudget | MemoryPages | MemoryRegion
    | StoragePeriod | StorageStall | StorageWarnFraction | StorageFaultFraction | StorageFractionOrder
    | StorageLatencyOrder | StorageMounts | StorageStallOrder
    | HeartbeatPeriod | HeartbeatTimeout | HeartbeatTimeoutOrder | HeartbeatPeers | HeartbeatQuorum
    | LogLevel

  function Upper(c: char): char {
    if 'a' <= c <= 'z' then ((c as int) - 32) as char else c
  }

  function UpperAll(s: string): string {
    seq(|s|, i requires 0 <= i < |s| => Upper(s[i]))
  }

  predicate IsFraction(x: real) {
    0.0 < x < 1.0
  }

  /** The first rule broken, in the order the source checks them. */
  function Validate(c: ServiceConfig): Option<Rejection> {
    var m, s, h := c.memory, c.storage, c.heartbeat;
    if c.loopPeriod <= 0.0 then Some(LoopPeriod)
    else if c.shutdownGrace <= 0.0 then Some(ShutdownGrace)
    else if c.serviceName == "" then Some(ServiceName)
    else if m.scanPeriod <= 0.0 then Some(MemoryPeriod)
    else if m.sliceBudgetMs <= 0.0 then Some(MemoryBudget)
    else if m.pagesPerSlice <= 0 then Some(MemoryPages)
    else if m.regionBytes <= 0 then Some(MemoryRegion)
    else if s.scanPeriod <= 0.0 then Some(StoragePeriod)
    else if s.stallThreshold <= 0.0 then Some(StorageStall)
    else if !IsFraction(s.freeWarn) then Some(StorageWarnFraction)
    else if !IsFraction(s.freeFault) then Some(StorageFaultFraction)
    else if s.freeFault >= s.freeWarn then Some(StorageFractionOrder)
    else if s.latencyFaultMs <= s.latencyWarnMs then Some(StorageLatencyOrder)
    else if c.storageEnabled && s.mounts == [] then Some(StorageMounts)
    else if s.stallThreshold <= s.scanPeriod then Some(StorageStallOrder)
    else if h.emitPeriod <= 0.0 then Some(HeartbeatPeriod)
    else if h.peerTimeout <= 0.0 then Some(HeartbeatTimeout)
    else if h.peerTimeout <= h.emitPeriod then Some(HeartbeatTimeoutOrder)
    else if h.enabled && h.peers == [] then Some(HeartbeatPeers)
    else if h.quorumMinLive > |h.peers| then Some(HeartbeatQuorum)
    else if UpperAll(c.logLevel) !in ["DEBUG", "INFO", "WARNING", "ERROR", "CRITICAL"] then Some(LogLevel)
    else None
  }

  /** What each rule demands of a configuration. */
  ghost predicate Obeys(c: ServiceConfig, rule: Rejection) {
    match rule
    case LoopPeriod => c.loopPeriod > 0.0
    case ShutdownGrace => c.shutdownGrace > 0.0
    case ServiceName => |c.serviceName| > 0
    case MemoryPeriod => c.memory.scanPeriod > 0.0
    case MemoryBudget => c.memory.sliceBudgetMs > 0.0
    case MemoryPages => c.memory.pagesPerSlice > 0
    case MemoryRegion => c.memory.regionBytes > 0
    case StoragePeriod => c.storage.scanPeriod > 0.0
    case StorageStall => c.storage.stallThreshold > 0.0
    case StorageWarnFraction => 0.0 < c.storage.freeWarn < 1.0
    case StorageFaultFraction => 0.0 < c.storage.freeFault < 1.0
    case StorageFractionOrder => c.storage.freeFault < c.storage.freeWarn
    case StorageLatencyOrder => c.storage.latencyWarnMs < c.storage.latencyFaultMs
    case StorageMounts => c.storageEnabled ==> |c.storage.mounts| > 0
    case StorageStallOrder => c.storage.scanPeriod < c.storage.stallThreshold
    case HeartbeatPeriod => c.heartbeat.emitPeriod > 0.0
    case HeartbeatTimeout => c.heartbeat.peerTimeout > 0.0
    case HeartbeatTimeoutOrder => c.heartbeat.emitPeriod < c.heartbeat.peerTimeout
    case HeartbeatPeers => c.heartbeat.enabled ==> |c.heartbeat.peers| > 0
    case HeartbeatQuorum => c.heartbeat.quorumMinLive <= |c.heartbeat.peers|
    case LogLevel => UpperAll(c.logLevel) in {"DEBUG", "INFO", "WARNING", "ERROR", "CRITICAL"}
  }

  /** A rule's place in the order in which they are checked. */
  function Place(rule: Rejection): nat {
    match rule
    case LoopPeriod => 0
    case ShutdownGrace => 1
    case ServiceName => 2
    case MemoryPeriod => 3
    case MemoryBudget => 4
    case MemoryPages => 5
    case MemoryRegion => 6
    case StoragePeriod => 7
    case StorageStall => 8
    case StorageWarnFraction => 9
    case StorageFaultFraction => 10
    case StorageFractionOrder => 11
    case StorageLatencyOrder => 12
    case StorageMounts => 13
    case StorageStallOrder => 14
    case HeartbeatPeriod => 15
    case HeartbeatTimeout => 16
    case HeartbeatTimeoutOrder => 17
    case HeartbeatPeers => 18
    case HeartbeatQuorum => 19
    case LogLevel => 20
  }

  /** A configuration is accepted exactly when it obeys every rule; a rejection names the first rule it breaks. */
  lemma AcceptedIff(c: ServiceConfig)
    ensures Validate(c).None? <==> forall rule :: Obeys(c, rule)
    ensures Validate(c).Some? ==>
              && !Obeys(c, Validate(c).value)
              && forall rule :: Place(rule) < Place(Validate(c).value) ==> Obeys(c, rule)
  {
    hide UpperAll;
    if Validate(c).Some? {
      assert !Obeys(c, Validate(c).value);
    }
  }

  /** The built-in configuration. */
  const DEFAULTS := ServiceConfig(
    "health-monitor", 0.25, 5.0, "INFO",
    SweepConfig(5.0, 1048576, 64, 1.5, 1, 1),
    true, StorageConfig(30.0, ["/var/log", "/var/lib/cases"], 0.2, 0.08, 40.0, 250.0, 120.0),
    HeartbeatConfig(true, 1.0, 3.0, ["generator-control", "mapping-engine", "catheter-io", "case-recorder"], 3))

  lemma DefaultsAccepted()
    ensures Validate(DEFAULTS).None?
  {
    assert UpperAll("INFO") == "INFO";
  }

  /**
   What acceptance buys the other modules, enabled or not: every timer the checks construct is
   legal, the sweep progresses, a round of sleeping is positive, and the timeouts exceed the
   periods they watch, by the margin in which a single late beat is tolerated.
   */
  lemma AcceptedIsUsable(c: ServiceConfig)
    requires Validate(c).None?
    ensures c.loopPeriod > 0.0
    ensures NewTimer(c.memory.scanPeriod, None, 0.0, true).Legal()
    ensures NewTimer(c.storage.scanPeriod, None, 0.0, true).Legal()
    ensures NewTimer(c.heartbeat.emitPeriod, None, 0.0, true).Legal()
    ensures NewTimer(c.heartbeat.emitPeriod, Some(c.heartbeat.peerTimeout), 0.0, false).Legal()
    ensures Sensible(c.memory)
    ensures c.storage.stallThreshold > c.storage.scanPeriod
    ensures c.heartbeat.peerTimeout - c.heartbeat.emitPeriod > 0.0
  {
  }

  /**
   What acceptance buys against one late heartbeat of a peer that beats at the configured period, its
   others on time: any lateness up to timeout - period is tolerated, which is positive; a lateness
   without bound exactly when the timeout is at least two periods, which acceptance does not demand.
   */
  lemma SingleLateHeartbeat(c: ServiceConfig, setup: Setup, p: string, start: real)
    requires Validate(c).None? && setup.timeout == c.heartbeat.peerTimeout
    requires OwnSubject(setup, p) && p in setup.created && start <= setup.created[p] + c.heartbeat.emitPeriod
    ensures var every, margin := c.heartbeat.emitPeriod, c.heartbeat.peerTimeout - c.heartbeat.emitPeriod;
            && margin > 0.0
            && NeverLostByOneLate(setup, p, start, every, 0.0, margin)
            && ((forall late :: late >= 0.0 ==> NeverLostByOneLate(setup, p, start, every, 0.0, late))
                <==> c.heartbeat.peerTimeout >= 2.0 * every)
  {
    hide NeverLostByOneLate;
    var every, margin := c.heartbeat.emitPeriod, c.heartbeat.peerTimeout - c.heartbeat.emitPeriod;
    NeverLostByOneLateIff(setup, p, start, every, 0.0, margin);
    AnyLatenessHarmlessIff(setup, p, start, every, 0.0);
  }

  /** The distinct names in a list: the keys of the dictionary built from it. */
  function Distinct(names: seq<string>): set<string> {
    set n | n in names
  }

  lemma {:induction false} DistinctAtMostListed(names: seq<string>)
    ensures |Distinct(names)| <= |names|
    ensures (forall i, j :: 0 <= i < j < |names| ==> names[i] != names[j]) ==> |Distinct(names)| == |names|
  {
    if names != [] {
      var front, last := names[..|names| - 1], names[|names| - 1];
      DistinctAtMostListed(front);
      assert Distinct(names) == Distinct(front) + {last};
    }
  }

  lemma {:induction false} AllLiveCount(order: seq<string>, peers: map<string, Peer>)
    requires forall n :: n in order ==> n in peers && peers[n].live
    ensures LiveCount(order, peers) == |order|
  {
    if order != [] {
      AllLiveCount(order[..|order| - 1], peers);
    }
  }

  lemma {:induction false} LiveCountAtMost(order: seq<string>, peers: map<string, Peer>)
    ensures LiveCount(order, peers) <= |order|
  {
    if order != [] {
      LiveCountAtMost(order[..|order| - 1], peers);
    }
  }

  lemma {:induction false} OrderedKeysCount(order: seq<string>, keys: set<string>)
    requires forall i, j :: 0 <= i < j < |order| ==> order[i] != order[j]
    requires forall n :: n in order <==> n in keys
    ensures |order| == |keys|
  {
    if order == [] {
      assert keys == {};
    } else {
      var front, last := order[..|order| - 1], order[|order| - 1];
      OrderedKeysCount(front, keys - {last});
    }
  }

  /**
   Quorum can be satisfied exactly when the required number does not exceed the distinct peers:
   for any dictionary of the configured peers, some liveness reaches OK, namely all live.
   */
  lemma QuorumReachableIff(h: HeartbeatConfig, order: seq<string>, peers: map<string, Peer>)
    requires forall i, j :: 0 <= i < j < |order| ==> order[i] != order[j]
    requires (forall n :: n in order <==> n in h.peers) && forall n :: n in order ==> n in peers && peers[n].live
    ensures QuorumState(LiveCount(order, peers), h.quorumMinLive) == Ok <==> h.quorumMinLive <= |Distinct(h.peers)|
    ensures forall other :: QuorumState(LiveCount(order, other), h.quorumMinLive) == Ok ==>
                              h.quorumMinLive <= |Distinct(h.peers)|
  {
    AllLiveCount(order, peers);
    OrderedKeysCount(order, Distinct(h.peers));
    forall other: map<string, Peer>
      ensures LiveCount(order, other) <= |order|
    {
      LiveCountAtMost(order, other);
    }
  }

  /** An accepted configuration whose peers are all different can always reach quorum. */
  lemma AcceptedDistinctPeersReachQuorum(c: ServiceConfig)
    requires Validate(c).None?
    requires forall i, j :: 0 <= i < j < |c.heartbeat.peers| ==> c.heartbeat.peers[i] != c.heartbeat.peers[j]
    ensures c.heartbeat.quorumMinLive <= |Distinct(c.heartbeat.peers)|
  {
    DistinctAtMostListed(c.heartbeat.peers);
  }

  /**
   Validation counts list entries, so a repeated name can make quorum unreachable: any accepted
   configuration stays accepted when its quorum is raised to its list length, and if some name
   is listed twice that quorum can never be met.
   */
  lemma RepeatedPeerBreaksQuorum(c: ServiceConfig, i: nat, j: nat)
    requires Validate(c).None? && i < j < |c.heartbeat.peers| && c.heartbeat.peers[i] == c.heartbeat.peers[j]
    ensures var raised := c.(heartbeat := c.heartbeat.(quorumMinLive := |c.heartbeat.peers|));
            Validate(raised).None? && raised.heartbeat.quorumMinLive > |Distinct(raised.heartbeat.peers)|
  {
    var names := c.heartbeat.peers;
    var fewer := names[..j] + names[j + 1..];
    assert forall n :: n in names ==> n in fewer by {
      forall n | n in names
        ensures n in fewer
      {
        var k :| 0 <= k < |names| && names[k] == n;
        var at := if k < j then k else if k == j then i else k - 1;
        assert fewer[at] == n;
      }
    }
    assert forall n :: n in fewer ==> n in names;
    assert Distinct(names) == Distinct(fewer);
    DistinctAtMostListed(fewer);
  }

  /**
   Validation does not look at the sweep's thresholds: of the accepted configurations, exactly
   those with both thresholds positive report a clean pass as OK.
   */
  lemma CleanPassOkIff(c: ServiceConfig)
    requires Validate(c).None?
    ensures PassState(c.memory, 0, 0, 0) == Ok <==> c.memory.correctableWarn > 0 && c.memory.uncorrectableFault > 0
  {
  }
}
