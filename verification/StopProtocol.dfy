/** The addressed stop request as a protocol: writers, polling engines, relaunching GUIs and the clean-up
    after a singleton kill, in any interleaving (gui/shutdown_flag.py:198-271, 273-285, 344-381;
    gui/main.py:336-351, 467-582; gui/services/engine_bridge.py:1684-1750). The engine's rule is that of
    cpp/include/xop/util/shutdown_flag.hpp:275-355, applied at cpp/src/engine.cpp:27169-27283. One clock
    stamps files and process starts; reading the flag and removing it is one step. */
module StopProtocol {
  import opened Wrappers
  import opened ShutdownRequest
  import opened Text

  // ---------------------------------------------------------------- the engine's rule

  datatype Verdict = LeaveIt | Honour | Discard

  datatype Site = BootSweep | Checkpoint

  /** What an engine knows when it decides. None is "could not be read". */
  datatype Facts = Facts(kind: Option<Kind>, mtime: Option<nat>, pid: nat, start: nat)

  /** decide_shutdown_flag. */
  function Decide(f: Facts): Verdict {
    if f.kind.None? then LeaveIt
    else match f.kind.value
      case Malformed => Discard
      case Addressed(pid) =>
        if f.pid == 0 then LeaveIt
        else if pid != f.pid then Discard
        else if f.mtime.None? then LeaveIt
        else if f.mtime.value < f.start then Discard
        else Honour
      case Unaddressed =>
        if f.mtime.None? then LeaveIt
        else if f.mtime.value < f.start then Discard
        else Honour
  }

  datatype Action = Action(remove: bool, stop: bool)

  /** plan_shutdown_flag_action: the boot sweep leaves a live request for the first checkpoint. */
  function Plan(v: Verdict, site: Site): Action {
    match v
    case Discard => Action(true, false)
    case Honour => if site.Checkpoint? then Action(true, true) else Action(false, false)
    case LeaveIt => Action(false, false)
  }

  // ---------------------------------------------------------------- the flag file

  /** The number tells two processes with one PID apart; no process knows it. */
  datatype Engine = Engine(id: nat, pid: nat, start: nat)

  /** The file, with bookkeeping no process reads: a serial number and the engine it was written for. */
  datatype Flag = Flag(text: string, mtime: nat, id: nat, writtenFor: Option<Engine>)

  /** Both readers stop after 4096 bytes. */
  function Head(text: string): string {
    if |text| <= MaxBytes then text else text[..MaxBytes]
  }

  function KindOf(text: string): Kind {
    Read(Head(text)).kind
  }

  function EngineKindOf(text: string): Kind {
    EngineRead(Head(text)).kind
  }

  lemma ReadersAgree(text: string)
    ensures EngineKindOf(text) == KindOf(text)
  {
    hide Read, EngineRead;
    ParsersAgreeOnFlags(Head(text));
  }

  /** What the operating system grants at one check. */
  datatype Sight = Sight(content: bool, mtime: bool, removable: bool)

  const Clear: Sight := Sight(true, true, true)

  function Look(flag: Flag, e: Engine, sight: Sight): Facts {
    Facts(if sight.content then Some(EngineKindOf(flag.text)) else None,
          if sight.mtime then Some(flag.mtime) else None, e.pid, e.start)
  }

  function Acts(flag: Option<Flag>, e: Engine, site: Site, sight: Sight): Action {
    if flag.None? then Action(false, false) else Plan(Decide(Look(flag.value, e, sight)), site)
  }

  function AfterCheck(flag: Option<Flag>, e: Engine, site: Site, sight: Sight): Option<Flag> {
    if Acts(flag, e, site, sight).remove && sight.removable then None else flag
  }

  /** A live request of this engine: addressed to it or to nobody, and not older than it. */
  predicate IsLive(flag: Flag, e: Engine) {
    (KindOf(flag.text) == Unaddressed || KindOf(flag.text) == Addressed(e.pid)) && flag.mtime >= e.start
  }

  /** The whole rule: a full check takes away everything but a live request, and a checkpoint takes that
      too and stops; a file that cannot be read is left alone. */
  lemma CheckTakesAllButLive(flag: Flag, e: Engine, site: Site)
    requires e.pid > 0
    ensures Acts(Some(flag), e, site, Clear).stop <==> site.Checkpoint? && IsLive(flag, e)
    ensures AfterCheck(Some(flag), e, site, Clear) == if site.BootSweep? && IsLive(flag, e) then Some(flag) else None
    ensures forall sight: Sight :: !sight.content ==> AfterCheck(Some(flag), e, site, sight) == Some(flag)
  {
    hide KindOf, EngineKindOf;
    ReadersAgree(flag.text);
  }

  /** With whatever a check can see: it removes what it can read and knows to be no live request of its engine, and
      stops only for one it knows to be live. An engine that does not know its own PID lets every addressed request
      lie. */
  lemma CheckActsIff(flag: Flag, e: Engine, site: Site, sight: Sight)
    ensures var acts := Acts(Some(flag), e, site, sight);
            var kind := KindOf(flag.text);
            var forMe := kind == Unaddressed || (e.pid > 0 && kind == Addressed(e.pid));
            && (acts.stop <==> site.Checkpoint? && sight.content && sight.mtime && forMe && flag.mtime >= e.start)
            && (acts.remove && !acts.stop <==>
                  && sight.content
                  && (|| kind == Malformed
                      || (e.pid > 0 && kind.Addressed? && kind.pid != e.pid)
                      || (sight.mtime && forMe && flag.mtime < e.start)))
            && (acts.stop ==> acts.remove)
  {
    hide KindOf, EngineKindOf;
    ReadersAgree(flag.text);
  }

  /** Nothing behind the first 4096 bytes of a flag counts, and everything up to there does. */
  lemma OnlyTheHeadCounts(text: string, tail: string)
    ensures |text| == 4096 ==> KindOf(text + tail) == Read(text).kind
    ensures |text| <= 4096 ==> KindOf(text) == Read(text).kind
  {
    hide Read;
    assert |text| == 4096 ==> (text + tail)[..4096] == text;
    assert text + "" == text;
    if |text| == 4096 && tail == "" {
      assert text + tail == text;
    }
  }

  /** A request that replaces the file while an engine evaluates it: between reading its time and its text,
      or between reading it and removing it. */
  datatype Race = Quiet | BeforeText(late: Flag) | BeforeRemoval(late: Flag)

  /** What the engine believes to have read, and what is there when it acts. */
  function Believed(flag: Flag, race: Race): Flag {
    match race case BeforeText(late) => late.(mtime := flag.mtime) case _ => flag
  }

  function There(flag: Flag, race: Race): Flag {
    match race case Quiet => flag case BeforeText(late) => late case BeforeRemoval(late) => late
  }

  /** Which flag the clean-up of a startup takes away. */
  predicate CleanupTakes(flag: Option<Flag>, killed: set<nat>) {
    flag.Some? && match KindOf(flag.value.text)
                  case Malformed => false
                  case Addressed(pid) => pid in killed
                  case Unaddressed => killed != {}
  }

  function AfterCleanup(flag: Option<Flag>, killed: set<nat>, sight: Sight): Option<Flag> {
    if sight.content && sight.removable && CleanupTakes(flag, killed) then None else flag
  }

  function AfterWithdrawal(flag: Option<Flag>, pid: nat, sight: Sight): Option<Flag> {
    if sight.content && sight.removable && flag.Some? && KindOf(flag.value.text) == Addressed(pid) then None
    else flag
  }

  /** data/shutdown.flag, changed in place by its readers. */
  class FlagFile {
    var flag: Option<Flag>

    constructor ()
      ensures flag == None
    {
      flag := None;
    }

    method TryUnlink(sight: Sight) returns (gone: bool)
      modifies this
      ensures flag == if sight.removable then None else old(flag)
      ensures gone == sight.removable
    {
      if sight.removable {
        flag := None;
      }
      return sight.removable;
    }

    /** Engine::evaluate_shutdown_flag: does this engine stop? The time is read again before the file is
        removed, so a request that came in between is left for the next check unless its time is the same. */
    method Evaluate(e: Engine, site: Site, sight: Sight, race: Race) returns (stop: bool)
      modifies this
      ensures old(flag).None? ==> flag == None && !stop
      ensures race.Quiet? ==>
                flag == AfterCheck(old(flag), e, site, sight) && stop == Acts(old(flag), e, site, sight).stop
      ensures old(flag).Some? && !race.Quiet? && sight.mtime && race.late.mtime != old(flag).value.mtime ==>
                flag == Some(race.late) && !stop
      ensures old(flag).Some? ==>
              var was := old(flag).value;
              var acts := Acts(Some(Believed(was, race)), e, site, sight);
              var changed := sight.mtime && There(was, race).mtime != was.mtime;
              && stop == (acts.stop && !changed)
              && flag == if acts.remove && !changed && sight.removable then None else Some(There(was, race))
    {
      if flag.None? {
        return false;
      }
      var mtime := if sight.mtime then Some(flag.value.mtime) else None;
      if race.BeforeText? {
        flag := Some(race.late);
      }
      var kind: Option<Kind> := None;
      if sight.content {
        var parsed := EngineParse(Head(flag.value.text));
        kind := Some(parsed.kind);
      }
      var action := Plan(Decide(Facts(kind, mtime, e.pid, e.start)), site);
      if race.BeforeRemoval? {
        flag := Some(race.late);
      }
      if action.remove {
        if mtime.Some? && flag.value.mtime != mtime.value {
          return false;
        }
        var _ := TryUnlink(sight);
      }
      return action.stop;
    }

    /** cleanup_after_singleton_kill: true when a flag was removed. */
    method CleanupAfterKill(killed: set<nat>, sight: Sight) returns (removed: bool)
      modifies this
      ensures killed == {} ==> flag == old(flag) && !removed
      ensures old(flag).Some? && KindOf(old(flag).value.text).Malformed? ==> flag == old(flag) && !removed
      ensures flag == if removed then None else old(flag)
      ensures flag == AfterCleanup(old(flag), killed, sight)
      ensures removed <==> sight.content && sight.removable && CleanupTakes(old(flag), killed)
    {
      if flag.None? || !sight.content {
        return false;
      }
      var request := ParseShutdownRequest(Head(flag.value.text));
      if request.kind.Malformed? {
        return false;
      }
      if request.kind.Addressed? {
        if request.kind.pid !in killed {
          return false;
        }
        removed := TryUnlink(sight);
        return;
      }
      if killed == {} {
        return false;
      }
      removed := TryUnlink(sight);
    }

    /** remove_if_addressed_to: true when the flag was removed. */
    method RemoveIfAddressedTo(pid: nat, sight: Sight) returns (removed: bool)
      modifies this
      ensures flag == AfterWithdrawal(old(flag), pid, sight)
      ensures removed <==> && sight.content && sight.removable
                           && old(flag).Some? && KindOf(old(flag).value.text) == Addressed(pid)
      ensures flag == if removed then None else old(flag)
    {
      if flag.None? || !sight.content {
        return false;
      }
      var request := ParseShutdownRequest(Head(flag.value.text));
      if request.kind != Addressed(pid) {
        return false;
      }
      removed := TryUnlink(sight);
    }
  }

  // ---------------------------------------------------------------- the world

  datatype Kill = Kill(engine: Engine, at: nat)

  datatype Stop = Stop(engine: Engine, flag: Flag)

  /** Everything that matters, and the history of kills (by startup) and of honoured requests. */
  datatype World = World(
    now: nat,
    started: set<Engine>,
    running: set<Engine>,
    flag: Option<Flag>,
    kills: map<nat, set<Kill>>,
    stops: set<Stop>,
    nextEngine: nat,
    nextFlag: nat)

  const Nothing: World := World(0, {}, {}, None, map[], {}, 0, 0)

  datatype Step =
    | Wait(d: nat)
    | Start(pid: nat)
    | Ask(e: Engine, requester: nat, stamp: string, policy: Option<Policy>)
    | WriteByHand(text: string)
    | Check(e: Engine, site: Site, sight: Sight)
    | Exit(e: Engine)
    | Signal(startup: nat, e: Engine)
    | Cleanup(startup: nat, sight: Sight)
    | Withdraw(e: Engine, sight: Sight)

  function KillsOf(w: World, startup: nat): set<Kill> {
    if startup in w.kills then w.kills[startup] else {}
  }

  function KilledPids(w: World, startup: nat): set<nat> {
    set k | k in KillsOf(w, startup) :: k.engine.pid
  }

  /** The system gives no two live processes one PID, and a GUI that still holds its engine's handle keeps
      that PID from being given away. */
  predicate PidHeldBy(w: World, e: Engine) {
    forall f :: f in w.running && f.pid == e.pid ==> f == e
  }

  predicate Enabled(w: World, s: Step) {
    match s
    case Wait(_) => true
    case Start(pid) => 1 <= pid <= MaxPid && forall f :: f in w.running ==> f.pid != pid
    case Ask(e, requester, stamp, _) =>
      e in w.started && PidHeldBy(w, e) && requester <= MaxPid && '\n' !in stamp && |stamp| <= 64
    case WriteByHand(_) => true
    case Check(e, _, _) => e in w.running
    case Exit(e) => e in w.running
    case Signal(_, e) => e in w.running
    case Cleanup(_, _) => true
    case Withdraw(e, _) => e in w.started && e !in w.running && PidHeldBy(w, e)
  }

  function RequestText(pid: nat, requester: nat, stamp: string, policy: Option<Policy>): string {
    match Render(pid, requester, stamp, policy) case Some(text) => text case None => ""
  }

  function Next(w: World, s: Step): World {
    match s
    case Wait(d) => w.(now := w.now + d)
    case Start(pid) =>
      var e := Engine(w.nextEngine, pid, w.now);
      w.(started := w.started + {e}, running := w.running + {e}, nextEngine := w.nextEngine + 1)
    case Ask(e, requester, stamp, policy) =>
      w.(flag := Some(Flag(RequestText(e.pid, requester, stamp, policy), w.now, w.nextFlag, Some(e))),
         nextFlag := w.nextFlag + 1)
    case WriteByHand(text) =>
      w.(flag := Some(Flag(text, w.now, w.nextFlag, None)), nextFlag := w.nextFlag + 1)
    case Check(e, site, sight) =>
      w.(flag := AfterCheck(w.flag, e, site, sight),
         stops := if Acts(w.flag, e, site, sight).stop then w.stops + {Stop(e, w.flag.value)} else w.stops)
    case Exit(e) => w.(running := w.running - {e})
    case Signal(startup, e) =>
      w.(kills := w.kills[startup := KillsOf(w, startup) + {Kill(e, w.now)}])
    case Cleanup(startup, sight) =>
      w.(flag := AfterCleanup(w.flag, KilledPids(w, startup), sight))
    case Withdraw(e, sight) =>
      w.(flag := AfterWithdrawal(w.flag, e.pid, sight))
  }

  predicate Legal(w: World, steps: seq<Step>)
    decreases |steps|
  {
    |steps| == 0 || (Enabled(w, steps[0]) && Legal(Next(w, steps[0]), steps[1..]))
  }

  function Run(w: World, steps: seq<Step>): World
    decreases |steps|
  {
    if |steps| == 0 then w else Run(Next(w, steps[0]), steps[1..])
  }

  // ---------------------------------------------------------------- what every run keeps

  ghost predicate SoundEngines(w: World) {
    && w.running <= w.started
    && (forall e :: e in w.started ==> e.start <= w.now && 1 <= e.pid <= MaxPid && e.id < w.nextEngine)
    && (forall e, f :: e in w.running && f in w.running && e.pid == f.pid ==> e == f)
  }

  /** A request names the engine it was written for, was written in that engine's time, and any other
      running engine with that PID started afterwards. */
  ghost predicate SoundFlag(w: World) {
    w.flag.Some? ==>
      var g := w.flag.value;
      g.mtime <= w.now && g.id < w.nextFlag &&
      (g.writtenFor.Some? ==>
         var e := g.writtenFor.value;
         && e in w.started && e.start <= g.mtime && KindOf(g.text) == Addressed(e.pid)
         && forall f :: f in w.running && f.pid == e.pid && f != e ==> g.mtime <= f.start)
  }

  /** Whoever runs under the PID of a killed engine is that engine or started after the kill. */
  ghost predicate SoundKills(w: World) {
    forall g, k :: k in KillsOf(w, g) ==>
      && k.engine in w.started && k.at <= w.now
      && forall f :: f in w.running && f.pid == k.engine.pid && f != k.engine ==> k.at <= f.start
  }

  /** Every honoured request was written at or after its engine's start; if it was written for another
      engine, at that very instant and under the same PID. */
  ghost predicate SoundStop(s: Stop) {
    && s.engine.start <= s.flag.mtime
    && (s.flag.writtenFor.Some? && s.flag.writtenFor.value != s.engine ==>
          s.flag.writtenFor.value.pid == s.engine.pid && s.flag.mtime == s.engine.start)
  }

  ghost predicate SoundStops(w: World) {
    forall s :: s in w.stops ==> SoundStop(s) && s.flag.id < w.nextFlag
  }

  ghost predicate Sound(w: World) {
    SoundEngines(w) && SoundFlag(w) && SoundKills(w) && SoundStops(w)
  }

  lemma DecimalLength(n: nat)
    requires n <= MaxPid
    ensures |Decimal(n)| <= 10
  {
    assert Power10(10) == 10000000000 by {
      assert Power10(5) == 100000;
    }
    DecimalIsShort(n, 10);
  }

  /** Both readers see the PID the request was rendered with. */
  lemma RequestNamesItsPid(pid: nat, requester: nat, stamp: string, policy: Option<Policy>)
    requires 1 <= pid <= MaxPid && requester <= MaxPid && '\n' !in stamp && |stamp| <= 64
    ensures KindOf(RequestText(pid, requester, stamp, policy)) == Addressed(pid)
    ensures EngineKindOf(RequestText(pid, requester, stamp, policy)) == Addressed(pid)
  {
    var text := RequestText(pid, requester, stamp, policy);
    RenderRoundTrip(pid, requester, stamp, policy);
    DecimalLength(pid);
    DecimalLength(requester);
    hide Read, EngineRead, Decimal;
    assert |text| <= MaxBytes;
    ReadersAgree(text);
  }

  lemma KillsOfNext(w: World, s: Step, g: nat)
    ensures KillsOf(Next(w, s), g)
         == if s.Signal? && s.startup == g then KillsOf(w, g) + {Kill(s.e, w.now)} else KillsOf(w, g)
  {
    hide AfterCheck, Acts, AfterCleanup, AfterWithdrawal, RequestText;
  }

  lemma StepKeepsEngines(w: World, s: Step)
    requires Sound(w) && Enabled(w, s)
    ensures SoundEngines(Next(w, s))
  {
    hide SoundFlag, SoundKills, SoundStops, AfterCheck, Acts, AfterCleanup, AfterWithdrawal, RequestText;
  }

  lemma StepKeepsFlag(w: World, s: Step)
    requires Sound(w) && Enabled(w, s)
    ensures SoundFlag(Next(w, s))
  {
    hide SoundKills, SoundStops, Acts, KindOf, KilledPids, RequestText, CleanupTakes;
    if s.Ask? {
      RequestNamesItsPid(s.e.pid, s.requester, s.stamp, s.policy);
    }
  }

  lemma StepKeepsKills(w: World, s: Step)
    requires Sound(w) && Enabled(w, s)
    ensures SoundKills(Next(w, s))
  {
    var v := Next(w, s);
    forall g, k | k in KillsOf(v, g)
      ensures k.engine in v.started && k.at <= v.now
      ensures forall f :: f in v.running && f.pid == k.engine.pid && f != k.engine ==> k.at <= f.start
    {
      KillsOfNext(w, s, g);
      hide SoundFlag, SoundStops, KillsOf, AfterCheck, Acts, AfterCleanup, AfterWithdrawal, RequestText;
    }
  }

  /** Honouring a request needs its address, if it has one, and its time. */
  lemma HonouredMeansOurs(flag: Option<Flag>, e: Engine, site: Site, sight: Sight)
    requires Acts(flag, e, site, sight).stop
    ensures flag.Some? && flag.value.mtime >= e.start
    ensures KindOf(flag.value.text) == Addressed(e.pid) || KindOf(flag.value.text) == Unaddressed
  {
    hide KindOf, EngineKindOf;
    ReadersAgree(flag.value.text);
  }

  lemma StepKeepsStops(w: World, s: Step)
    requires Sound(w) && Enabled(w, s)
    ensures SoundStops(Next(w, s))
  {
    hide KindOf, Acts, AfterCheck, AfterCleanup, AfterWithdrawal, RequestText, SoundKills;
    if s.Check? && Acts(w.flag, s.e, s.site, s.sight).stop {
      HonouredMeansOurs(w.flag, s.e, s.site, s.sight);
    }
  }

  lemma StepKeepsSound(w: World, s: Step)
    requires Sound(w) && Enabled(w, s)
    ensures Sound(Next(w, s))
  {
    StepKeepsEngines(w, s);
    StepKeepsFlag(w, s);
    StepKeepsKills(w, s);
    StepKeepsStops(w, s);
  }

  lemma {:induction false} RunKeepsSound(w: World, steps: seq<Step>)
    requires Sound(w) && Legal(w, steps)
    ensures Sound(Run(w, steps))
    decreases |steps|
  {
    hide Sound, Enabled, Next;
    if |steps| > 0 {
      StepKeepsSound(w, steps[0]);
      RunKeepsSound(Next(w, steps[0]), steps[1..]);
    }
  }

  // ---------------------------------------------------------------- who stops for what

  /** In every run, an engine stops for a request written for another only if it took over that engine's
      PID and started at the very instant of the writing. So an engine that started later than a request
      never stops for it. */
  lemma OnlyASimultaneousHeirStopsForAnother(steps: seq<Step>, s: Stop)
    requires Legal(Nothing, steps) && s in Run(Nothing, steps).stops
    ensures s.engine.start <= s.flag.mtime
    ensures s.flag.writtenFor.Some? && s.flag.writtenFor.value != s.engine ==>
              s.flag.writtenFor.value.pid == s.engine.pid && s.flag.mtime == s.engine.start
  {
    RunKeepsSound(Nothing, steps);
  }

  /** Exactly when a running engine would stop for a request written for another one. */
  lemma ForeignRequestStopsIff(w: World, e: Engine)
    requires Sound(w) && e in w.running
    requires w.flag.Some? && w.flag.value.writtenFor.Some? && w.flag.value.writtenFor.value != e
    ensures Acts(w.flag, e, Checkpoint, Clear).stop
        <==> w.flag.value.writtenFor.value.pid == e.pid && w.flag.value.mtime == e.start
  {
    hide KindOf, EngineKindOf;
    ReadersAgree(w.flag.value.text);
  }

  /** The remaining case does occur: a request, its engine's exit and a PID reuse in one clock tick. */
  lemma HeirCanStopForAnother()
    ensures exists steps, s :: Legal(Nothing, steps) && s in Run(Nothing, steps).stops
              && s.flag.writtenFor.Some? && s.flag.writtenFor.value != s.engine
  {
    hide Legal, Run, KindOf, EngineKindOf, RequestText;
    var e, f := Engine(0, 7, 0), Engine(1, 7, 0);
    var steps := [Start(7), Ask(e, 1, "", None), Exit(e), Start(7), Check(f, Checkpoint, Clear)];
    RequestNamesItsPid(7, 1, "", None);
    var w1 := World(0, {e}, {e}, None, map[], {}, 1, 0);
    assert Next(Nothing, steps[0]) == w1;
    var g := Flag(RequestText(7, 1, "", None), 0, 0, Some(e));
    var w2 := w1.(flag := Some(g), nextFlag := 1);
    assert Next(w1, steps[1]) == w2;
    var w3 := w2.(running := {});
    assert Next(w2, steps[2]) == w3;
    var w4 := w3.(started := {e, f}, running := {f}, nextEngine := 2);
    assert Next(w3, steps[3]) == w4;
    var w5 := Next(w4, steps[4]);
    assert Stop(f, g) in w5.stops;
    RunOfFive(steps, w1, w2, w3, w4, w5);
  }

  lemma RunOfFive(steps: seq<Step>, w1: World, w2: World, w3: World, w4: World, w5: World)
    requires |steps| == 5
    requires Enabled(Nothing, steps[0]) && w1 == Next(Nothing, steps[0])
    requires Enabled(w1, steps[1]) && w2 == Next(w1, steps[1])
    requires Enabled(w2, steps[2]) && w3 == Next(w2, steps[2])
    requires Enabled(w3, steps[3]) && w4 == Next(w3, steps[3])
    requires Enabled(w4, steps[4]) && w5 == Next(w4, steps[4])
    ensures Legal(Nothing, steps) && Run(Nothing, steps) == w5
  {
    hide Enabled, Next;
    var s1, s2, s3, s4, s5 := steps[1..], steps[1..][1..], steps[1..][1..][1..], steps[1..][1..][1..][1..], steps[1..][1..][1..][1..][1..];
    assert Legal(w5, s5) && Run(w5, s5) == w5;
    assert Legal(w4, s4) && Run(w4, s4) == w5;
    assert Legal(w3, s3) && Run(w3, s3) == w5;
    assert Legal(w2, s2) && Run(w2, s2) == w5;
    assert Legal(w1, s1) && Run(w1, s1) == w5;
  }

  // ---------------------------------------------------------------- after a clean-up

  lemma {:induction false} RunSplits(w: World, a: seq<Step>, b: seq<Step>)
    ensures Legal(w, a + b) <==> Legal(w, a) && Legal(Run(w, a), b)
    ensures Run(w, a + b) == Run(Run(w, a), b)
    decreases |a|
  {
    hide Enabled, Next;
    if |a| == 0 {
      assert a + b == b;
    } else {
      assert (a + b)[1..] == a[1..] + b;
      RunSplits(Next(w, a[0]), a[1..], b);
    }
  }

  lemma StepDropsForGood(w: World, s: Step, id: nat)
    requires id < w.nextFlag
    requires w.flag.Some? ==> w.flag.value.id != id
    ensures var v := Next(w, s);
            && id < v.nextFlag && (v.flag.Some? ==> v.flag.value.id != id)
            && forall x :: x in v.stops && x.flag.id == id ==> x in w.stops
  {
    hide KindOf, EngineKindOf, RequestText, KilledPids, CleanupTakes, Decide, Plan;
  }

  /** A request that is gone is never honoured again. */
  lemma {:induction false} GoneForGood(w: World, steps: seq<Step>, id: nat)
    requires id < w.nextFlag
    requires w.flag.Some? ==> w.flag.value.id != id
    ensures forall x :: x in Run(w, steps).stops && x.flag.id == id ==> x in w.stops
    decreases |steps|
  {
    hide Next;
    if |steps| > 0 {
      StepDropsForGood(w, steps[0], id);
      GoneForGood(Next(w, steps[0]), steps[1..], id);
    }
  }

  /** Serial numbers name flags, in the file and in the history. */
  ghost predicate Numbered(w: World) {
    && (w.flag.Some? ==> w.flag.value.id < w.nextFlag)
    && (forall x :: x in w.stops && w.flag.Some? && x.flag.id == w.flag.value.id ==> x.flag == w.flag.value)
    && (forall x :: x in w.stops ==> x.flag.id < w.nextFlag)
  }

  lemma StepKeepsNumbers(w: World, s: Step)
    requires Numbered(w)
    ensures var v := Next(w, s);
            && Numbered(v) && w.nextFlag <= v.nextFlag && w.stops <= v.stops
            && (w.flag.Some? && v.flag.Some? && v.flag.value.id == w.flag.value.id ==> v.flag == w.flag)
            && (w.flag.Some? ==> forall x :: x in v.stops && x.flag.id == w.flag.value.id ==> x.flag == w.flag.value)
  {
    hide KindOf, EngineKindOf, RequestText, KilledPids, CleanupTakes, Decide, Plan;
  }

  lemma {:induction false} RunKeepsNumbers(w: World, steps: seq<Step>)
    requires Numbered(w)
    ensures Numbered(Run(w, steps)) && w.stops <= Run(w, steps).stops
    ensures w.flag.Some? ==>
              forall x :: x in Run(w, steps).stops && x.flag.id == w.flag.value.id ==> x.flag == w.flag.value
    decreases |steps|
  {
    hide Next;
    if |steps| > 0 {
      var v := Next(w, steps[0]);
      StepKeepsNumbers(w, steps[0]);
      RunKeepsNumbers(v, steps[1..]);
      if w.flag.Some? && !(v.flag.Some? && v.flag.value.id == w.flag.value.id) {
        GoneForGood(v, steps[1..], w.flag.value.id);
      }
    }
  }

  /** After a clean-up nobody, however soon it starts and whatever PID it is given, stops for a request
      written before for an engine that startup had killed, nor for an unaddressed one if it killed any:
      a stop for an older request is a stop for the flag the clean-up left. */
  lemma CleanupSilencesTheKilled(before: seq<Step>, startup: nat, after: seq<Step>, x: Stop)
    requires Legal(Nothing, before + ([Cleanup(startup, Clear)] + after))
    requires x in Run(Nothing, before + ([Cleanup(startup, Clear)] + after)).stops
    requires x !in Run(Nothing, before).stops && x.flag.id < Run(Nothing, before).nextFlag
    ensures var w := Run(Nothing, before);
            && w.flag == Some(x.flag)
            && (KindOf(x.flag.text) == Unaddressed ==> KillsOf(w, startup) == {})
            && forall k :: k in KillsOf(w, startup) ==>
                 KindOf(x.flag.text) != Addressed(k.engine.pid) && x.flag.writtenFor != Some(k.engine)
  {
    var w := Run(Nothing, before);
    var clean := [Cleanup(startup, Clear)] + after;
    RunSplits(Nothing, before, clean);
    RunKeepsSound(Nothing, before);
    RunKeepsNumbers(Nothing, before);
    var v := Next(w, clean[0]);
    assert clean[1..] == after;
    assert Run(w, clean) == Run(v, after);
    hide Run, Legal, KindOf, SoundEngines, SoundKills, SoundStops;
    if v.flag == None || v.flag.value.id != x.flag.id {
      GoneForGood(v, after, x.flag.id);
    }
    RunKeepsNumbers(v, after);
    forall k | k in KillsOf(w, startup)
      ensures k.engine.pid in KilledPids(w, startup)
    {
    }
  }

  /** A clean-up or a withdrawal takes away the request of a running engine only if this startup killed
      that engine, or killed another of the same PID before this one started. */
  lemma OnlyTheKilledLoseTheirRequest(w: World, s: Step, e: Engine)
    requires Sound(w) && Enabled(w, s) && (s.Cleanup? || s.Withdraw?)
    requires e in w.running && w.flag.Some? && w.flag.value.writtenFor == Some(e)
    ensures Next(w, s).flag != w.flag
       <==> s.Cleanup? && s.sight.content && s.sight.removable
            && exists k :: k in KillsOf(w, s.startup) && k.engine.pid == e.pid
    ensures forall k :: Next(w, s).flag != w.flag && k in KillsOf(w, s.startup) && k.engine.pid == e.pid ==>
              k.engine == e || k.at <= e.start
  {
    hide KindOf, SoundStops;
    if s.Cleanup? && e.pid in KilledPids(w, s.startup) {
      var k :| k in KillsOf(w, s.startup) && k.engine.pid == e.pid;
    }
  }

  /** What a clean-up that may read and remove leaves alone, and nothing else: malformed content, a request for
      a PID this startup killed no engine of, and an unaddressed one if it killed none at all. */
  lemma CleanupKeepsIff(w: World, startup: nat)
    requires w.flag.Some?
    ensures Next(w, Cleanup(startup, Clear)).flag == w.flag
       <==> match KindOf(w.flag.value.text)
            case Malformed => true
            case Addressed(pid) => forall k :: k in KillsOf(w, startup) ==> k.engine.pid != pid
            case Unaddressed => KillsOf(w, startup) == {}
    ensures Next(w, Cleanup(startup, Clear)).flag != w.flag ==> Next(w, Cleanup(startup, Clear)).flag == None
  {
    hide KindOf;
    forall k | k in KillsOf(w, startup)
      ensures k.engine.pid in KilledPids(w, startup)
    {
    }
  }

  /** The start of a GUI that had nothing to kill changes no flag, the operator's own included. */
  lemma HarmlessStartKeepsTheFlag(w: World, startup: nat, sight: Sight)
    requires KillsOf(w, startup) == {}
    ensures Next(w, Cleanup(startup, sight)) == w
  {
    hide KindOf;
    assert KilledPids(w, startup) == {};
  }

  // ---------------------------------------------------------------- delivery

  /** Steps that do not touch the flag of a running engine: it is neither rewritten nor cleaned up after a
      kill of its PID, and no other engine evaluates it. */
  predicate LeavesRequest(w: World, s: Step, e: Engine) {
    match s
    case Ask(_, _, _, _) => false
    case WriteByHand(_) => false
    case Check(f, site, sight) => f == e && (site.BootSweep? || !sight.content || !sight.mtime)
    case Exit(f) => f != e
    case Cleanup(g, _) => e.pid !in KilledPids(w, g)
    case _ => true
  }

  predicate LeaveRequest(w: World, steps: seq<Step>, e: Engine)
    decreases |steps|
  {
    |steps| == 0 || (LeavesRequest(w, steps[0], e) && LeaveRequest(Next(w, steps[0]), steps[1..], e))
  }

  lemma StepLeavesRequest(w: World, s: Step, e: Engine)
    requires Sound(w) && Enabled(w, s) && LeavesRequest(w, s, e)
    requires e in w.running && w.flag.Some? && w.flag.value.writtenFor == Some(e)
    ensures Next(w, s).flag == w.flag && e in Next(w, s).running
  {
    hide KindOf, EngineKindOf, RequestText, SoundKills, SoundStops, KilledPids;
    ReadersAgree(w.flag.value.text);
  }

  lemma OwnRequestStops(w: World, e: Engine)
    requires Sound(w) && w.flag.Some? && w.flag.value.writtenFor == Some(e)
    ensures var v := Next(w, Check(e, Checkpoint, Clear));
            v.flag == None && Stop(e, w.flag.value) in v.stops
  {
    hide KindOf, EngineKindOf, SoundKills, SoundStops;
    ReadersAgree(w.flag.value.text);
  }

  /** A request reaches its engine: however long relaunching GUIs wait, signal others and clean up, the
      next full checkpoint of that engine takes the flag away and stops it. */
  lemma {:induction false} RequestIsDelivered(w: World, steps: seq<Step>, e: Engine)
    requires Sound(w) && Legal(w, steps) && LeaveRequest(w, steps, e)
    requires e in w.running && w.flag.Some? && w.flag.value.writtenFor == Some(e)
    ensures var v := Next(Run(w, steps), Check(e, Checkpoint, Clear));
            v.flag == None && Stop(e, w.flag.value) in v.stops
    decreases |steps|
  {
    if |steps| > 0 {
      StepLeavesRequest(w, steps[0], e);
      StepKeepsSound(w, steps[0]);
      hide Sound, Next;
      RequestIsDelivered(Next(w, steps[0]), steps[1..], e);
    } else {
      OwnRequestStops(w, e);
    }
  }

  // ---------------------------------------------------------------- how a stop ended

  datatype Outcome =
    | Graceful
    | ExitedWithoutConsuming
    | FlagGoneAbnormalExit
    | TerminatedBeforeConsuming
    | TerminatedAfterConsuming
    | TerminatedWithoutRequest
    | StillRunning

  /** classify_stop_outcome. */
  function Classify(returnCode: Option<int>, written: bool, stillNamed: bool, forced: bool): Outcome {
    if returnCode.None? then StillRunning
    else if !written then TerminatedWithoutRequest
    else if forced then if stillNamed then TerminatedBeforeConsuming else TerminatedAfterConsuming
    else if stillNamed then ExitedWithoutConsuming
    else if returnCode == Some(0) then Graceful
    else FlagGoneAbnormalExit
  }

  /** outcome_leaves_undelivered_flag. */
  predicate Undelivered(o: Outcome) {
    o.ExitedWithoutConsuming? || o.TerminatedBeforeConsuming?
  }

  predicate Names(flag: Option<Flag>, pid: nat) {
    flag.Some? && KindOf(flag.value.text) == Addressed(pid)
  }

  /** The end of _stop_running_engine: look at the flag, classify, take an undelivered request back. */
  method FinishStop(file: FlagFile, pid: nat, returnCode: Option<int>, written: bool, forced: bool)
      returns (outcome: Outcome)
    modifies file
    ensures outcome == Classify(returnCode, written, Names(old(file.flag), pid), forced)
    ensures file.flag == if Undelivered(outcome) then AfterWithdrawal(old(file.flag), pid, Clear) else old(file.flag)
  {
    var named := false;
    if file.flag.Some? {
      var request := ParseShutdownRequest(Head(file.flag.value.text));
      named := request.kind == Addressed(pid);
    }
    outcome := Classify(returnCode, written, named, forced);
    if Undelivered(outcome) {
      var _ := file.RemoveIfAddressedTo(pid, Clear);
    }
  }

  /** What an outcome says: a running engine, one that was sent no request, or whether the request was still there and
      whether the engine was terminated; a request is undelivered exactly when it was written and is still there. */
  lemma OutcomeSays(returnCode: Option<int>, written: bool, named: bool, forced: bool)
    ensures var o := Classify(returnCode, written, named, forced);
            && (o.StillRunning? <==> returnCode == None)
            && (o.TerminatedWithoutRequest? <==> returnCode != None && !written)
            && (o.TerminatedBeforeConsuming? <==> returnCode != None && written && named && forced)
            && (o.ExitedWithoutConsuming? <==> returnCode != None && written && named && !forced)
            && (o.TerminatedAfterConsuming? <==> returnCode != None && written && !named && forced)
            && (o.Graceful? <==> returnCode == Some(0) && written && !named && !forced)
            && (Undelivered(o) <==> returnCode != None && written && named)
  {
  }

  /** Once the engine is gone and its request was written, the stop leaves no request naming its PID, and
      touches no other; a stop is graceful only if the engine's flag was gone before. */
  lemma StopLeavesNoRequest(flag: Option<Flag>, pid: nat, code: int, forced: bool)
    ensures var o := Classify(Some(code), true, Names(flag, pid), forced);
            var left := if Undelivered(o) then AfterWithdrawal(flag, pid, Clear) else flag;
            && !Names(left, pid)
            && (left == flag <==> !Names(flag, pid))
            && (o.Graceful? <==> code == 0 && !forced && left == flag)
  {
    hide KindOf;
  }
}
