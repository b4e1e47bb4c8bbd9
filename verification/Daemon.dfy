/**
 * The daemon around the fencer: a discovery thread publishes the LUNs in use, and
 * the monitoring loop polls, each at its own pace. Every lock-level step is one event,
 * and events of the two threads interleave freely.
 */
module Daemon {
  import opened Wrappers
  import opened Multipath
  import opened Fencing
  import opened FencingRuns

  datatype Setup = Setup(fencer: Config, testMode: bool, discoveryInterval: nat)

  /** The record behind the read-write lock: the LUNs and when they were discovered. */
  datatype LunRecord = LunRecord(luns: set<string>, discoveredAt: nat)

  datatype Event =
    | Published(luns: set<string>, now: nat)  // discovery succeeded
    | DiscoveryFailed                         // discovery failed or panicked
    | Tick                                    // the loop woke up and copied the record
    | Checked(now: nat)                       // the staleness check of that copy
    | QueryFailed                             // multipathd gave no reply
    | ParseFailed                             // the reply was rejected
    | Answered(maps: seq<MultipathMap>)       // the reply was evaluated

  /** Where the monitoring loop stands; `tick` and `check` are positions in the event history. */
  datatype Phase =
    | Waiting
    | Holding(data: LunRecord, ghost tick: nat)
    | Querying(luns: set<string>, ghost tick: nat, ghost check: nat)

  /** An evaluated poll, by the positions of its three events. */
  datatype Poll = Poll(tick: nat, check: nat, answer: nat)

  datatype Machine = Machine(shared: LunRecord, phase: Phase, fencer: State, events: seq<Event>, polls: seq<Poll>)

  /** How old a record is; a clock reading before the record counts as zero. */
  function Elapsed(now: nat, at: nat): nat {
    if now < at then 0 else now - at
  }

  predicate IsStale(record: LunRecord, interval: nat, now: nat) {
    Elapsed(now, record.discoveredAt) > interval * 2
  }

  ghost function Start(now: nat): Machine {
    Machine(LunRecord({}, now), Waiting, INITIAL, [], [])
  }

  ghost predicate Enabled(m: Machine, e: Event) {
    match e
    case Published(_, _) => true
    case DiscoveryFailed => true
    case Tick => m.phase.Waiting?
    case Checked(_) => m.phase.Holding?
    case QueryFailed => m.phase.Querying?
    case ParseFailed => m.phase.Querying?
    case Answered(_) => m.phase.Querying?
  }

  ghost function Next(setup: Setup, m: Machine, e: Event): Machine
    requires Enabled(m, e)
  {
    var here := |m.events|;
    var m := m.(events := m.events + [e]);
    match e
    case Published(luns, now) => m.(shared := LunRecord(luns, now))
    case DiscoveryFailed => m
    case Tick => m.(phase := Holding(m.shared, here))
    case Checked(now) =>
      if IsStale(m.phase.data, setup.discoveryInterval, now) then m.(phase := Waiting)
      else m.(phase := Querying(m.phase.data.luns, m.phase.tick, here))
    case QueryFailed => m.(phase := Waiting)
    case ParseFailed => m.(phase := Waiting)
    case Answered(maps) =>
      m.(phase := Waiting,
         fencer := Step(setup.fencer, m.fencer, Cycle(maps, m.phase.luns)),
         polls := m.polls + [Poll(m.phase.tick, m.phase.check, here)])
  }

  /** The event makes the daemon reboot its node. */
  ghost predicate Reboots(setup: Setup, m: Machine, e: Event) {
    && m.phase.Querying? && e.Answered? && !setup.testMode
    && Fences(setup.fencer, m.fencer, Cycle(e.maps, m.phase.luns))
  }

  /** The machine after an interleaving that starts at time `start`; none if some event could not happen. */
  ghost function Exec(setup: Setup, start: nat, es: seq<Event>): Option<Machine> {
    if es == [] then Some(Start(start))
    else
      match Exec(setup, start, es[..|es| - 1])
      case Some(m) => if Enabled(m, es[|es| - 1]) then Some(Next(setup, m, es[|es| - 1])) else None
      case None => None
  }

  // ---------- what the history says ----------

  /** The record that the last publication before position `k` left behind. */
  ghost function RecordAt(start: nat, es: seq<Event>, k: nat): LunRecord
    requires k <= |es|
  {
    if k == 0 then LunRecord({}, start)
    else if es[k - 1].Published? then LunRecord(es[k - 1].luns, es[k - 1].now)
    else RecordAt(start, es, k - 1)
  }

  /** The poll's three events are there, in order, and no other monitoring event lies between them. */
  ghost predicate PollOf(es: seq<Event>, p: Poll) {
    && p.tick < p.check < p.answer < |es|
    && es[p.tick].Tick? && es[p.check].Checked? && es[p.answer].Answered?
    && forall k | p.tick < k < p.answer && k != p.check :: es[k].Published? || es[k].DiscoveryFailed?
  }

  /** The record the poll copied was at most two discovery intervals old when it was checked. */
  ghost predicate FreshPoll(setup: Setup, start: nat, es: seq<Event>, p: Poll) {
    && PollOf(es, p)
    && es[p.check].now <= RecordAt(start, es, p.tick).discoveredAt + 2 * setup.discoveryInterval
  }

  ghost function CycleOf(start: nat, es: seq<Event>, p: Poll): Cycle
    requires PollOf(es, p)
  {
    Cycle(es[p.answer].maps, RecordAt(start, es, p.tick).luns)
  }

  ghost function Cycles(setup: Setup, start: nat, es: seq<Event>, polls: seq<Poll>): seq<Cycle>
    requires forall p | p in polls :: FreshPoll(setup, start, es, p)
  {
    seq(|polls|, i requires 0 <= i < |polls| =>
      assert polls[i] in polls && FreshPoll(setup, start, es, polls[i]); CycleOf(start, es, polls[i]))
  }

  /** `polls` lists exactly the evaluated polls of the history, oldest first. */
  ghost predicate AllPolls(es: seq<Event>, polls: seq<Poll>) {
    && (forall i, j | 0 <= i < j < |polls| :: polls[i].answer < polls[j].tick)
    && (forall p | p in polls :: PollOf(es, p))
    && (forall k | 0 <= k < |es| && es[k].Answered? :: exists p | p in polls :: p.answer == k)
  }

  ghost predicate PhaseMatches(setup: Setup, start: nat, m: Machine) {
    var es := m.events;
    match m.phase
    case Waiting => true
    case Holding(data, tick) =>
      && tick < |es| && es[tick].Tick? && data == RecordAt(start, es, tick)
      && (forall k | tick < k < |es| :: es[k].Published? || es[k].DiscoveryFailed?)
      && (forall p | p in m.polls :: p.answer < tick)
    case Querying(luns, tick, check) =>
      && tick < check < |es| && es[tick].Tick? && es[check].Checked?
      && luns == RecordAt(start, es, tick).luns
      && es[check].now <= RecordAt(start, es, tick).discoveredAt + 2 * setup.discoveryInterval
      && (forall k | tick < k < |es| && k != check :: es[k].Published? || es[k].DiscoveryFailed?)
      && (forall p | p in m.polls :: p.answer < tick)
  }

  /** What every interleaving keeps. */
  ghost predicate Invariant(setup: Setup, start: nat, m: Machine) {
    && m.shared == RecordAt(start, m.events, |m.events|)
    && PhaseMatches(setup, start, m)
    && AllPolls(m.events, m.polls)
    && (forall p | p in m.polls :: FreshPoll(setup, start, m.events, p))
    && m.fencer == Run(setup.fencer, Cycles(setup, start, m.events, m.polls))
  }

  lemma {:induction false} RecordAtPrefix(start: nat, es: seq<Event>, e: Event, k: nat)
    requires k <= |es|
    ensures RecordAt(start, es + [e], k) == RecordAt(start, es, k)
  {
    if k > 0 { RecordAtPrefix(start, es, e, k - 1); }
  }

  lemma PollsPersist(setup: Setup, start: nat, es: seq<Event>, e: Event, polls: seq<Poll>)
    requires forall p | p in polls :: FreshPoll(setup, start, es, p)
    ensures forall p | p in polls :: FreshPoll(setup, start, es + [e], p)
    ensures Cycles(setup, start, es + [e], polls) == Cycles(setup, start, es, polls)
  {
    forall p | p in polls
      ensures FreshPoll(setup, start, es + [e], p)
      ensures CycleOf(start, es + [e], p) == CycleOf(start, es, p)
    {
      assert FreshPoll(setup, start, es, p);
      RecordAtPrefix(start, es, e, p.tick);
    }
  }

  /** Every event of either thread keeps the invariant. */
  lemma {:induction false} EventKeepsInvariant(setup: Setup, start: nat, m: Machine, e: Event)
    requires Invariant(setup, start, m) && Enabled(m, e)
    ensures Invariant(setup, start, Next(setup, m, e))
  {
    hide Run, Step, Fences;
    var es, m' := m.events, Next(setup, m, e);
    RecordAtPrefix(start, es, e, |es|);
    PollsPersist(setup, start, es, e, m.polls);
    if m.phase.Holding? || m.phase.Querying? {
      RecordAtPrefix(start, es, e, m.phase.tick);
    }
    if e.Answered? {
      AnsweredKeepsPolls(setup, start, m, e);
    } else {
      assert m'.polls == m.polls && m'.fencer == m.fencer;
    }
  }

  lemma AnsweredKeepsPolls(setup: Setup, start: nat, m: Machine, e: Event)
    requires Invariant(setup, start, m) && m.phase.Querying? && e.Answered?
    ensures var m' := Next(setup, m, e);
            && AllPolls(m'.events, m'.polls)
            && (forall p | p in m'.polls :: FreshPoll(setup, start, m'.events, p))
            && m'.fencer == Run(setup.fencer, Cycles(setup, start, m'.events, m'.polls))
  {
    hide Step, Fences, Run;
    var es, p := m.events, Poll(m.phase.tick, m.phase.check, |m.events|);
    RecordAtPrefix(start, es, e, p.tick);
    assert FreshPoll(setup, start, es + [e], p);
    hide FreshPoll;
    PollsPersist(setup, start, es, e, m.polls);
    OneMorePoll(es, e, m.polls, p);
    assert Next(setup, m, e).polls == m.polls + [p];
    assert CycleOf(start, es + [e], p) == Cycle(e.maps, m.phase.luns);
    FencerFollows(setup, start, m, e, p);
  }

  lemma OneMorePoll(es: seq<Event>, e: Event, polls: seq<Poll>, p: Poll)
    requires AllPolls(es, polls) && PollOf(es + [e], p) && p.answer == |es|
    requires forall q | q in polls :: q.answer < p.tick
    requires forall q | q in polls :: PollOf(es + [e], q)
    ensures AllPolls(es + [e], polls + [p])
  {
    var all := polls + [p];
    assert all[|polls|] == p;
    forall k | 0 <= k <= |es| && (es + [e])[k].Answered? ensures exists q | q in all :: q.answer == k {
      if k < |es| {
        var q :| q in polls && q.answer == k;
        assert q in all;
      }
    }
  }

  lemma FencerFollows(setup: Setup, start: nat, m: Machine, e: Event, p: Poll)
    requires m.phase.Querying? && e.Answered?
    requires forall q | q in m.polls :: FreshPoll(setup, start, m.events, q)
    requires forall q | q in m.polls + [p] :: FreshPoll(setup, start, m.events + [e], q)
    requires Cycles(setup, start, m.events + [e], m.polls) == Cycles(setup, start, m.events, m.polls)
    requires m.fencer == Run(setup.fencer, Cycles(setup, start, m.events, m.polls))
    requires PollOf(m.events + [e], p) && CycleOf(start, m.events + [e], p) == Cycle(e.maps, m.phase.luns)
    ensures Next(setup, m, e).fencer == Run(setup.fencer, Cycles(setup, start, m.events + [e], m.polls + [p]))
  {
    hide Step, FreshPoll;
    var cs := Cycles(setup, start, m.events + [e], m.polls + [p]);
    assert cs[..|cs| - 1] == Cycles(setup, start, m.events, m.polls);
    assert cs[|cs| - 1] == Cycle(e.maps, m.phase.luns);
  }

  lemma StartKeepsInvariant(setup: Setup, start: nat)
    ensures Invariant(setup, start, Start(start))
  {
    assert Cycles(setup, start, [], []) == [];
  }

  lemma NextRecords(setup: Setup, m: Machine, e: Event)
    requires Enabled(m, e)
    ensures Next(setup, m, e).events == m.events + [e]
  {
    hide Step;
  }

  lemma {:induction false} ReachedKeepsInvariant(setup: Setup, start: nat, es: seq<Event>, m: Machine)
    requires Exec(setup, start, es) == Some(m)
    ensures m.events == es && Invariant(setup, start, m)
  {
    hide Invariant, Next, Enabled;
    if es == [] {
      StartKeepsInvariant(setup, start);
    } else {
      var k := |es| - 1;
      var p := Exec(setup, start, es[..k]).value;
      ReachedKeepsInvariant(setup, start, es[..k], p);
      EventKeepsInvariant(setup, start, p, es[k]);
      NextRecords(setup, p, es[k]);
      assert es[..k] + [es[k]] == es;
    }
  }

  // ---------- the main results ----------

  lemma LastCycle(setup: Setup, start: nat, m: Machine, e: Event)
    requires Invariant(setup, start, m) && Enabled(m, e) && e.Answered?
    requires Invariant(setup, start, Next(setup, m, e))
    ensures var m' := Next(setup, m, e);
            var cs := Cycles(setup, start, m'.events, m'.polls);
            && cs != []
            && FencesAt(setup.fencer, cs, |cs| - 1) == Fences(setup.fencer, m.fencer, Cycle(e.maps, m.phase.luns))
  {
    hide Fences, Step;
    var m' := Next(setup, m, e);
    var cs := Cycles(setup, start, m'.events, m'.polls);
    PollsPersist(setup, start, m.events, e, m.polls);
    RecordAtPrefix(start, m.events, e, m.phase.tick);
    assert cs[..|cs| - 1] == Cycles(setup, start, m.events, m.polls);
    assert cs[|cs| - 1] == Cycle(e.maps, m.phase.luns);
  }

  /**
   * In every interleaving, the daemon reboots exactly outside test mode and when this
   * and the preceding evaluated polls fill the threshold with failures; every one of
   * them used the record current at its tick, fresh at its staleness check.
   */
  lemma {:induction false} RebootIsJustified(setup: Setup, start: nat, es: seq<Event>, m: Machine, e: Event)
    requires Exec(setup, start, es) == Some(m) && Enabled(m, e)
    ensures var m' := Next(setup, m, e);
            && m'.events == es + [e] && AllPolls(m'.events, m'.polls)
            && (forall p | p in m'.polls :: FreshPoll(setup, start, m'.events, p))
            && (Reboots(setup, m, e) <==>
                && !setup.testMode && e.Answered?
                && LastFail(setup.fencer, Cycles(setup, start, m'.events, m'.polls),
                            if setup.fencer.maxFailures == 0 then 1 else setup.fencer.maxFailures))
  {
    ReachedKeepsInvariant(setup, start, es, m);
    EventKeepsInvariant(setup, start, m, e);
    if e.Answered? {
      var m' := Next(setup, m, e);
      var cs := Cycles(setup, start, m'.events, m'.polls);
      LastCycle(setup, start, m, e);
      hide Invariant, Next, Fences, LastFail, FencesAt, Run;
      DecisionIsThreshold(setup.fencer, cs);
    }
  }

  /** Polls that are skipped as stale, unanswered or unparsable, and discovery itself, leave the fencer alone. */
  lemma SkippedPollsChangeNothing(setup: Setup, m: Machine, e: Event)
    requires Enabled(m, e) && !e.Answered?
    ensures Next(setup, m, e).fencer == m.fencer && Next(setup, m, e).polls == m.polls
    ensures !Reboots(setup, m, e)
    ensures e.Checked? && e.now > m.phase.data.discoveredAt + 2 * setup.discoveryInterval ==>
              Next(setup, m, e).phase == Waiting
  {
  }

  /** A poll goes on from its staleness check exactly when its record is at most two discovery intervals old. */
  lemma CheckedGoesOnIff(setup: Setup, m: Machine, now: nat)
    requires Enabled(m, Checked(now))
    ensures Next(setup, m, Checked(now)).phase.Querying? <==>
            now <= m.phase.data.discoveredAt + 2 * setup.discoveryInterval
    ensures Next(setup, m, Checked(now)).phase.Querying? ==>
              Next(setup, m, Checked(now)).phase.luns == m.phase.data.luns
  {
  }

  // ---------- the loop as a program ----------

  class DaemonLoop {
    const testMode: bool
    const discoveryInterval: nat
    const fencer: Fencer
    /** Guarded by the read-write lock; the discovery thread writes it, the loop copies it. */
    var activeLuns: LunRecord
    var phase: Phase
    ghost var events: seq<Event>
    ghost var polls: seq<Poll>

    ghost function Settings(): Setup {
      Setup(fencer.Settings(), testMode, discoveryInterval)
    }

    ghost function State(): Machine
      reads this, fencer
    {
      Machine(activeLuns, phase, fencer.Fields(), events, polls)
    }

    ghost predicate Valid()
      reads this, fencer
    {
      fencer.Valid()
    }

    constructor (config: Config, testMode: bool, discoveryInterval: nat, now: nat)
      ensures Valid() && fresh(fencer)
      ensures Settings() == Setup(config, testMode, discoveryInterval) && State() == Start(now)
    {
      this.testMode, this.discoveryInterval := testMode, discoveryInterval;
      fencer := new Fencer(config.maxFailures, config.targetWwids);
      activeLuns := LunRecord({}, now);
      phase := Waiting;
      events, polls := [], [];
    }

    method PublishDiscovery(luns: set<string>, now: nat)
      requires Valid()
      modifies this
      ensures Valid() && State() == Next(Settings(), old(State()), Published(luns, now))
    {
      activeLuns := LunRecord(luns, now);
      Record(Published(luns, now));
    }

    method FailDiscovery()
      requires Valid()
      modifies this
      ensures Valid() && State() == Next(Settings(), old(State()), DiscoveryFailed)
    {
      Record(DiscoveryFailed);
    }

    method BeginPoll()
      requires Valid() && phase.Waiting?
      modifies this
      ensures Valid() && State() == Next(Settings(), old(State()), Tick)
    {
      phase := Holding(activeLuns, |events|);
      Record(Tick);
    }

    method CheckStaleness(now: nat)
      requires Valid() && phase.Holding?
      modifies this
      ensures Valid() && State() == Next(Settings(), old(State()), Checked(now))
      ensures phase.Querying? <==> now <= old(phase).data.discoveredAt + 2 * discoveryInterval
    {
      if IsStale(phase.data, discoveryInterval, now) {
        phase := Waiting;
      } else {
        phase := Querying(phase.data.luns, phase.tick, |events|);
      }
      Record(Checked(now));
    }

    /** The query of multipathd: no reply, a reply that does not parse, or its maps. */
    method FinishPoll(reply: Option<Option<seq<MultipathMap>>>) returns (reboot: bool)
      requires Valid() && phase.Querying?
      modifies this, fencer
      ensures var e := if reply.None? then QueryFailed
                       else if reply.value.None? then ParseFailed
                       else Answered(reply.value.value);
              && Valid() && State() == Next(Settings(), old(State()), e)
              && reboot == Reboots(Settings(), old(State()), e)
    {
      reboot := false;
      if reply.None? {
        phase := Waiting;
        Record(QueryFailed);
        return;
      }
      if reply.value.None? {
        phase := Waiting;
        Record(ParseFailed);
        return;
      }
      var decision := fencer.UpdateWithMaps(reply.value.value, phase.luns);
      assert fencer.history[..|fencer.history| - 1] == old(fencer.history);
      if decision && !testMode {
        reboot := true;
      }
      polls := polls + [Poll(phase.tick, phase.check, |events|)];
      phase := Waiting;
      Record(Answered(reply.value.value));
    }

    ghost method Record(e: Event)
      requires Valid()
      modifies this`events
      ensures Valid() && events == old(events) + [e]
    {
      events := events + [e];
    }
  }
}
