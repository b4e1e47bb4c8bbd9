/** The status writer protocol never gets stuck: what is in flight can always be finished, and soon is. */
module StatusProgress {
  import opened Wrappers
  import opened StatusText
  import opened StatusTracker

  /** A step that begins nothing new: a thread inside an operation, or a writer. */
  predicate Finishes(step: Step) {
    step.Proceed? || step.RunWriter?
  }

  // ---------- how much is in flight ----------

  function Remaining(p: Progress): nat {
    match p
    case Idle => 0
    case WantsWrite => 8
    case HoldsPath(_) => 7
    case HoldsIssues(_, _) => 6
    case HoldsHandle(_, _) => 5
    case Joining(_, _, _) => 4
    case ReadyToSpawn(_, _) => 3     // the spawned writer has two steps left
    case Flushing => 2
    case FlushJoining(_) => 1
  }

  function StagesLeft(stage: Stage): nat {
    match stage
    case Started => 2
    case TempWritten => 1
    case Finished => 0
  }

  ghost function ThreadsLeft(threads: map<ThreadId, Progress>): nat {
    if threads == map[] then 0
    else
      var t :| t in threads;
      Remaining(threads[t]) + ThreadsLeft(threads - {t})
  }

  function WritersLeft(writers: seq<Writer>): nat {
    if writers == [] then 0
    else WritersLeft(writers[..|writers| - 1]) + StagesLeft(writers[|writers| - 1].stage)
  }

  /** A bound on the steps it takes to finish what is in flight. */
  ghost function InFlight(s: Status): nat {
    ThreadsLeft(s.threads) + WritersLeft(s.writers)
  }

  lemma {:induction false} ThreadsLeftAt(threads: map<ThreadId, Progress>, t: ThreadId)
    requires t in threads
    ensures ThreadsLeft(threads) == Remaining(threads[t]) + ThreadsLeft(threads - {t})
    decreases |threads|
  {
    var u :| u in threads && ThreadsLeft(threads) == Remaining(threads[u]) + ThreadsLeft(threads - {u});
    if u != t {
      ThreadsLeftAt(threads - {u}, t);
      ThreadsLeftAt(threads - {t}, u);
      assert threads - {u} - {t} == threads - {t} - {u};
    }
  }

  lemma ThreadMoved(threads: map<ThreadId, Progress>, t: ThreadId, p: Progress)
    requires t in threads
    ensures ThreadsLeft(threads[t := p]) + Remaining(threads[t]) == ThreadsLeft(threads) + Remaining(p)
  {
    ThreadsLeftAt(threads, t);
    ThreadsLeftAt(threads[t := p], t);
    assert threads[t := p] - {t} == threads - {t};
  }

  lemma {:induction false} WriterMoved(writers: seq<Writer>, w: WriterId, writer: Writer)
    requires w < |writers|
    ensures WritersLeft(writers[w := writer]) + StagesLeft(writers[w].stage)
         == WritersLeft(writers) + StagesLeft(writer.stage)
  {
    var k := |writers| - 1;
    if w < k {
      WriterMoved(writers[..k], w, writer);
      assert writers[w := writer][..k] == writers[..k][w := writer];
    } else {
      assert writers[w := writer][..k] == writers[..k];
    }
  }

  lemma WriterSpawned(writers: seq<Writer>, writer: Writer)
    ensures WritersLeft(writers + [writer]) == WritersLeft(writers) + StagesLeft(writer.stage)
  {
    assert (writers + [writer])[..|writers|] == writers;
  }

  lemma AdvanceDecreases(s: Status, t: ThreadId)
    requires Enabled(s, Proceed(t))
    ensures InFlight(Advance(s, t)) < InFlight(s)
  {
    hide ThreadsLeft, WritersLeft, Rendering;
    var p := s.threads[t];
    ThreadMoved(s.threads, t, Advance(s, t).threads[t]);
    if p.ReadyToSpawn? {
      WriterSpawned(s.writers, Writer(p.path, p.content, Started));
    } else {
      assert Advance(s, t).writers == s.writers;
    }
    assert Advance(s, t).threads == s.threads[t := Advance(s, t).threads[t]];
  }

  lemma RunWriterDecreases(s: Status, w: WriterId)
    requires Enabled(s, RunWriter(w))
    ensures InFlight(Next(s, RunWriter(w))) < InFlight(s)
  {
    hide ThreadsLeft, WritersLeft, Advance;
    var s' := Next(s, RunWriter(w));
    WriterMoved(s.writers, w, s'.writers[w]);
    assert s'.writers == s.writers[w := s'.writers[w]];
  }

  /** Every finishing step leaves less in flight. */
  lemma {:induction false} FinishingDecreases(s: Status, step: Step)
    requires Enabled(s, step) && Finishes(step)
    ensures InFlight(Next(s, step)) < InFlight(s)
  {
    hide InFlight, Advance;
    match step
    case RunWriter(w) => RunWriterDecreases(s, w);
    case Proceed(t) => AdvanceDecreases(s, t);
  }

  // ---------- nothing gets stuck ----------

  /** The owner of the handle, or the writer it waits for, can go on. */
  lemma OwnerGoesOn(s: Status, t: ThreadId) returns (step: Step)
    requires Invariant(s) && t in s.threads && OwnsHandle(s.threads[t])
    ensures Finishes(step) && Enabled(s, step)
  {
    hide Rendering, SomeoneWrites;
    assert ThreadOk(s, t);
    var p := s.threads[t];
    step := if Waits(p) && s.writers[p.w].stage != Finished then RunWriter(p.w) else Proceed(t);
  }

  /** While anything is in flight, some thread inside an operation or some writer can go on. */
  lemma SomethingGoesOn(s: Status) returns (step: Step)
    requires Invariant(s) && !Quiet(s)
    ensures Finishes(step) && Enabled(s, step)
  {
    hide Rendering, SomeoneWrites;
    if t :| t in s.threads && !s.threads[t].Idle? {
      assert ThreadOk(s, t);
      if OwnsHandle(s.threads[t]) {
        step := OwnerGoesOn(s, t);
      } else if s.threads[t].HoldsIssues? && s.owner.Some? {
        assert ThreadOk(s, s.owner.value);
        step := OwnerGoesOn(s, s.owner.value);
      } else {
        step := Proceed(t);
      }
    } else {
      step := RunWriter(|s.writers| - 1);
    }
  }

  /** No reachable state is stuck: it is quiet exactly when no finishing step is possible. */
  lemma {:induction false} NeverStuck(start: Status, steps: seq<Step>, s: Status)
    requires IsStart(start) && Exec(start, steps) == Some(s)
    ensures Quiet(s) <==> forall step | Finishes(step) :: !Enabled(s, step)
  {
    ExecKeepsInvariant(start, steps, s);
    if !Quiet(s) {
      var step := SomethingGoesOn(s);
    } else {
      hide Rendering, SomeoneWrites, ThreadOk;
    }
  }

  lemma {:induction false} ExecConcat(start: Status, a: seq<Step>, b: seq<Step>, s: Status)
    requires Exec(start, a) == Some(s)
    ensures Exec(start, a + b) == Exec(s, b)
  {
    hide Next, Enabled;
    if b == [] {
      assert a + b == a;
    } else {
      var k := |b| - 1;
      ExecConcat(start, a, b[..k], s);
      assert (a + b)[..|a + b| - 1] == a + b[..k];
    }
  }

  /** However what is in flight is finished, it takes no more steps than are in flight. */
  lemma {:induction false} FinishingEnds(s: Status, more: seq<Step>, s': Status)
    requires Exec(s, more) == Some(s') && forall step | step in more :: Finishes(step)
    ensures |more| + InFlight(s') <= InFlight(s)
  {
    hide Next, Enabled, InFlight;
    if more != [] {
      var k := |more| - 1;
      var p := Exec(s, more[..k]).value;
      assert more[k] in more;
      FinishingEnds(s, more[..k], p);
      FinishingDecreases(p, more[k]);
    }
  }

  /**
   * Letting what is in flight finish, in whatever order, until nothing more can move takes
   * a bounded number of steps and ends with the file holding the report of the current
   * issues, if a writer was spawned since the path was set.
   */
  lemma {:induction false} RunsSettle(start: Status, steps: seq<Step>, s: Status, more: seq<Step>, s': Status)
    requires IsStart(start) && Exec(start, steps) == Some(s)
    requires Exec(s, more) == Some(s') && forall step | step in more :: Finishes(step)
    requires forall step | Finishes(step) :: !Enabled(s', step)
    ensures |more| <= InFlight(s) && Quiet(s')
    ensures s'.spawned ==>
              && s'.statusFile.Some? && s'.statusFile.value in s'.files
              && s'.files[s'.statusFile.value] == Rendering(s'.issues)
  {
    hide Next, Enabled, InFlight, Rendering;
    FinishingEnds(s, more, s');
    ExecConcat(start, steps, more, s);
    NeverStuck(start, steps + more, s');
    QuietFileIsCurrent(start, steps + more, s');
  }

  /** And such an end can always be reached. */
  lemma {:induction false} CanSettle(start: Status, steps: seq<Step>, s: Status)
    returns (more: seq<Step>, s': Status)
    requires IsStart(start) && Exec(start, steps) == Some(s)
    ensures (forall step | step in more :: Finishes(step)) && Exec(s, more) == Some(s') && Quiet(s')
    decreases InFlight(s)
  {
    hide Next, Enabled, InFlight, Invariant, Quiet;
    if Quiet(s) {
      more, s' := [], s;
    } else {
      ExecKeepsInvariant(start, steps, s);
      var step := SomethingGoesOn(s);
      FinishingDecreases(s, step);
      var next := Next(s, step);
      OneStep(s, step);
      ExecConcat(start, steps, [step], s);
      var rest;
      rest, s' := CanSettle(start, steps + [step], next);
      more := [step] + rest;
      ExecConcat(s, [step], rest, next);
    }
  }

  lemma OneStep(s: Status, step: Step)
    requires Enabled(s, step)
    ensures Exec(s, [step]) == Some(Next(s, step))
  {
    hide Next, Enabled;
    var steps := [step];
    assert steps[..0] == [];
  }
}
