/**
 * The status writer protocol: threads change a lock-protected map of issues, and every
 * change spawns a writer thread once the previous writer has been joined. Each step is
 * one lock-level action of one thread; steps of all threads interleave freely.
 */
module StatusTracker {
  import opened Wrappers
  import opened StatusText

  type ThreadId = nat
  type WriterId = nat

  /** How far a thread has come in `write_status_file` or `flush`, and which guards it holds. */
  datatype Progress =
    | Idle
    | WantsWrite                                             // holds nothing yet
    | HoldsPath(path: string)                                // read guard on the path
    | HoldsIssues(path: string, content: string)             // and on the issues; report rendered
    | HoldsHandle(path: string, content: string)             // and the mutex on the handle
    | Joining(path: string, content: string, w: WriterId)    // waits for the previous writer
    | ReadyToSpawn(path: string, content: string)
    | Flushing                                               // holds the mutex only
    | FlushJoining(w: WriterId)

  /** A spawned writer writes a temporary file and then renames it over the status file. */
  datatype Writer = Writer(path: string, content: string, stage: Stage)
  datatype Stage = Started | TempWritten | Finished

  datatype Status = Status(
    statusFile: Option<string>,
    issues: Issues,
    handle: Option<WriterId>,
    owner: Option<ThreadId>,             // who holds the mutex on the handle
    threads: map<ThreadId, Progress>,
    writers: seq<Writer>,
    files: map<string, string>,
    spawned: bool)                       // a writer was spawned since the path was set

  datatype Step =
    | SetStatusFile(path: Option<string>)
    | SetIssue(t: ThreadId, key: string, issue: Issue)
    | ClearIssue(t: ThreadId, key: string)
    | ClearPrefix(t: ThreadId, prefix: string)
    | Touch(t: ThreadId)
    | StartFlush(t: ThreadId)
    | Proceed(t: ThreadId)               // the next action inside write_status_file or flush
    | RunWriter(w: WriterId)

  // ---------- guards ----------

  predicate ReadsPath(p: Progress) {
    p.HoldsPath? || ReadsIssues(p)
  }

  predicate ReadsIssues(p: Progress) {
    p.HoldsIssues? || p.HoldsHandle? || p.Joining? || p.ReadyToSpawn?
  }

  predicate OwnsHandle(p: Progress) {
    p.HoldsHandle? || p.Joining? || p.ReadyToSpawn? || p.Flushing? || p.FlushJoining?
  }

  /** No reader keeps the issues from being changed. */
  predicate IssuesFree(s: Status) {
    forall t | t in s.threads :: !ReadsIssues(s.threads[t])
  }

  predicate IsIdle(s: Status, t: ThreadId) {
    t in s.threads && s.threads[t].Idle?
  }

  ghost predicate Enabled(s: Status, step: Step) {
    match step
    case SetStatusFile(_) => forall t | t in s.threads :: !ReadsPath(s.threads[t])
    case SetIssue(t, _, _) => IsIdle(s, t) && IssuesFree(s)
    case ClearIssue(t, _) => IsIdle(s, t) && IssuesFree(s)
    case ClearPrefix(t, _) => IsIdle(s, t) && IssuesFree(s)
    case Touch(t) => IsIdle(s, t)
    case StartFlush(t) => IsIdle(s, t) && s.owner.None?
    case RunWriter(w) => w < |s.writers| && s.writers[w].stage != Finished
    case Proceed(t) =>
      && t in s.threads
      && match s.threads[t]
         case Idle => false
         case HoldsIssues(_, _) => s.owner.None?
         case Joining(_, _, w) => w < |s.writers| && s.writers[w].stage == Finished
         case FlushJoining(w) => w < |s.writers| && s.writers[w].stage == Finished
         case _ => true
  }

  // ---------- steps ----------

  function Move(s: Status, t: ThreadId, p: Progress): Status {
    s.(threads := s.threads[t := p])
  }

  function WithoutPrefix(issues: Issues, prefix: string): Issues {
    map k | k in issues && !(prefix <= k) :: issues[k]
  }

  /** The issues after a removal, which leads to a write only if something was removed. */
  function Removed(s: Status, t: ThreadId, issues: Issues): Status {
    if issues == s.issues then s else Move(s.(issues := issues), t, WantsWrite)
  }

  ghost function Next(s: Status, step: Step): Status
    requires Enabled(s, step)
  {
    match step
    case SetStatusFile(path) => s.(statusFile := path, spawned := false)
    case SetIssue(t, key, issue) => Move(s.(issues := s.issues[key := issue]), t, WantsWrite)
    case ClearIssue(t, key) => Removed(s, t, s.issues - {key})
    case ClearPrefix(t, prefix) => Removed(s, t, WithoutPrefix(s.issues, prefix))
    case Touch(t) => Move(s, t, WantsWrite)
    case StartFlush(t) => Move(s.(owner := Some(t)), t, Flushing)
    case RunWriter(w) =>
      var writer := s.writers[w];
      if writer.stage == Started then s.(writers := s.writers[w := writer.(stage := TempWritten)])
      else s.(writers := s.writers[w := writer.(stage := Finished)], files := s.files[writer.path := writer.content])
    case Proceed(t) => Advance(s, t)
  }

  ghost function Advance(s: Status, t: ThreadId): Status
    requires t in s.threads && Enabled(s, Proceed(t))
  {
    match s.threads[t]
    case WantsWrite => Move(s, t, if s.statusFile.Some? then HoldsPath(s.statusFile.value) else Idle)
    case HoldsPath(path) => Move(s, t, HoldsIssues(path, Rendering(s.issues)))
    case HoldsIssues(path, content) => Move(s.(owner := Some(t)), t, HoldsHandle(path, content))
    case HoldsHandle(path, content) =>
      Move(s.(handle := None), t,
           if s.handle.Some? then Joining(path, content, s.handle.value) else ReadyToSpawn(path, content))
    case Joining(path, content, _) => Move(s, t, ReadyToSpawn(path, content))
    case ReadyToSpawn(path, content) =>
      Move(s.(handle := Some(|s.writers|), owner := None, spawned := true,
              writers := s.writers + [Writer(path, content, Started)]), t, Idle)
    case Flushing =>
      if s.handle.Some? then Move(s.(handle := None), t, FlushJoining(s.handle.value))
      else Move(s.(owner := None), t, Idle)
    case FlushJoining(_) => Move(s.(owner := None), t, Idle)
    case Idle => s
  }

  /** A tracker with idle threads and no writer yet. */
  ghost predicate IsStart(s: Status) {
    && (forall t | t in s.threads :: s.threads[t].Idle?)
    && s.handle.None? && s.owner.None? && s.writers == [] && !s.spawned
  }

  /** `s` is reached from `start` by the steps in order. */
  ghost function Exec(start: Status, steps: seq<Step>): Option<Status> {
    if steps == [] then Some(start)
    else
      match Exec(start, steps[..|steps| - 1])
      case Some(s) => if Enabled(s, steps[|steps| - 1]) then Some(Next(s, steps[|steps| - 1])) else None
      case None => None
  }

  // ---------- the invariant ----------

  ghost predicate Live(s: Status, w: WriterId) {
    w < |s.writers| && s.writers[w].stage != Finished
  }

  /** The thread waits for a writer whose handle it has taken. */
  predicate Waits(p: Progress) {
    p.Joining? || p.FlushJoining?
  }

  predicate WillWrite(p: Progress) {
    p.WantsWrite? || ReadsPath(p)
  }

  /**
   * A thread is in its critical section exactly while it holds the mutex; while its
   * report is in flight, the path and the issues it was rendered from cannot change;
   * and while it joins or is about to spawn, no other handle is stored.
   */
  ghost predicate ThreadOk(s: Status, t: ThreadId)
    requires t in s.threads
  {
    var p := s.threads[t];
    && (OwnsHandle(p) <==> s.owner == Some(t))
    && (ReadsPath(p) ==> s.statusFile == Some(p.path))
    && (ReadsIssues(p) ==> p.content == Rendering(s.issues))
    && (Waits(p) ==> p.w + 1 == |s.writers|)
    && (Waits(p) || p.ReadyToSpawn? ==> s.handle.None?)
  }

  /** Only the newest writer can be live, and then its handle is stored or being waited on. */
  ghost predicate WritersOk(s: Status) {
    && (forall w: WriterId | w + 1 < |s.writers| :: s.writers[w].stage == Finished)
    && (s.handle.Some? ==> s.handle.value + 1 == |s.writers|)
    && (s.owner.Some? ==> s.owner.value in s.threads)
    && (s.writers != [] && Last(s).stage != Finished ==>
          s.handle.Some? || (s.owner.Some? && s.owner.value in s.threads && Waits(s.threads[s.owner.value])))
  }

  ghost function Last(s: Status): Writer
    requires s.writers != []
  {
    s.writers[|s.writers| - 1]
  }

  /** Once the newest writer is done, its report is the content of its file. */
  ghost predicate FilesOk(s: Status) {
    s.writers != [] && Last(s).stage == Finished ==>
      Last(s).path in s.files && s.files[Last(s).path] == Last(s).content
  }

  ghost predicate SomeoneWrites(s: Status) {
    exists t | t in s.threads :: WillWrite(s.threads[t])
  }

  /** The newest report is current, or some thread is still on its way to writing. */
  ghost predicate FreshOk(s: Status) {
    s.spawned ==>
      && s.writers != [] && s.statusFile == Some(Last(s).path)
      && (Last(s).content == Rendering(s.issues) || SomeoneWrites(s))
  }

  ghost predicate Invariant(s: Status) {
    (forall t | t in s.threads :: ThreadOk(s, t)) && WritersOk(s) && FilesOk(s) && FreshOk(s)
  }

  lemma StartOk(s: Status)
    requires IsStart(s)
    ensures Invariant(s)
  {
  }

  // One lemma per kind of step.

  lemma OthersStillWrite(s: Status, s': Status, t: ThreadId)
    requires t in s.threads && t in s'.threads && s'.threads == s.threads[t := s'.threads[t]]
    requires SomeoneWrites(s) && (WillWrite(s.threads[t]) ==> WillWrite(s'.threads[t]))
    ensures SomeoneWrites(s')
  {
    var u :| u in s.threads && WillWrite(s.threads[u]);
    assert u in s'.threads && WillWrite(s'.threads[u]);
  }

  lemma PathChangeKeepsInvariant(s: Status, path: Option<string>)
    requires Invariant(s) && Enabled(s, SetStatusFile(path))
    ensures Invariant(Next(s, SetStatusFile(path)))
  {
    hide Rendering, SomeoneWrites;
    var s' := Next(s, SetStatusFile(path));
    forall u | u in s'.threads ensures ThreadOk(s', u) { assert ThreadOk(s, u); }
  }

  lemma WriteWanted(s: Status, t: ThreadId)
    requires t in s.threads && WillWrite(s.threads[t])
    ensures SomeoneWrites(s)
  {
  }

  lemma IssuesChangeKeepsInvariant(s: Status, issues: Issues, t: ThreadId)
    requires Invariant(s) && IsIdle(s, t) && (issues == s.issues || IssuesFree(s))
    ensures Invariant(Move(s.(issues := issues), t, WantsWrite))
  {
    hide Rendering, SomeoneWrites;
    var s' := Move(s.(issues := issues), t, WantsWrite);
    WriteWanted(s', t);
    forall u | u in s'.threads ensures ThreadOk(s', u) { assert ThreadOk(s, u); }
  }

  lemma ChangeKeepsInvariant(s: Status, step: Step)
    requires Invariant(s) && Enabled(s, step)
    requires step.SetIssue? || step.ClearIssue? || step.ClearPrefix? || step.Touch?
    ensures Invariant(Next(s, step))
  {
    hide Invariant, Move, IssuesFree, IsIdle;
    match step
    case SetIssue(t, key, issue) => IssuesChangeKeepsInvariant(s, s.issues[key := issue], t);
    case ClearIssue(t, key) => IssuesChangeKeepsInvariant(s, s.issues - {key}, t);
    case ClearPrefix(t, prefix) => IssuesChangeKeepsInvariant(s, WithoutPrefix(s.issues, prefix), t);
    case Touch(t) =>
      IssuesChangeKeepsInvariant(s, s.issues, t);
      assert s.(issues := s.issues) == s;
  }

  lemma StartFlushKeepsInvariant(s: Status, t: ThreadId)
    requires Invariant(s) && Enabled(s, StartFlush(t))
    ensures Invariant(Next(s, StartFlush(t)))
  {
    hide Rendering, SomeoneWrites;
    var s' := Next(s, StartFlush(t));
    forall u | u in s'.threads ensures ThreadOk(s', u) { assert ThreadOk(s, u); }
    assert ThreadOk(s, t);
    if SomeoneWrites(s) { OthersStillWrite(s, s', t); }
  }

  lemma WriterKeepsInvariant(s: Status, w: WriterId)
    requires Invariant(s) && Enabled(s, RunWriter(w))
    ensures Invariant(Next(s, RunWriter(w)))
  {
    hide Rendering, SomeoneWrites, Advance, FreshOk, ThreadOk;
    var s' := Next(s, RunWriter(w));
    assert w + 1 == |s.writers|;
    forall u | u in s'.threads ensures ThreadOk(s', u) { SameThreadOk(s, s', u); }
    SameReportStaysFresh(s, s');
  }

  lemma SameThreadOk(s: Status, s': Status, t: ThreadId)
    requires t in s.threads && ThreadOk(s, t) && |s'.writers| == |s.writers|
    requires s' == s.(writers := s'.writers, files := s'.files)
    ensures ThreadOk(s', t)
  {
  }

  lemma SameReportStaysFresh(s: Status, s': Status)
    requires FreshOk(s) && s'.threads == s.threads && s'.issues == s.issues && s'.statusFile == s.statusFile
    requires s'.spawned == s.spawned && |s'.writers| == |s.writers|
    requires s.writers != [] ==> Last(s').path == Last(s).path && Last(s').content == Last(s).content
    ensures FreshOk(s')
  {
    hide Rendering, SomeoneWrites;
    if SomeoneWrites(s) { SameThreads(s, s'); }
  }

  lemma SameThreads(s: Status, s': Status)
    requires s'.threads == s.threads && SomeoneWrites(s)
    ensures SomeoneWrites(s')
  {
  }

  lemma ReadPathKeepsInvariant(s: Status, t: ThreadId)
    requires Invariant(s) && t in s.threads && s.threads[t].WantsWrite? && Enabled(s, Proceed(t))
    ensures Invariant(Next(s, Proceed(t)))
  {
    hide Rendering, SomeoneWrites;
    var s' := Next(s, Proceed(t));
    forall u | u in s'.threads ensures ThreadOk(s', u) { assert ThreadOk(s, u); }
    assert ThreadOk(s, t);
    if s.statusFile.Some? { WriteWanted(s', t); }
  }

  lemma RenderKeepsInvariant(s: Status, t: ThreadId)
    requires Invariant(s) && t in s.threads && s.threads[t].HoldsPath? && Enabled(s, Proceed(t))
    ensures Invariant(Next(s, Proceed(t)))
  {
    hide Rendering, SomeoneWrites;
    var s' := Next(s, Proceed(t));
    forall u | u in s'.threads ensures ThreadOk(s', u) { assert ThreadOk(s, u); }
    assert ThreadOk(s, t);
    WriteWanted(s', t);
  }

  lemma LockKeepsInvariant(s: Status, t: ThreadId)
    requires Invariant(s) && t in s.threads && s.threads[t].HoldsIssues? && Enabled(s, Proceed(t))
    ensures Invariant(Next(s, Proceed(t)))
  {
    hide Rendering, SomeoneWrites;
    var s' := Next(s, Proceed(t));
    forall u | u in s'.threads ensures ThreadOk(s', u) { assert ThreadOk(s, u); }
    assert ThreadOk(s, t);
    WriteWanted(s', t);
  }

  lemma TakeKeepsInvariant(s: Status, t: ThreadId)
    requires Invariant(s) && t in s.threads && s.threads[t].HoldsHandle? && Enabled(s, Proceed(t))
    ensures Invariant(Next(s, Proceed(t)))
  {
    hide Rendering, SomeoneWrites;
    var s' := Next(s, Proceed(t));
    forall u | u in s'.threads ensures ThreadOk(s', u) { assert ThreadOk(s, u); }
    assert ThreadOk(s, t);
    WriteWanted(s', t);
  }

  lemma JoinKeepsInvariant(s: Status, t: ThreadId)
    requires Invariant(s) && t in s.threads && s.threads[t].Joining? && Enabled(s, Proceed(t))
    ensures Invariant(Next(s, Proceed(t)))
  {
    hide Rendering, SomeoneWrites;
    var s' := Next(s, Proceed(t));
    forall u | u in s'.threads ensures ThreadOk(s', u) { assert ThreadOk(s, u); }
    assert ThreadOk(s, t);
    WriteWanted(s', t);
  }

  lemma SpawnKeepsInvariant(s: Status, t: ThreadId)
    requires Invariant(s) && t in s.threads && s.threads[t].ReadyToSpawn? && Enabled(s, Proceed(t))
    ensures Invariant(Next(s, Proceed(t)))
  {
    hide Rendering, SomeoneWrites;
    var s' := Next(s, Proceed(t));
    forall u | u in s'.threads ensures ThreadOk(s', u) { assert ThreadOk(s, u); }
    assert ThreadOk(s, t);
  }

  lemma FlushKeepsReport(s: Status, s': Status, t: ThreadId)
    requires FilesOk(s) && FreshOk(s) && t in s.threads && !WillWrite(s.threads[t])
    requires t in s'.threads && s'.threads == s.threads[t := s'.threads[t]]
    requires s' == s.(threads := s'.threads, handle := s'.handle, owner := s'.owner)
    ensures FilesOk(s') && FreshOk(s')
  {
    hide Rendering, SomeoneWrites;
    if SomeoneWrites(s) { OthersStillWrite(s, s', t); }
  }

  lemma FlushTakesHandle(s: Status, t: ThreadId)
    requires Invariant(s) && t in s.threads && s.threads[t].Flushing? && Enabled(s, Proceed(t))
    ensures Invariant(Next(s, Proceed(t)))
  {
    hide Rendering, SomeoneWrites, FilesOk, FreshOk;
    var s' := Next(s, Proceed(t));
    forall u | u in s'.threads ensures ThreadOk(s', u) { assert ThreadOk(s, u); }
    assert ThreadOk(s, t);
    FlushKeepsReport(s, s', t);
  }

  lemma FlushJoins(s: Status, t: ThreadId)
    requires Invariant(s) && t in s.threads && s.threads[t].FlushJoining? && Enabled(s, Proceed(t))
    ensures Invariant(Next(s, Proceed(t)))
  {
    hide Rendering, SomeoneWrites, FilesOk, FreshOk;
    var s' := Next(s, Proceed(t));
    forall u | u in s'.threads ensures ThreadOk(s', u) { assert ThreadOk(s, u); }
    assert ThreadOk(s, t);
    FlushKeepsReport(s, s', t);
  }

  /** Every step of every thread keeps the invariant. */
  lemma {:induction false} StepKeepsInvariant(s: Status, step: Step)
    requires Invariant(s) && Enabled(s, step)
    ensures Invariant(Next(s, step))
  {
    hide Invariant, Next, Advance;
    match step
    case SetStatusFile(path) => PathChangeKeepsInvariant(s, path);
    case StartFlush(t) => StartFlushKeepsInvariant(s, t);
    case RunWriter(w) => WriterKeepsInvariant(s, w);
    case Proceed(t) =>
      match s.threads[t] {
        case WantsWrite => ReadPathKeepsInvariant(s, t);
        case HoldsPath(_) => RenderKeepsInvariant(s, t);
        case HoldsIssues(_, _) => LockKeepsInvariant(s, t);
        case HoldsHandle(_, _) => TakeKeepsInvariant(s, t);
        case Joining(_, _, _) => JoinKeepsInvariant(s, t);
        case ReadyToSpawn(_, _) => SpawnKeepsInvariant(s, t);
        case Flushing => FlushTakesHandle(s, t);
        case FlushJoining(_) => FlushJoins(s, t);
      }
    case _ => ChangeKeepsInvariant(s, step);
  }

  lemma {:induction false} ExecKeepsInvariant(start: Status, steps: seq<Step>, s: Status)
    requires IsStart(start) && Exec(start, steps) == Some(s)
    ensures Invariant(s)
  {
    hide Invariant, Next, Enabled;
    if steps == [] {
      StartOk(start);
    } else {
      var p := Exec(start, steps[..|steps| - 1]).value;
      ExecKeepsInvariant(start, steps[..|steps| - 1], p);
      StepKeepsInvariant(p, steps[|steps| - 1]);
    }
  }

  // ---------- the main results ----------

  /** In every interleaving, at most one writer thread is live. */
  lemma OneWriterAtATime(start: Status, steps: seq<Step>, s: Status, v: WriterId, w: WriterId)
    requires IsStart(start) && Exec(start, steps) == Some(s)
    requires Live(s, v) && Live(s, w)
    ensures v == w
  {
    ExecKeepsInvariant(start, steps, s);
  }

  /** No operation is in flight and the newest writer is done. */
  ghost predicate Quiet(s: Status) {
    && (forall t | t in s.threads :: s.threads[t].Idle?)
    && (s.writers != [] ==> Last(s).stage == Finished)
  }

  /**
   * Whatever the interleaving: once nothing is in flight, and a writer was spawned since
   * the path was set, the status file holds the report of the current issues, and the
   * status query reads the gravity of the gravest of them.
   */
  lemma {:induction false} QuietFileIsCurrent(start: Status, steps: seq<Step>, s: Status)
    requires IsStart(start) && Exec(start, steps) == Some(s)
    ensures Quiet(s) && s.spawned ==>
              && s.statusFile.Some? && s.statusFile.value in s.files
              && s.files[s.statusFile.value] == Rendering(s.issues)
              && ExitCode(s.files[s.statusFile.value]) == Rank(MaxLevel(s.issues))
  {
    ExecKeepsInvariant(start, steps, s);
    QueryReadsLevel(s.issues);
    hide Rendering, ExitCode;
  }

  /** When a flush returns, no writer is live. */
  lemma FlushWaitsForWriter(start: Status, steps: seq<Step>, s: Status, t: ThreadId, w: WriterId)
    requires IsStart(start) && Exec(start, steps) == Some(s)
    requires t in s.threads && (s.threads[t].Flushing? || s.threads[t].FlushJoining?)
    requires Enabled(s, Proceed(t)) && Next(s, Proceed(t)).threads[t].Idle?
    ensures !Live(Next(s, Proceed(t)), w)
  {
    ExecKeepsInvariant(start, steps, s);
    hide Rendering, SomeoneWrites;
    assert ThreadOk(s, t);
  }

  // ---------- which issues are active ----------

  ghost predicate Sets(step: Step, key: string, issue: Issue) {
    step.SetIssue? && step.key == key && step.issue == issue
  }

  /** The step sets the issue under the key, or clears it by its key or by a prefix of it. */
  ghost predicate Touches(step: Step, key: string) {
    || (step.SetIssue? && step.key == key)
    || (step.ClearIssue? && step.key == key)
    || (step.ClearPrefix? && exists rest :: key == step.prefix + rest)
  }

  ghost predicate LastSets(steps: seq<Step>, key: string, issue: Issue) {
    exists i: nat :: i < |steps| && Sets(steps[i], key, issue)
                     && forall j: nat | i < j < |steps| :: !Touches(steps[j], key)
  }

  ghost predicate Untouched(steps: seq<Step>, key: string) {
    forall i: nat | i < |steps| :: !Touches(steps[i], key)
  }

  ghost predicate Active(issues: Issues, key: string, issue: Issue) {
    key in issues && issues[key] == issue
  }

  lemma IssueAfterStep(s: Status, step: Step, key: string, issue: Issue)
    requires Enabled(s, step)
    ensures Active(Next(s, step).issues, key, issue) <==>
            Sets(step, key, issue) || (Active(s.issues, key, issue) && !Touches(step, key))
  {
    hide Rendering;
    if step.ClearPrefix? && step.prefix <= key {
      assert key == step.prefix + key[|step.prefix|..];
    }
  }

  lemma LastTouchNext(steps: seq<Step>, step: Step, key: string, issue: Issue)
    ensures LastSets(steps + [step], key, issue) <==>
            Sets(step, key, issue) || (LastSets(steps, key, issue) && !Touches(step, key))
    ensures Untouched(steps + [step], key) <==> Untouched(steps, key) && !Touches(step, key)
  {
    hide Touches;
    var all := steps + [step];
    assert forall i: nat | i < |steps| :: all[i] == steps[i];
    assert all[|steps|] == step;
    if LastSets(all, key, issue) && !Sets(step, key, issue) {
      var i: nat :| i < |all| && Sets(all[i], key, issue) && forall j: nat | i < j < |all| :: !Touches(all[j], key);
      assert Sets(steps[i], key, issue);
    }
    if LastSets(steps, key, issue) && !Touches(step, key) {
      var i: nat :| i < |steps| && Sets(steps[i], key, issue)
                    && forall j: nat | i < j < |steps| :: !Touches(steps[j], key);
      assert Sets(all[i], key, issue);
    }
    if Untouched(all, key) {
      assert forall i: nat | i < |steps| :: !Touches(all[i], key);
    }
  }

  /**
   * After any interleaving an issue is active under a key exactly when the last step that
   * touched the key set it, or when no step touched the key and it was active at the start.
   */
  lemma {:induction false} IssueIsLastTouch(start: Status, steps: seq<Step>, s: Status, key: string, issue: Issue)
    requires Exec(start, steps) == Some(s)
    ensures Active(s.issues, key, issue) <==>
            LastSets(steps, key, issue) || (Untouched(steps, key) && Active(start.issues, key, issue))
  {
    hide Next, Enabled, Touches, Sets, Active;
    if steps != [] {
      var k := |steps| - 1;
      var p := Exec(start, steps[..k]).value;
      IssueIsLastTouch(start, steps[..k], p, key, issue);
      IssueAfterStep(p, steps[k], key, issue);
      LastTouchNext(steps[..k], steps[k], key, issue);
      assert steps[..k] + [steps[k]] == steps;
      SetTouches(steps[k], key, issue);
      hide LastSets, Untouched;
    }
  }

  /** Setting an issue and touching always lead to a write, a removal exactly when there was something to remove. */
  lemma {:induction false} WriteFollowsIff(s: Status, step: Step)
    requires Enabled(s, step) && (step.SetIssue? || step.ClearIssue? || step.ClearPrefix? || step.Touch?)
    ensures Next(s, step).threads[step.t].WantsWrite? <==>
              && (step.ClearIssue? ==> step.key in s.issues)
              && (step.ClearPrefix? ==> exists k, rest :: k in s.issues && k == step.prefix + rest)
  {
    hide Rendering;
    if step.ClearPrefix? {
      var kept := WithoutPrefix(s.issues, step.prefix);
      RetainedKeys(s.issues, step.prefix);
      if exists k, rest :: k in s.issues && k == step.prefix + rest {
        var k, rest :| k in s.issues && k == step.prefix + rest;
        assert k !in kept;
      } else {
        assert kept == s.issues;
      }
    }
    if step.ClearIssue? {
      assert step.key !in s.issues - {step.key};
      assert step.key !in s.issues ==> s.issues - {step.key} == s.issues;
    }
  }

  lemma SetTouches(step: Step, key: string, issue: Issue)
    ensures Sets(step, key, issue) ==> Touches(step, key)
  {
  }

  // ---------- the tracker as a program ----------

  /** The shared fields, with the threads and writers that act on them. Every method is one lock-level action. */
  class Tracker {
    var statusFile: Option<string>
    var activeIssues: Issues
    var lastWriteThread: Option<WriterId>
    var mutexOwner: Option<ThreadId>
    var threads: map<ThreadId, Progress>
    var writers: seq<Writer>
    var files: map<string, string>
    ghost var spawned: bool

    ghost function State(): Status
      reads this
    {
      Status(statusFile, activeIssues, lastWriteThread, mutexOwner, threads, writers, files, spawned)
    }

    constructor (ids: set<ThreadId>)
      ensures IsStart(State()) && State().threads.Keys == ids && activeIssues == map[] && statusFile.None?
    {
      statusFile, activeIssues, lastWriteThread, mutexOwner := None, map[], None, None;
      threads := map t | t in ids :: Idle;
      writers, files, spawned := [], map[], false;
    }

    method SetPath(path: Option<string>)
      requires Invariant(State()) && Enabled(State(), SetStatusFile(path))
      modifies this
      ensures Invariant(State()) && State() == Next(old(State()), SetStatusFile(path))
    {
      StepKeepsInvariant(State(), SetStatusFile(path));
      statusFile := path;
      spawned := false;
    }

    method InsertIssue(t: ThreadId, key: string, issue: Issue)
      requires Invariant(State()) && Enabled(State(), SetIssue(t, key, issue))
      modifies this
      ensures Invariant(State()) && State() == Next(old(State()), SetIssue(t, key, issue))
    {
      StepKeepsInvariant(State(), SetIssue(t, key, issue));
      activeIssues := activeIssues[key := issue];
      threads := threads[t := WantsWrite];
    }

    method RemoveIssue(t: ThreadId, key: string)
      requires Invariant(State()) && Enabled(State(), ClearIssue(t, key))
      modifies this
      ensures Invariant(State()) && State() == Next(old(State()), ClearIssue(t, key))
    {
      StepKeepsInvariant(State(), ClearIssue(t, key));
      var changed := key in activeIssues;
      assert !changed ==> activeIssues - {key} == activeIssues;
      activeIssues := activeIssues - {key};
      if changed {
        threads := threads[t := WantsWrite];
      }
    }

    method RemoveIssuesWithPrefix(t: ThreadId, prefix: string)
      requires Invariant(State()) && Enabled(State(), ClearPrefix(t, prefix))
      modifies this
      ensures Invariant(State()) && State() == Next(old(State()), ClearPrefix(t, prefix))
      ensures forall k :: k in activeIssues <==> k in old(activeIssues) && !exists rest :: k == prefix + rest
      ensures forall k | k in activeIssues :: activeIssues[k] == old(activeIssues)[k]
    {
      StepKeepsInvariant(State(), ClearPrefix(t, prefix));
      var before := |activeIssues|;
      RetainedSize(activeIssues, prefix);
      RetainedKeys(activeIssues, prefix);
      activeIssues := WithoutPrefix(activeIssues, prefix);
      if |activeIssues| != before {
        threads := threads[t := WantsWrite];
      }
    }

    method RequestWrite(t: ThreadId)
      requires Invariant(State()) && Enabled(State(), Touch(t))
      modifies this
      ensures Invariant(State()) && State() == Next(old(State()), Touch(t))
    {
      StepKeepsInvariant(State(), Touch(t));
      threads := threads[t := WantsWrite];
    }

    method LockForFlush(t: ThreadId)
      requires Invariant(State()) && Enabled(State(), StartFlush(t))
      modifies this
      ensures Invariant(State()) && State() == Next(old(State()), StartFlush(t))
    {
      StepKeepsInvariant(State(), StartFlush(t));
      mutexOwner := Some(t);
      threads := threads[t := Flushing];
    }

    /** The next action of a thread inside `write_status_file`. */
    method ContinueWrite(t: ThreadId)
      requires Invariant(State()) && Enabled(State(), Proceed(t)) && WillWrite(threads[t])
      modifies this
      ensures Invariant(State()) && State() == Next(old(State()), Proceed(t))
    {
      StepKeepsInvariant(State(), Proceed(t));
      assert t in threads;
      hide Invariant, Rendering, Enabled;
      var next: Progress := Idle;
      match threads[t] {
        case WantsWrite =>
          if statusFile.Some? {
            next := HoldsPath(statusFile.value);
          }
        case HoldsPath(path) =>
          var content := Render(activeIssues);
          next := HoldsIssues(path, content);
        case HoldsIssues(path, content) =>
          mutexOwner := Some(t);
          next := HoldsHandle(path, content);
        case HoldsHandle(path, content) =>
          next := if lastWriteThread.Some? then Joining(path, content, lastWriteThread.value)
                  else ReadyToSpawn(path, content);
          lastWriteThread := None;
        case Joining(path, content, _) =>
          next := ReadyToSpawn(path, content);
        case ReadyToSpawn(path, content) =>
          lastWriteThread, mutexOwner, spawned := Some(|writers|), None, true;
          writers := writers + [Writer(path, content, Started)];
      }
      threads := threads[t := next];
    }

    /** The next action of a thread inside `flush`. */
    method ContinueFlush(t: ThreadId)
      requires Invariant(State()) && Enabled(State(), Proceed(t))
      requires threads[t].Flushing? || threads[t].FlushJoining?
      modifies this
      ensures Invariant(State()) && State() == Next(old(State()), Proceed(t))
    {
      StepKeepsInvariant(State(), Proceed(t));
      assert t in threads;
      hide Invariant, Enabled;
      if threads[t].Flushing? && lastWriteThread.Some? {
        threads := threads[t := FlushJoining(lastWriteThread.value)];
        lastWriteThread := None;
      } else {
        mutexOwner := None;
        threads := threads[t := Idle];
      }
    }

    /** The next action of a writer: the temporary file, then the rename. */
    method ContinueWriter(w: WriterId)
      requires Invariant(State()) && Enabled(State(), RunWriter(w))
      modifies this
      ensures Invariant(State()) && State() == Next(old(State()), RunWriter(w))
    {
      StepKeepsInvariant(State(), RunWriter(w));
      hide Invariant;
      var writer := writers[w];
      if writer.stage == Started {
        writers := writers[w := writer.(stage := TempWritten)];
      } else {
        writers := writers[w := writer.(stage := Finished)];
        files := files[writer.path := writer.content];
      }
    }
  }

  /** What remains are the entries whose keys do not start with the prefix. */
  lemma RetainedKeys(issues: Issues, prefix: string)
    ensures forall k :: k in WithoutPrefix(issues, prefix) <==> k in issues && !exists rest :: k == prefix + rest
    ensures forall k | k in WithoutPrefix(issues, prefix) :: WithoutPrefix(issues, prefix)[k] == issues[k]
  {
    forall k | k in issues ensures prefix <= k <==> exists rest :: k == prefix + rest {
      if prefix <= k { assert k == prefix + k[|prefix|..]; }
    }
  }

  /** Fewer entries remain exactly when some key had the prefix. */
  lemma RetainedSize(issues: Issues, prefix: string)
    ensures |WithoutPrefix(issues, prefix)| == |issues| <==> WithoutPrefix(issues, prefix) == issues
  {
    var kept := WithoutPrefix(issues, prefix);
    assert kept.Keys <= issues.Keys;
    if kept.Keys == issues.Keys {
      assert kept == issues;
    } else {
      assert !(issues.Keys <= kept.Keys);
      var k :| k in issues.Keys && k !in kept.Keys;
      SubsetSize(kept.Keys, issues.Keys - {k});
      assert |kept.Keys| < |issues.Keys|;
      assert |kept| == |kept.Keys| && |issues| == |issues.Keys|;
    }
  }

  lemma {:induction false} SubsetSize(a: set<string>, b: set<string>)
    requires a <= b
    ensures |a| <= |b|
  {
    if a != {} {
      var x :| x in a;
      SubsetSize(a - {x}, b - {x});
    }
  }
}
