/** The one-line status report: how it is rendered and how the status query reads it back. */
module StatusText {
  import opened Text

  datatype Level = Ok | Warning | Critical

  datatype Issue = Issue(level: Level, message: string)

  type Issues = map<string, Issue>

  function LevelName(l: Level): string {
    match l
    case Ok => "OK"
    case Warning => "WARNING"
    case Critical => "CRITICAL"
  }

  function Rank(l: Level): nat {
    match l
    case Ok => 0
    case Warning => 1
    case Critical => 2
  }

  // ---------- what is reported ----------

  /** The gravest level among the issues. */
  ghost function MaxLevel(issues: Issues): (l: Level)
    ensures forall k | k in issues :: Rank(issues[k].level) <= Rank(l)
    ensures issues != map[] ==> exists k | k in issues :: issues[k].level == l
  {
    if exists k | k in issues :: issues[k].level == Critical then Critical
    else if exists k | k in issues :: issues[k].level == Warning then Warning
    else
      assert issues != map[] ==> exists k :: k in issues;
      assert forall k | k in issues :: issues[k].level == Ok;
      Ok
  }

  ghost function MessageIf(issues: Issues, k: string, l: Level): multiset<string>
    requires k in issues
  {
    if issues[k].level == l then multiset{issues[k].message} else multiset{}
  }

  ghost function Pick(keys: set<string>): (k: string)
    requires keys != {}
    ensures k in keys
  {
    var k :| k in keys;
    k
  }

  /** The messages of the issues of one level under the given keys, with repetitions. */
  ghost function MessagesIn(issues: Issues, keys: set<string>, l: Level): multiset<string>
    requires keys <= issues.Keys
    decreases keys
  {
    if keys == {} then multiset{}
    else MessageIf(issues, Pick(keys), l) + MessagesIn(issues, keys - {Pick(keys)}, l)
  }

  ghost function MessagesAt(issues: Issues, l: Level): multiset<string> {
    MessagesIn(issues, issues.Keys, l)
  }

  /** Any issue can be taken out first. */
  lemma {:induction false} MessagesWithout(issues: Issues, keys: set<string>, k: string, l: Level)
    requires keys <= issues.Keys && k in keys
    ensures MessagesIn(issues, keys, l) == MessageIf(issues, k, l) + MessagesIn(issues, keys - {k}, l)
    decreases keys
  {
    hide MessageIf;
    var j := Pick(keys);
    if j != k {
      MessagesWithout(issues, keys - {j}, k, l);
      MessagesWithout(issues, keys - {k}, j, l);
      assert keys - {j} - {k} == keys - {k} - {j};
    }
  }

  ghost predicate IsListing(l: seq<string>, ms: multiset<string>) {
    multiset(l) == ms
  }

  /** The sorted listing of a multiset of messages. */
  ghost function SortedMessages(ms: multiset<string>): (r: seq<string>)
    ensures Sorted(r) && multiset(r) == ms
  {
    ListingExists(ms);
    var l :| IsListing(l, ms);
    SortCorrect(l);
    Sort(l)
  }

  lemma {:induction false} ListingExists(ms: multiset<string>)
    ensures exists l :: IsListing(l, ms)
    decreases |ms|
  {
    if ms == multiset{} {
      assert IsListing([], ms);
    } else {
      var x :| x in ms;
      ListingExists(ms - multiset{x});
      var l :| IsListing(l, ms - multiset{x});
      assert IsListing(l + [x], ms);
    }
  }

  ghost function Rendering(issues: Issues): string {
    if issues == map[] then "OK - Daemon is running normally\n"
    else
      var l := MaxLevel(issues);
      LevelName(l) + " - " + Join(SortedMessages(MessagesAt(issues, l)), "; ") + "\n"
  }

  // ---------- the aggregation of the source ----------

  /** Visits the issues in an arbitrary order; the report does not depend on it. */
  method Render(issues: Issues) returns (content: string)
    ensures content == Rendering(issues)
    ensures issues == map[] ==> content == "OK - Daemon is running normally\n"
  {
    if issues == map[] {
      content := LevelName(Ok) + " - " + "Daemon is running normally" + "\n";
      assert "OK" + " - " == "OK - ";
      assert "OK - " + "Daemon is running normally" == "OK - Daemon is running normally";
      assert "OK - Daemon is running normally" + "\n" == "OK - Daemon is running normally\n";
      return;
    }
    var maxLevel := FindMaxLevel(issues);
    var msgs := CollectMessages(issues, maxLevel);
    SortCorrect(msgs);
    SortedUnique(Sort(msgs), SortedMessages(MessagesAt(issues, maxLevel)));
    content := LevelName(maxLevel) + " - " + Join(Sort(msgs), "; ") + "\n";
  }

  method CollectMessages(issues: Issues, maxLevel: Level) returns (msgs: seq<string>)
    ensures multiset(msgs) == MessagesAt(issues, maxLevel)
  {
    hide MessagesIn, MessagesAt;
    msgs := [];
    NoMessages(issues, maxLevel);
    AllMessages(issues, maxLevel);
    var rest := issues.Keys;
    while rest != {}
      invariant rest <= issues.Keys
      invariant multiset(msgs) + MessagesIn(issues, rest, maxLevel) == MessagesAt(issues, maxLevel)
      decreases rest
    {
      var k :| k in rest;
      MessagesWithout(issues, rest, k, maxLevel);
      ghost var before := msgs;
      if issues[k].level == maxLevel {
        msgs := msgs + [issues[k].message];
      }
      MessageCollected(issues, k, maxLevel, before, msgs);
      hide MessageIf;
      rest := rest - {k};
    }
  }

  lemma MessageCollected(issues: Issues, k: string, l: Level, before: seq<string>, after: seq<string>)
    requires k in issues && after == if issues[k].level == l then before + [issues[k].message] else before
    ensures multiset(after) == multiset(before) + MessageIf(issues, k, l)
  {
  }

  lemma AllMessages(issues: Issues, l: Level)
    ensures MessagesIn(issues, issues.Keys, l) == MessagesAt(issues, l)
  {
  }

  lemma NoMessages(issues: Issues, l: Level)
    ensures MessagesIn(issues, {}, l) == multiset{}
  {
  }

  method FindMaxLevel(issues: Issues) returns (l: Level)
    requires issues != map[]
    ensures l == MaxLevel(issues)
  {
    l := Ok;
    var rest := issues.Keys;
    while rest != {}
      invariant rest <= issues.Keys
      invariant forall k | k in issues && k !in rest :: Rank(issues[k].level) <= Rank(l)
      invariant l == Ok || exists k | k in issues :: issues[k].level == l
      decreases rest
    {
      var k :| k in rest;
      if Rank(issues[k].level) > Rank(l) {
        l := issues[k].level;
      }
      rest := rest - {k};
    }
  }

  /** Each message is collected once for every issue of that level that carries it. */
  lemma {:induction false} MessageCount(issues: Issues, keys: set<string>, l: Level, message: string)
    requires keys <= issues.Keys
    ensures MessagesIn(issues, keys, l)[message]
         == |set k | k in keys && issues[k] == Issue(l, message)|
    decreases keys
  {
    var carriers := set k | k in keys && issues[k] == Issue(l, message);
    if keys != {} {
      var k := Pick(keys);
      MessageCount(issues, keys - {k}, l, message);
      var others := set j | j in keys - {k} && issues[j] == Issue(l, message);
      if issues[k] == Issue(l, message) {
        assert carriers == others + {k};
      } else {
        assert carriers == others;
      }
    }
  }

  /**
   * Where no message of the gravest level contains a semicolon, the report splits into
   * exactly those messages, in ascending order and with repetitions.
   */
  lemma {:induction false} ReportSplits(issues: Issues) returns (body: string)
    requires issues != map[]
    requires forall k | k in issues && issues[k].level == MaxLevel(issues) :: ';' !in issues[k].message
    ensures Rendering(issues) == LevelName(MaxLevel(issues)) + " - " + body + "\n"
    ensures Sorted(Split(body, "; "))
    ensures forall m :: multiset(Split(body, "; "))[m]
                     == |set k | k in issues && issues[k] == Issue(MaxLevel(issues), m)|
  {
    var l := MaxLevel(issues);
    var ms := MessagesAt(issues, l);
    var msgs := SortedMessages(ms);
    body := Join(msgs, "; ");
    forall m ensures ms[m] == |set k | k in issues && issues[k] == Issue(l, m)| {
      MessageCount(issues, issues.Keys, l, m);
      assert (set k | k in issues.Keys && issues[k] == Issue(l, m)) == set k | k in issues && issues[k] == Issue(l, m);
    }
    forall m | m in msgs ensures ';' !in m {
      assert m in multiset(msgs) && ms[m] > 0;
      assert |set k | k in issues && issues[k] == Issue(l, m)| > 0;
      var k :| k in (set k | k in issues && issues[k] == Issue(l, m));
    }
    var k :| k in issues && issues[k].level == l;
    var m := issues[k].message;
    var carriers := set j | j in issues && issues[j] == Issue(l, m);
    assert k in carriers && ms[m] == |carriers| > 0;
    assert |msgs| == |ms| > 0;
    SplitJoin(msgs, "; ", 0);
  }

  // ---------- the status query ----------

  /** The exit code of a status query, from the content of the status file. */
  function ExitCode(content: string): nat {
    var trimmed := Trim(content);
    if trimmed == "" then 3
    else if "OK -" <= trimmed then 0
    else if "WARNING -" <= trimmed then 1
    else if "CRITICAL -" <= trimmed then 2
    else 3
  }

  lemma DifferentStart(a: string, b: string, t: string)
    requires a <= t && a != "" && b != "" && a[0] != b[0]
    ensures !(b <= t)
  {
    assert t[0] == a[0];
  }

  lemma ExitCodeOfReport(l: Level, rest: string)
    ensures ExitCode(LevelName(l) + " -" + rest) == Rank(l)
  {
    hide Trim;
    var pre := LevelName(l) + " -";
    var t := Trim(pre + rest);
    TrimKeepsPrefix(pre, rest);
    match l
    case Ok => assert pre == "OK -";
    case Warning =>
      assert pre == "WARNING -";
      DifferentStart("WARNING -", "OK -", t);
    case Critical =>
      assert pre == "CRITICAL -";
      DifferentStart("CRITICAL -", "OK -", t);
      DifferentStart("CRITICAL -", "WARNING -", t);
  }

  /** A status file is understood exactly when it starts, after white space, like a report, and then as that level. */
  lemma {:induction false} ExitCodeIff(content: string, l: Level)
    ensures ExitCode(content) == Rank(l) <==> exists rest :: StandsIn(LevelName(l) + " -" + rest, content)
    ensures ExitCode(content) <= 3
  {
    hide StandsIn, Trim;
    var t, start := Trim(content), LevelName(l) + " -";
    TrimIff(content, t);
    if exists rest :: StandsIn(start + rest, content) {
      var rest :| StandsIn(start + rest, content);
      TrimIff(content, start + rest);
      TrimIff(start + rest, start + rest);
      StandsAlone(start + rest, content);
      ExitCodeOfReport(l, rest);
      assert ExitCode(content) == ExitCode(start + rest);
    }
    if ExitCode(content) == Rank(l) {
      assert start <= t;
      assert t == start + t[|start|..];
      assert StandsIn(start + t[|start|..], content);
    }
  }

  lemma StandsAlone(t: string, s: string)
    requires StandsIn(t, s)
    ensures StandsIn(t, t)
  {
    assert t == "" + t + "" && Blank("");
  }

  /** Reading back a report gives the gravity of the gravest issue, whatever the messages contain. */
  lemma QueryReadsLevel(issues: Issues)
    ensures ExitCode(Rendering(issues)) == Rank(MaxLevel(issues))
  {
    hide ExitCode;
    if issues == map[] {
      var rest := " Daemon is running normally\n";
      ExitCodeOfReport(Ok, rest);
      assert Rendering(issues) == "OK" + " -" + rest;
    } else {
      var l := MaxLevel(issues);
      var body := Join(SortedMessages(MessagesAt(issues, l)), "; ");
      ExitCodeOfReport(l, " " + body + "\n");
      Spaced(LevelName(l), body);
    }
  }

  lemma Spaced(name: string, body: string)
    ensures name + " -" + (" " + body + "\n") == name + " - " + body + "\n"
  {
  }
}
