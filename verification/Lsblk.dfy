/**
 * The second way of finding the multipath devices below each device: one walk over the
 * forest that lsblk prints, in which a device appears under every device it is built on.
 */
module Lsblk {
  import opened Wrappers

  datatype LsblkDevice = LsblkDevice(name: string, deviceType: string, children: Children)

  /** The optional list of children. */
  datatype Children = Absent | Listed(devices: seq<LsblkDevice>)

  type MpathMap = map<string, set<string>>

  ghost predicate HasPair(m: MpathMap, n: string, p: string) {
    n in m && p in m[n]
  }

  function NextMpath(dev: LsblkDevice, current: Option<string>): Option<string> {
    if dev.deviceType == "mpath" then Some(dev.name) else current
  }

  // ---------- the reference: lines of descent ----------

  /** `c` runs from a device of the forest down to one of its descendants. */
  ghost predicate Lineage(devs: seq<LsblkDevice>, c: seq<LsblkDevice>) {
    && c != [] && c[0] in devs
    && forall i | 0 < i < |c| :: IsChild(c[i - 1], c[i])
  }

  ghost predicate IsChild(parent: LsblkDevice, child: LsblkDevice) {
    parent.children.Listed? && child in parent.children.devices
  }

  /** The mpath device at or closest above the end of the line, `above` if the line has none. */
  ghost function Innermost(c: seq<LsblkDevice>, above: Option<string>): Option<string> {
    if c == [] then above
    else NextMpath(c[|c| - 1], Innermost(c[..|c| - 1], above))
  }

  /** Some occurrence of the name `n` has `p` as its innermost mpath. */
  ghost predicate Tagged(devs: seq<LsblkDevice>, above: Option<string>, n: string, p: string) {
    exists c :: TaggedBy(c, devs, above, n, p)
  }

  ghost predicate TaggedBelow(d: LsblkDevice, above: Option<string>, n: string, p: string) {
    || (d.name == n && NextMpath(d, above) == Some(p))
    || (d.children.Listed? && Tagged(d.children.devices, NextMpath(d, above), n, p))
  }

  lemma {:induction false} InnermostTail(d: LsblkDevice, c: seq<LsblkDevice>, above: Option<string>)
    ensures Innermost([d] + c, above) == Innermost(c, NextMpath(d, above))
  {
    var e := [d] + c;
    if c == [] {
      assert e[..|e| - 1] == [];
    } else {
      InnermostTail(d, c[..|c| - 1], above);
      assert e[..|e| - 1] == [d] + c[..|c| - 1];
    }
  }

  /** A line of descent is its first device followed by a line among that device's children. */
  lemma LineageUnfold(devs: seq<LsblkDevice>, d: LsblkDevice, rest: seq<LsblkDevice>)
    ensures Lineage(devs, [d] + rest) <==>
            d in devs && (rest == [] || (d.children.Listed? && Lineage(d.children.devices, rest)))
  {
    var c := [d] + rest;
    if Lineage(devs, c) && rest != [] {
      assert IsChild(c[0], c[1]);
      forall i | 0 < i < |rest| ensures IsChild(rest[i - 1], rest[i]) {
        assert IsChild(c[i], c[i + 1]);
      }
    }
  }

  ghost predicate TaggedBy(c: seq<LsblkDevice>, devs: seq<LsblkDevice>, above: Option<string>, n: string, p: string) {
    Lineage(devs, c) && c[|c| - 1].name == n && Innermost(c, above) == Some(p)
  }

  lemma TaggedByUnfold(d: LsblkDevice, rest: seq<LsblkDevice>, devs: seq<LsblkDevice>, above: Option<string>,
                       n: string, p: string)
    ensures TaggedBy([d] + rest, devs, above, n, p) <==>
            && d in devs
            && if rest == [] then d.name == n && NextMpath(d, above) == Some(p)
               else d.children.Listed? && TaggedBy(rest, d.children.devices, NextMpath(d, above), n, p)
  {
    LineageUnfold(devs, d, rest);
    InnermostTail(d, rest, above);
  }

  lemma TaggedUnfold(devs: seq<LsblkDevice>, above: Option<string>, n: string, p: string)
    ensures Tagged(devs, above, n, p) <==> Below(devs, above, n, p)
  {
    if Tagged(devs, above, n, p) {
      var c :| TaggedBy(c, devs, above, n, p);
      assert c == [c[0]] + c[1..];
      TaggedByUnfold(c[0], c[1..], devs, above, n, p);
      assert TaggedBelow(c[0], above, n, p);
    }
    if Below(devs, above, n, p) {
      var d :| d in devs && TaggedBelow(d, above, n, p);
      if d.name == n && NextMpath(d, above) == Some(p) {
        TaggedByUnfold(d, [], devs, above, n, p);
      } else {
        var rest :| TaggedBy(rest, d.children.devices, NextMpath(d, above), n, p);
        TaggedByUnfold(d, rest, devs, above, n, p);
      }
    }
  }

  ghost predicate Below(devs: seq<LsblkDevice>, above: Option<string>, n: string, p: string) {
    exists d | d in devs :: TaggedBelow(d, above, n, p)
  }

  // ---------- termination measure ----------

  ghost function ForestSize(devs: seq<LsblkDevice>): nat {
    if devs == [] then 0
    else
      1 + (if devs[0].children.Listed? then 1 + ForestSize(devs[0].children.devices) else 0) + ForestSize(devs[1..])
  }

  type Frame = (seq<LsblkDevice>, Option<string>)

  ghost function StackSize(stack: seq<Frame>): nat {
    if stack == [] then 0 else StackSize(stack[..|stack| - 1]) + 1 + ForestSize(stack[|stack| - 1].0)
  }

  // ---------- the walk ----------

  ghost predicate Pending(stack: seq<Frame>, n: string, p: string) {
    exists k | 0 <= k < |stack| :: Tagged(stack[k].0, stack[k].1, n, p)
  }

  function AddPair(m: MpathMap, n: string, p: string): MpathMap {
    m[n := (if n in m then m[n] else {}) + {p}]
  }

  /** The pair is recorded already or will be by what is still on the stack. */
  ghost predicate Covered(m: MpathMap, stack: seq<Frame>, n: string, p: string) {
    HasPair(m, n, p) || Pending(stack, n, p)
  }

  /**
   * The explicit-stack walk: it adds to each name exactly the innermost mpath at or
   * above each occurrence of that name, and creates no entry without one.
   */
  method BuildMpathMap(devices: seq<LsblkDevice>, m0: MpathMap) returns (m: MpathMap)
    ensures forall n, p :: HasPair(m, n, p) <==> HasPair(m0, n, p) || Tagged(devices, None, n, p)
    ensures forall n :: n in m <==> n in m0 || exists p :: Tagged(devices, None, n, p)
  {
    m := m0;
    var stack: seq<Frame> := [(devices, None)];
    forall n, p ensures Covered(m, stack, n, p) <==> HasPair(m0, n, p) || Tagged(devices, None, n, p) {
      PendingPush([], (devices, None), n, p);
    }
    while stack != []
      invariant forall n, p :: Covered(m, stack, n, p) <==> HasPair(m0, n, p) || Tagged(devices, None, n, p)
      invariant m0.Keys <= m.Keys && forall n | n in m && n !in m0 :: m[n] != {}
      decreases StackSize(stack)
    {
      ghost var whole := stack;
      var (devs, current) := stack[|stack| - 1];
      stack := stack[..|stack| - 1];
      forall n, p
        ensures Pending(whole, n, p) <==> Pending(stack, n, p) || Tagged(devs, current, n, p)
      {
        assert whole == stack + [(devs, current)];
        PendingPush(stack, (devs, current), n, p);
      }
      m, stack := VisitLevel(devs, current, m, stack);
    }
    forall n, p ensures HasPair(m, n, p) <==> HasPair(m0, n, p) || Tagged(devices, None, n, p) {
      assert Covered(m, stack, n, p) == HasPair(m, n, p);
    }
    forall n ensures n in m <==> n in m0 || exists p :: Tagged(devices, None, n, p) {
      if n in m && n !in m0 {
        var p :| p in m[n];
        assert HasPair(m, n, p);
      }
    }
  }

  /** The inner loop: one list of siblings, whose children go onto the stack. */
  method VisitLevel(devs: seq<LsblkDevice>, current: Option<string>, m0: MpathMap, stack0: seq<Frame>)
    returns (m: MpathMap, stack: seq<Frame>)
    ensures forall n, p :: Covered(m, stack, n, p) <==> Covered(m0, stack0, n, p) || Tagged(devs, current, n, p)
    ensures m0.Keys <= m.Keys && forall n | n in m && n !in m0 :: m[n] != {}
    ensures forall n | n in m0 :: m0[n] <= m[n]
    ensures StackSize(stack) <= StackSize(stack0) + ForestSize(devs)
  {
    m, stack := m0, stack0;
    assert devs[..0] == [] && devs[0..] == devs;
    for i := 0 to |devs|
      invariant forall n, p :: Covered(m, stack, n, p) <==> Covered(m0, stack0, n, p) || Below(devs[..i], current, n, p)
      invariant m0.Keys <= m.Keys && forall n | n in m && n !in m0 :: m[n] != {}
      invariant forall n | n in m0 :: m0[n] <= m[n]
      invariant StackSize(stack) + ForestSize(devs[i..]) <= StackSize(stack0) + ForestSize(devs)
    {
      var dev := devs[i];
      assert devs[i..][0] == dev && devs[i..][1..] == devs[i + 1..];
      ghost var m1, stack1 := m, stack;
      var nextMpath := NextMpath(dev, current);
      if nextMpath.Some? {
        m := AddPair(m, dev.name, nextMpath.value);
      }
      if dev.children.Listed? {
        stack := stack + [(dev.children.devices, nextMpath)];
        assert stack[..|stack| - 1] == stack1;
      }
      forall n, p
        ensures Covered(m, stack, n, p) <==> Covered(m1, stack1, n, p) || TaggedBelow(dev, current, n, p)
        ensures Below(devs[..i + 1], current, n, p) <==>
                Below(devs[..i], current, n, p) || TaggedBelow(dev, current, n, p)
      {
        if dev.children.Listed? {
          PendingPush(stack1, (dev.children.devices, nextMpath), n, p);
        }
        BelowNext(devs, i, current, n, p);
      }
    }
    assert devs[..|devs|] == devs;
    forall n, p ensures Below(devs, current, n, p) <==> Tagged(devs, current, n, p) {
      TaggedUnfold(devs, current, n, p);
    }
  }

  lemma PendingPush(stack: seq<Frame>, f: Frame, n: string, p: string)
    ensures Pending(stack + [f], n, p) <==> Pending(stack, n, p) || Tagged(f.0, f.1, n, p)
  {
    var s := stack + [f];
    if Pending(stack, n, p) {
      var k :| 0 <= k < |stack| && Tagged(stack[k].0, stack[k].1, n, p);
      assert s[k] == stack[k];
    }
    if Tagged(f.0, f.1, n, p) {
      assert s[|stack|] == f;
    }
  }

  lemma BelowNext(devs: seq<LsblkDevice>, i: nat, above: Option<string>, n: string, p: string)
    requires i < |devs|
    ensures Below(devs[..i + 1], above, n, p) <==>
            Below(devs[..i], above, n, p) || TaggedBelow(devs[i], above, n, p)
  {
    assert devs[..i + 1] == devs[..i] + [devs[i]];
  }
}
