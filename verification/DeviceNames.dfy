/** How a storage "vg:lv" becomes a device-mapper name, and when two storages share one. */
module DeviceNames {
  import opened Wrappers

  /** Splits at the first occurrence of `c`. */
  function SplitOnce(s: string, c: char): Option<(string, string)> {
    if s == "" then None
    else if s[0] == c then Some(("", s[1..]))
    else
      match SplitOnce(s[1..], c)
      case None => None
      case Some((a, b)) => Some(([s[0]] + a, b))
  }

  /** Every hyphen doubled. */
  function Double(s: string): string {
    if s == "" then "" else DoubleChar(s[0]) + Double(s[1..])
  }

  function DoubleChar(c: char): string {
    if c == '-' then "--" else [c]
  }

  function Mangle(vg: string, lv: string): string {
    Double(vg) + "-" + Double(lv)
  }

  function StorageToDmName(storage: string): string {
    match SplitOnce(storage, ':')
    case Some((vg, lv)) => Mangle(vg, lv)
    case None => storage
  }

  function StorageToDmNameLegacy(storage: string): string {
    match SplitOnce(storage, ':')
    case Some((vg, lv)) => vg + "-" + Double(lv)
    case None => storage
  }

  // ---------- the decoder ----------

  predicate StartsDoubled(s: string) {
    |s| >= 2 && s[0] == '-' && s[1] == '-'
  }

  function Undouble(s: string): string {
    if s == "" then ""
    else if StartsDoubled(s) then "-" + Undouble(s[2..])
    else [s[0]] + Undouble(s[1..])
  }

  /** Reads doubled hyphens as hyphens up to the first lone hyphen, which separates vg from lv. */
  function Unmangle(s: string): Option<(string, string)> {
    if s == "" then None
    else if StartsDoubled(s) then
      match Unmangle(s[2..])
      case None => None
      case Some((vg, lv)) => Some(("-" + vg, lv))
    else if s[0] == '-' then Some(("", Undouble(s[1..])))
    else
      match Unmangle(s[1..])
      case None => None
      case Some((vg, lv)) => Some(([s[0]] + vg, lv))
  }

  predicate StartsWithHyphen(s: string) {
    s != "" && s[0] == '-'
  }

  lemma {:induction false} UndoubleDouble(s: string)
    ensures Undouble(Double(s)) == s
  {
    if s != "" {
      UndoubleDouble(s[1..]);
      var t := Double(s);
      if s[0] == '-' {
        assert StartsDoubled(t) && t[2..] == Double(s[1..]);
      } else {
        assert !StartsDoubled(t) && t[1..] == Double(s[1..]);
      }
    }
  }

  /** The decoder recovers both parts whenever lv does not start with a hyphen. */
  lemma {:induction false} UnmangleMangle(vg: string, lv: string)
    requires !StartsWithHyphen(lv)
    ensures Unmangle(Mangle(vg, lv)) == Some((vg, lv))
  {
    var s := Mangle(vg, lv);
    if vg == "" {
      assert s == "-" + Double(lv);
      LoneHyphen(lv);
      UndoubleDouble(lv);
    } else {
      UnmangleMangle(vg[1..], lv);
      MangleFirst(vg, lv);
      assert vg == [vg[0]] + vg[1..];
    }
  }

  lemma LoneHyphen(lv: string)
    requires !StartsWithHyphen(lv)
    ensures !StartsDoubled("-" + Double(lv))
  {
    if lv != "" { assert Double(lv)[0] == lv[0]; }
  }

  lemma MangleFirst(vg: string, lv: string)
    requires vg != ""
    ensures vg[0] == '-' ==> StartsDoubled(Mangle(vg, lv)) && Mangle(vg, lv)[2..] == Mangle(vg[1..], lv)
    ensures vg[0] != '-' ==> Mangle(vg, lv) == [vg[0]] + Mangle(vg[1..], lv)
  {
    assert Mangle(vg, lv) == DoubleChar(vg[0]) + Mangle(vg[1..], lv);
  }

  // ---------- exactly which storages collide ----------

  function Hyphens(k: nat): string {
    seq(k, _ => '-')
  }

  lemma {:induction false} DoubleConcat(a: string, b: string)
    ensures Double(a + b) == Double(a) + Double(b)
  {
    if a == "" {
      assert a + b == b;
    } else {
      hide Double, DoubleChar;
      DoubleConcat(a[1..], b);
      DoubleCons(a[0], a[1..]);
      DoubleCons(a[0], a[1..] + b);
      assert a == [a[0]] + a[1..] && a + b == [a[0]] + (a[1..] + b);
      Associates(DoubleChar(a[0]), Double(a[1..]), Double(b));
    }
  }

  lemma DoubleCons(c: char, s: string)
    ensures Double([c] + s) == DoubleChar(c) + Double(s)
  {
    assert ([c] + s)[1..] == s;
  }

  lemma Associates(x: string, y: string, z: string)
    ensures x + (y + z) == x + y + z
  {
  }

  lemma {:induction false} DoubleHyphens(k: nat)
    ensures Double(Hyphens(k)) == Hyphens(2 * k)
  {
    if k > 0 {
      DoubleHyphens(k - 1);
      assert Hyphens(k)[1..] == Hyphens(k - 1);
    }
  }

  /** Moving hyphens across the colon does not change the device name. */
  lemma MangleShift(vg: string, k: nat, lv: string)
    ensures Mangle(vg, Hyphens(k) + lv) == Mangle(vg + Hyphens(k), lv)
  {
    DoubleConcat(Hyphens(k), lv);
    DoubleConcat(vg, Hyphens(k));
    DoubleHyphens(k);
    HyphenCommutes(Double(vg), 2 * k, Double(lv));
  }

  lemma HyphenCommutes(a: string, k: nat, b: string)
    ensures a + "-" + (Hyphens(k) + b) == a + Hyphens(k) + "-" + b
  {
    assert "-" + Hyphens(k) == Hyphens(k) + "-";
    assert a + "-" + (Hyphens(k) + b) == a + ("-" + Hyphens(k)) + b;
    assert a + Hyphens(k) + "-" + b == a + (Hyphens(k) + "-") + b;
  }

  function LeadingHyphens(s: string): (k: nat)
    ensures k <= |s| && s == Hyphens(k) + s[k..] && !StartsWithHyphen(s[k..])
  {
    if StartsWithHyphen(s) then
      var k := LeadingHyphens(s[1..]);
      assert s == Hyphens(k + 1) + s[k + 1..];
      k + 1
    else 0
  }

  /** The second storage is the first with some hyphens moved from vg to the front of lv. */
  ghost predicate MovesHyphens(vg1: string, lv1: string, vg2: string, lv2: string) {
    exists k: nat :: vg1 == vg2 + Hyphens(k) && lv2 == Hyphens(k) + lv1
  }

  /** Two storages get the same device name exactly when one is the other with hyphens moved across the colon. */
  lemma MangleCollision(vg1: string, lv1: string, vg2: string, lv2: string)
    ensures Mangle(vg1, lv1) == Mangle(vg2, lv2) <==>
            MovesHyphens(vg1, lv1, vg2, lv2) || MovesHyphens(vg2, lv2, vg1, lv1)
  {
    hide Mangle, MovesHyphens, LeadingHyphens;
    MovedHyphensCollide(vg1, lv1, vg2, lv2);
    MovedHyphensCollide(vg2, lv2, vg1, lv1);
    if Mangle(vg1, lv1) == Mangle(vg2, lv2) {
      if LeadingHyphens(lv1) <= LeadingHyphens(lv2) {
        CollisionMovesHyphens(vg1, lv1, vg2, lv2);
      } else {
        CollisionMovesHyphens(vg2, lv2, vg1, lv1);
      }
    }
  }

  lemma MovedHyphensCollide(vg1: string, lv1: string, vg2: string, lv2: string)
    ensures MovesHyphens(vg1, lv1, vg2, lv2) ==> Mangle(vg1, lv1) == Mangle(vg2, lv2)
  {
    hide Mangle;
    if MovesHyphens(vg1, lv1, vg2, lv2) {
      var k: nat :| vg1 == vg2 + Hyphens(k) && lv2 == Hyphens(k) + lv1;
      MangleShift(vg2, k, lv1);
    }
  }

  lemma CollisionMovesHyphens(vg1: string, lv1: string, vg2: string, lv2: string)
    requires Mangle(vg1, lv1) == Mangle(vg2, lv2) && LeadingHyphens(lv1) <= LeadingHyphens(lv2)
    ensures MovesHyphens(vg1, lv1, vg2, lv2)
  {
    hide Mangle;
    var a, b := LeadingHyphens(lv1), LeadingHyphens(lv2);
    CanonicalPartsAgree(vg1, lv1, vg2, lv2, a, b);
    SameAfterHyphens(vg1, a, vg2, b);
    assert lv2 == Hyphens(b) + lv2[b..] && lv1 == Hyphens(a) + lv2[b..];
    hide LeadingHyphens, StartsWithHyphen;
    HyphensSplit(b, a, lv2[b..]);
    assert lv2 == Hyphens(b - a) + lv1;
  }

  lemma HyphensSplit(b: nat, a: nat, rest: string)
    requires a <= b
    ensures Hyphens(b) + rest == Hyphens(b - a) + (Hyphens(a) + rest)
  {
  }

  /** With all leading hyphens of lv moved over to vg, equal device names come from equal parts. */
  lemma CanonicalPartsAgree(vg1: string, lv1: string, vg2: string, lv2: string, a: nat, b: nat)
    requires Mangle(vg1, lv1) == Mangle(vg2, lv2)
    requires a == LeadingHyphens(lv1) && b == LeadingHyphens(lv2)
    ensures vg1 + Hyphens(a) == vg2 + Hyphens(b) && lv1[a..] == lv2[b..]
  {
    hide Mangle, Unmangle;
    MangleShift(vg1, a, lv1[a..]);
    MangleShift(vg2, b, lv2[b..]);
    UnmangleMangle(vg1 + Hyphens(a), lv1[a..]);
    UnmangleMangle(vg2 + Hyphens(b), lv2[b..]);
  }

  lemma SameAfterHyphens(x: string, a: nat, y: string, b: nat)
    requires a <= b && x + Hyphens(a) == y + Hyphens(b)
    ensures x == y + Hyphens(b - a)
  {
    var s := x + Hyphens(a);
    assert s[..|x|] == x;
    assert (y + Hyphens(b))[..|y| + (b - a)] == y + Hyphens(b - a);
  }

  lemma {:induction false} SplitOnceJoined(vg: string, lv: string, c: char)
    requires c !in vg
    ensures SplitOnce(vg + [c] + lv, c) == Some((vg, lv))
  {
    var s := vg + [c] + lv;
    if vg == "" {
      assert s[0] == c && s[1..] == lv;
    } else {
      SplitOnceJoined(vg[1..], lv, c);
      assert s[1..] == vg[1..] + [c] + lv;
      assert vg == [vg[0]] + vg[1..];
    }
  }

  lemma {:induction false} SplitOnceIff(s: string, c: char)
    ensures SplitOnce(s, c).None? <==> c !in s
  {
    if s != "" {
      SplitOnceIff(s[1..], c);
      assert s == [s[0]] + s[1..];
    }
  }

  /** A storage without a colon is its own name in both spellings. */
  lemma PlainStorageKeepsName(storage: string)
    requires ':' !in storage
    ensures StorageToDmName(storage) == storage && StorageToDmNameLegacy(storage) == storage
  {
    SplitOnceIff(storage, ':');
  }

  /** From the device name of "vg:lv" the decoder recovers both, and from the legacy name it recovers lv behind vg. */
  lemma StorageNameDecodes(vg: string, lv: string)
    requires ':' !in vg
    ensures !StartsWithHyphen(lv) ==> Unmangle(StorageToDmName(vg + ":" + lv)) == Some((vg, lv))
    ensures var legacy := StorageToDmNameLegacy(vg + ":" + lv);
            vg + "-" <= legacy && Undouble(legacy[|vg| + 1..]) == lv
  {
    SplitOnceJoined(vg, lv, ':');
    if !StartsWithHyphen(lv) { UnmangleMangle(vg, lv); }
    UndoubleDouble(lv);
    assert (vg + "-" + Double(lv))[|vg| + 1..] == Double(lv);
  }

  /** Storages whose lv does not start with a hyphen never share a device name. */
  lemma StorageNamesInjective(vg1: string, lv1: string, vg2: string, lv2: string)
    requires ':' !in vg1 && ':' !in vg2
    requires !StartsWithHyphen(lv1) && !StartsWithHyphen(lv2)
    requires StorageToDmName(vg1 + ":" + lv1) == StorageToDmName(vg2 + ":" + lv2)
    ensures vg1 == vg2 && lv1 == lv2
  {
    SplitOnceJoined(vg1, lv1, ':');
    SplitOnceJoined(vg2, lv2, ':');
    UnmangleMangle(vg1, lv1);
    UnmangleMangle(vg2, lv2);
  }

  /** The legacy spelling differs from the primary one exactly when vg contains a hyphen. */
  lemma LegacyDiffersOnHyphen(vg: string, lv: string)
    requires ':' !in vg
    ensures StorageToDmNameLegacy(vg + ":" + lv) == StorageToDmName(vg + ":" + lv) <==> '-' !in vg
  {
    SplitOnceJoined(vg, lv, ':');
    DoubleGrows(vg);
    var tail := "-" + Double(lv);
    assert Mangle(vg, lv) == Double(vg) + tail && vg + "-" + Double(lv) == vg + tail;
    if Double(vg) + tail == vg + tail {
      assert |Double(vg)| == |vg|;
    }
  }

  lemma {:induction false} DoubleGrows(s: string)
    ensures |Double(s)| >= |s|
    ensures '-' in s ==> |Double(s)| > |s|
    ensures '-' !in s ==> Double(s) == s
  {
    if s != "" {
      DoubleGrows(s[1..]);
      assert s == [s[0]] + s[1..];
    }
  }
}
