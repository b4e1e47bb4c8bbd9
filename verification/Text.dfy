/**
 * String operations of the source's standard library that several components
 * rely on: splitting on a pattern, joining with a separator, and sorting.
 */
module Text {
  import opened Wrappers

  // ---------- white space ----------

  /** The Unicode White_Space property. */
  predicate IsWhitespace(c: char) {
    || '\t' <= c <= '\r' || c == ' ' || c == '\U{85}' || c == '\U{A0}' || c == '\U{1680}'
    || '\U{2000}' <= c <= '\U{200A}' || c == '\U{2028}' || c == '\U{2029}' || c == '\U{202F}'
    || c == '\U{205F}' || c == '\U{3000}'
  }

  function TrimStart(s: string): string {
    if s != "" && IsWhitespace(s[0]) then TrimStart(s[1..]) else s
  }

  function TrimEnd(s: string): string {
    if s != "" && IsWhitespace(s[|s| - 1]) then TrimEnd(s[..|s| - 1]) else s
  }

  function Trim(s: string): string {
    TrimStart(TrimEnd(s))
  }

  /** The code points with that property, one by one. */
  lemma WhitespaceIs(c: char)
    ensures IsWhitespace(c) <==>
            c as int in {0x09, 0x0A, 0x0B, 0x0C, 0x0D, 0x20, 0x85, 0xA0, 0x1680,
                         0x2000, 0x2001, 0x2002, 0x2003, 0x2004, 0x2005, 0x2006, 0x2007, 0x2008, 0x2009, 0x200A,
                         0x2028, 0x2029, 0x202F, 0x205F, 0x3000}
  {
  }

  predicate Blank(s: string) {
    forall c | c in s :: IsWhitespace(c)
  }

  /** Empty, or with no white space at either end. */
  predicate Tight(s: string) {
    s != "" ==> !IsWhitespace(s[0]) && !IsWhitespace(s[|s| - 1])
  }

  /** `t` stands in `s` between nothing but white space. */
  ghost predicate StandsIn(t: string, s: string) {
    Tight(t) && exists pre, post :: s == pre + t + post && Blank(pre) && Blank(post)
  }

  lemma {:induction false} TrimStartBlank(pre: string, s: string)
    requires Blank(pre) && Tight(s)
    ensures TrimStart(pre + s) == s
    decreases |pre|
  {
    hide IsWhitespace;
    if pre == "" {
      assert pre + s == s;
    } else {
      assert (pre + s)[1..] == pre[1..] + s;
      TrimStartBlank(pre[1..], s);
    }
  }

  lemma {:induction false} TrimEndBlank(s: string, post: string)
    requires Blank(post) && (s != "" ==> !IsWhitespace(s[|s| - 1]))
    ensures TrimEnd(s + post) == s
    decreases |post|
  {
    hide IsWhitespace;
    if post == "" {
      assert s + post == s;
    } else {
      assert (s + post)[..|s + post| - 1] == s + post[..|post| - 1];
      TrimEndBlank(s, post[..|post| - 1]);
    }
  }

  lemma {:induction false} TrimStartStops(s: string) returns (pre: string)
    ensures s == pre + TrimStart(s) && Blank(pre)
    ensures TrimStart(s) != "" ==> !IsWhitespace(TrimStart(s)[0])
  {
    hide IsWhitespace;
    pre := "";
    if s != "" && IsWhitespace(s[0]) {
      var rest := TrimStartStops(s[1..]);
      pre := [s[0]] + rest;
    }
  }

  lemma {:induction false} TrimEndStops(s: string) returns (post: string)
    ensures s == TrimEnd(s) + post && Blank(post)
    ensures TrimEnd(s) != "" ==> !IsWhitespace(TrimEnd(s)[|TrimEnd(s)| - 1])
  {
    hide IsWhitespace;
    post := "";
    if s != "" && IsWhitespace(s[|s| - 1]) {
      var rest := TrimEndStops(s[..|s| - 1]);
      post := rest + [s[|s| - 1]];
    }
  }

  /** Trimming leaves exactly what stands between the white space at both ends. */
  lemma {:induction false} TrimIff(s: string, t: string)
    ensures Trim(s) == t <==> StandsIn(t, s)
  {
    hide IsWhitespace;
    var post := TrimEndStops(s);
    var pre := TrimStartStops(TrimEnd(s));
    assert s == pre + Trim(s) + post && Tight(Trim(s));
    if StandsIn(t, s) {
      StandsInTrimmed(t, s);
    }
  }

  lemma StandsInTrimmed(t: string, s: string)
    requires StandsIn(t, s)
    ensures Trim(s) == t
  {
    hide IsWhitespace;
    var pre, post :| s == pre + t + post && Blank(pre) && Blank(post);
    if t == "" {
      assert s == "" + (pre + post);
      TrimEndBlank("", pre + post);
    } else {
      TrimEndBlank(pre + t, post);
      TrimStartBlank(pre, t);
    }
  }

  /** Trimming keeps a prefix that neither begins nor ends with white space. */
  lemma TrimKeepsPrefix(pre: string, rest: string)
    requires pre != "" && !IsWhitespace(pre[0]) && !IsWhitespace(pre[|pre| - 1])
    ensures pre <= Trim(pre + rest)
  {
    TrimEndKeepsPrefix(pre, rest);
  }

  lemma {:induction false} TrimEndKeepsPrefix(pre: string, rest: string)
    requires pre != "" && !IsWhitespace(pre[|pre| - 1])
    ensures pre <= TrimEnd(pre + rest)
    decreases |rest|
  {
    hide IsWhitespace;
    var s := pre + rest;
    if rest == "" {
      assert s == pre;
    } else {
      assert s[..|s| - 1] == pre + rest[..|rest| - 1];
      TrimEndKeepsPrefix(pre, rest[..|rest| - 1]);
    }
  }

  // ---------- joining and splitting ----------

  function Join(parts: seq<string>, sep: string): string {
    if parts == [] then ""
    else if |parts| == 1 then parts[0]
    else parts[0] + sep + Join(parts[1..], sep)
  }

  predicate MatchAt(s: string, pat: string, i: nat) {
    i + |pat| <= |s| && s[i..i + |pat|] == pat
  }

  /** The leftmost position at which `pat` occurs in `s`. */
  function FindFirst(s: string, pat: string): (r: Option<nat>)
    ensures r.Some? ==> r.value + |pat| <= |s|
  {
    if |s| < |pat| then None
    else if MatchAt(s, pat, 0) then Some(0)
    else
      match FindFirst(s[1..], pat)
      case None => None
      case Some(i) => Some(i + 1)
  }

  lemma MatchShift(s: string, pat: string, j: nat)
    requires s != ""
    ensures MatchAt(s, pat, j + 1) == MatchAt(s[1..], pat, j)
  {
    if j + 1 + |pat| <= |s| {
      assert s[j + 1..j + 1 + |pat|] == s[1..][j..j + |pat|];
    }
  }

  lemma {:induction false} FindFirstCorrect(s: string, pat: string)
    ensures match FindFirst(s, pat)
            case Some(i) => MatchAt(s, pat, i) && forall j: nat | j < i :: !MatchAt(s, pat, j)
            case None => forall j: nat :: !MatchAt(s, pat, j)
  {
    if |pat| <= |s| && !MatchAt(s, pat, 0) {
      FindFirstCorrect(s[1..], pat);
      forall j: nat | j > 0 ensures MatchAt(s, pat, j) == MatchAt(s[1..], pat, j - 1) {
        MatchShift(s, pat, j - 1);
      }
      hide MatchAt;
    }
  }

  /** The pieces of `s` between the leftmost non-overlapping occurrences of `pat`. */
  function Split(s: string, pat: string): (parts: seq<string>)
    requires pat != ""
    ensures parts != []
    decreases |s|
  {
    match FindFirst(s, pat)
    case None => [s]
    case Some(i) => [s[..i]] + Split(s[i + |pat|..], pat)
  }

  /**
   * Splitting undoes joining whenever some character of the separator occurs in
   * none of the parts and not earlier in the separator.
   */
  lemma {:induction false} SplitJoin(parts: seq<string>, sep: string, mark: nat)
    requires parts != [] && mark < |sep|
    requires sep[mark] !in sep[..mark]
    requires forall p | p in parts :: sep[mark] !in p
    ensures Split(Join(parts, sep), sep) == parts
  {
    var s := Join(parts, sep);
    var p := parts[0];
    assert p in parts;
    if |parts| == 1 {
      forall j: nat | j + |sep| <= |s| ensures !MatchAt(s, sep, j) {
        assert s[j..j + |sep|][mark] == s[j + mark];
      }
      FindFirstNone(s, sep);
    } else {
      var tail := Join(parts[1..], sep);
      assert s == p + (sep + tail);
      NoEarlierMatch(p, sep, tail, mark);
      FindFirstIs(s, sep, |p|);
      assert s[..|p|] == p && s[|p| + |sep|..] == tail;
      SplitJoin(parts[1..], sep, mark);
    }
  }

  lemma NoEarlierMatch(p: string, sep: string, tail: string, mark: nat)
    requires mark < |sep| && sep[mark] !in sep[..mark] && sep[mark] !in p
    ensures MatchAt(p + (sep + tail), sep, |p|)
    ensures forall j: nat | j < |p| :: !MatchAt(p + (sep + tail), sep, j)
  {
    var s := p + (sep + tail);
    assert forall k | |p| <= k < |p| + mark :: s[k] == sep[..mark][k - |p|];
    assert forall k | 0 <= k < |p| + mark :: s[k] != sep[mark];
    forall j: nat | j < |p| ensures !MatchAt(s, sep, j) {
      assert s[j..j + |sep|][mark] == s[j + mark];
    }
  }

  lemma FindFirstIs(s: string, pat: string, i: nat)
    requires MatchAt(s, pat, i) && forall j: nat | j < i :: !MatchAt(s, pat, j)
    ensures FindFirst(s, pat) == Some(i)
  {
    hide MatchAt;
    FindFirstCorrect(s, pat);
  }

  lemma FindFirstNone(s: string, pat: string)
    requires forall j: nat | j + |pat| <= |s| :: !MatchAt(s, pat, j)
    ensures FindFirst(s, pat) == None
  {
    FindFirstCorrect(s, pat);
  }

  /** Joining undoes splitting, and no piece holds the pattern. */
  lemma {:induction false} JoinSplit(s: string, pat: string)
    requires pat != ""
    ensures Join(Split(s, pat), pat) == s
    ensures forall p, j: nat | p in Split(s, pat) :: !MatchAt(p, pat, j)
    decreases |s|
  {
    FindFirstCorrect(s, pat);
    match FindFirst(s, pat)
    case None =>
    case Some(i) =>
      var rest := s[i + |pat|..];
      JoinSplit(rest, pat);
      JoinFirst(s[..i], Split(rest, pat), pat);
      assert s == s[..i] + pat + rest by { assert MatchAt(s, pat, i); }
      hide MatchAt, Join;
      forall j: nat ensures !MatchAt(s[..i], pat, j) {
        MatchInPrefix(s, i, pat, j);
      }
  }

  lemma JoinFirst(p: string, rest: seq<string>, sep: string)
    requires rest != []
    ensures Join([p] + rest, sep) == p + sep + Join(rest, sep)
  {
    assert ([p] + rest)[1..] == rest;
  }

  lemma MatchInPrefix(s: string, i: nat, pat: string, j: nat)
    requires i <= |s| && pat != ""
    ensures MatchAt(s[..i], pat, j) ==> j < i && MatchAt(s, pat, j)
  {
    if j + |pat| <= i { assert s[..i][j..j + |pat|] == s[j..j + |pat|]; }
  }

  /** A one-character pattern splits a string into two or more parts exactly when it occurs. */
  lemma SplitOnChar(s: string, c: char)
    ensures c !in s ==> Split(s, [c]) == [s]
    ensures c in s <==> |Split(s, [c])| >= 2
  {
    if c in s {
      FindFirstCorrect(s, [c]);
      var i :| 0 <= i < |s| && s[i] == c;
      assert MatchAt(s, [c], i);
    } else {
      forall j: nat | j + 1 <= |s| ensures !MatchAt(s, [c], j) {
        assert s[j..j + 1][0] == s[j];
      }
      FindFirstNone(s, [c]);
    }
  }

  // ---------- ordering and sorting ----------

  /** Lexicographic order by code point, which is the order of the UTF-8 bytes. */
  predicate LexLe(a: string, b: string) {
    a == "" || (b != "" && (a[0] < b[0] || (a[0] == b[0] && LexLe(a[1..], b[1..]))))
  }

  /** The first position at which the strings differ. */
  predicate FirstDifference(a: string, b: string, i: nat) {
    i < |a| && i < |b| && a[..i] == b[..i] && a[i] != b[i]
  }

  lemma FirstDifferenceTail(a: string, b: string, i: nat)
    requires a != "" && b != "" && a[0] == b[0]
    ensures FirstDifference(a, b, i + 1) <==> FirstDifference(a[1..], b[1..], i)
  {
    if i + 1 < |a| && i + 1 < |b| {
      assert a[..i + 1] == [a[0]] + a[1..][..i] && b[..i + 1] == [b[0]] + b[1..][..i];
      assert a[1..][..i] == a[..i + 1][1..] && b[1..][..i] == b[..i + 1][1..];
    }
  }

  /** What the order means: a prefix comes first, and otherwise the smaller character at the first difference. */
  lemma {:induction false} LexLeIff(a: string, b: string)
    ensures LexLe(a, b) <==> a <= b || exists i: nat :: FirstDifference(a, b, i) && a[i] < b[i]
  {
    if a != "" && b != "" && a[0] == b[0] {
      LexLeIff(a[1..], b[1..]);
      if exists i: nat :: FirstDifference(a, b, i) && a[i] < b[i] {
        var i: nat :| FirstDifference(a, b, i) && a[i] < b[i];
        FirstDifferenceTail(a, b, i - 1);
      }
      if exists i: nat :: FirstDifference(a[1..], b[1..], i) && a[1..][i] < b[1..][i] {
        var i: nat :| FirstDifference(a[1..], b[1..], i) && a[1..][i] < b[1..][i];
        FirstDifferenceTail(a, b, i);
      }
    } else if a != "" && b != "" {
      assert FirstDifference(a, b, 0);
    }
  }

  lemma {:induction false} LexLeTotal(a: string, b: string)
    ensures LexLe(a, b) || LexLe(b, a)
  {
    if a != "" && b != "" && a[0] == b[0] {
      LexLeTotal(a[1..], b[1..]);
    }
  }

  lemma {:induction false} LexLeTransitive(a: string, b: string, c: string)
    requires LexLe(a, b) && LexLe(b, c)
    ensures LexLe(a, c)
  {
    if a != "" && a[0] == b[0] == c[0] {
      LexLeTransitive(a[1..], b[1..], c[1..]);
    }
  }

  lemma {:induction false} LexLeAntisymmetric(a: string, b: string)
    requires LexLe(a, b) && LexLe(b, a)
    ensures a == b
  {
    if a != "" {
      LexLeAntisymmetric(a[1..], b[1..]);
      assert a == [a[0]] + a[1..] && b == [b[0]] + b[1..];
    }
  }

  ghost predicate Sorted(s: seq<string>) {
    forall i, j | 0 <= i < j < |s| :: LexLe(s[i], s[j])
  }

  function Insert(x: string, s: seq<string>): seq<string> {
    if s == [] || LexLe(x, s[0]) then [x] + s else [s[0]] + Insert(x, s[1..])
  }

  /** The in-place `sort` of the source, as the sequence it leaves behind. */
  function Sort(s: seq<string>): seq<string> {
    if s == [] then [] else Insert(s[0], Sort(s[1..]))
  }

  lemma {:induction false} InsertCorrect(x: string, s: seq<string>)
    requires Sorted(s)
    ensures Sorted(Insert(x, s))
    ensures multiset(Insert(x, s)) == multiset{x} + multiset(s)
  {
    if s == [] {
    } else if LexLe(x, s[0]) {
      forall j | 0 <= j < |s| ensures LexLe(x, s[j]) {
        if j > 0 { LexLeTransitive(x, s[0], s[j]); }
      }
    } else {
      LexLeTotal(x, s[0]);
      InsertCorrect(x, s[1..]);
      assert s == [s[0]] + s[1..];
      var r := Insert(x, s[1..]);
      forall y | y in r ensures LexLe(s[0], y) {
        assert y in multiset(r);
        if y != x { assert y in multiset(s[1..]); }
      }
    }
  }

  lemma {:induction false} SortCorrect(s: seq<string>)
    ensures Sorted(Sort(s))
    ensures multiset(Sort(s)) == multiset(s)
  {
    if s != [] {
      SortCorrect(s[1..]);
      InsertCorrect(s[0], Sort(s[1..]));
      assert s == [s[0]] + s[1..];
    }
  }

  /** A multiset of strings has only one sorted listing. */
  lemma {:induction false} SortedUnique(a: seq<string>, b: seq<string>)
    requires Sorted(a) && Sorted(b) && multiset(a) == multiset(b)
    ensures a == b
  {
    assert |a| == |multiset(a)| == |multiset(b)| == |b|;
    if a != [] {
      LeastFirst(a, b);
      LeastFirst(b, a);
      LexLeAntisymmetric(a[0], b[0]);
      WithoutFirst(a);
      WithoutFirst(b);
      SortedUnique(a[1..], b[1..]);
    }
  }

  lemma WithoutFirst(a: seq<string>)
    requires a != []
    ensures a == [a[0]] + a[1..]
    ensures multiset(a[1..]) == multiset(a) - multiset{a[0]}
  {
    assert a == [a[0]] + a[1..];
  }

  lemma LeastFirst(a: seq<string>, b: seq<string>)
    requires Sorted(a) && multiset(a) == multiset(b) && a != [] && b != []
    ensures LexLe(a[0], b[0])
  {
    assert b[0] in multiset(a);
    var j :| 0 <= j < |a| && a[j] == b[0];
    LexLeReflexive(a[0]);
  }

  lemma {:induction false} LexLeReflexive(a: string)
    ensures LexLe(a, a)
  {
    if a != "" { LexLeReflexive(a[1..]); }
  }

  /** Sorting gives the same result for every order in which the elements arrive. */
  lemma SortCanonical(a: seq<string>, b: seq<string>)
    requires multiset(a) == multiset(b)
    ensures Sort(a) == Sort(b)
  {
    SortCorrect(a);
    SortCorrect(b);
    SortedUnique(Sort(a), Sort(b));
  }
}
