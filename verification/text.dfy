/** Character classes, case folding, `trim` and `strcmp` of the C standard library,
    restricted to what the ledger aggregator uses (the "C" locale: ASCII only). */
module Text {

  /** `isspace` in the "C" locale. */
  predicate IsSpace(c: char) {
    c == ' ' || c == '\t' || c == '\n' || c == '\U{0B}' || c == '\U{0C}' || c == '\r'
  }

  /** `isdigit`. */
  predicate IsDigit(c: char) {
    '0' <= c <= '9'
  }

  /** `tolower` in the "C" locale: only 'A'..'Z' change. */
  function Lower(c: char): (r: char)
    ensures !('A' <= r <= 'Z')
    ensures 'A' <= c <= 'Z' ==> r as int == c as int + 32
    ensures !('A' <= c <= 'Z') ==> r == c
  {
    if 'A' <= c <= 'Z' then (c as int + 32) as char else c
  }

  /** Lower-cases every character of `s`. */
  function LowerAll(s: seq<char>): (r: seq<char>)
    ensures |r| == |s|
    ensures forall k :: 0 <= k < |s| ==> r[k] == Lower(s[k])
  {
    seq(|s|, k requires 0 <= k < |s| => Lower(s[k]))
  }

  /** A value that may be absent. */
  datatype Option<T> = None | Some(value: T)

  /** The first `n` elements of `s` (all of `s` when it is shorter): for a string, what
      `strncpy` into an `n + 1` byte buffer followed by a terminating NUL keeps. */
  function Truncate<T>(s: seq<T>, n: nat): (r: seq<T>)
    ensures |r| == if |s| <= n then |s| else n
    ensures |s| <= n ==> r == s
    ensures r <= s
  {
    if |s| <= n then s else s[..n]
  }

  /** Cutting at the length of a prefix gives back that prefix. */
  lemma TruncateAppend<T>(a: seq<T>, b: seq<T>, n: nat)
    requires |a| == n
    ensures Truncate(a + b, n) == a
  {
    assert (a + b)[..n] == a;
  }

  // ---------------------------------------------------------------------------
  // trim (main.c:43-56)
  // ---------------------------------------------------------------------------

  /** Index of the first non-space character of `s`, or `|s|` if there is none. */
  function LeadEnd(s: seq<char>): (r: nat)
    ensures r <= |s|
    ensures forall k :: 0 <= k < r ==> IsSpace(s[k])
    ensures r < |s| ==> !IsSpace(s[r])
  {
    if |s| > 0 && IsSpace(s[0]) then 1 + LeadEnd(s[1..]) else 0
  }

  /** One past the last non-space character of `s` at or after `lo`, or `lo` if there is none. */
  function TrailEnd(s: seq<char>, lo: nat): (r: nat)
    requires lo <= |s|
    ensures lo <= r <= |s|
    ensures forall k :: r <= k < |s| ==> IsSpace(s[k])
    ensures r > lo ==> !IsSpace(s[r - 1])
    decreases |s|
  {
    if |s| > lo && IsSpace(s[|s| - 1]) then
      assert forall k :: 0 <= k < |s| - 1 ==> s[..|s| - 1][k] == s[k];
      TrailEnd(s[..|s| - 1], lo)
    else |s|
  }

  /** `s` without its leading and trailing white space. */
  function Trimmed(s: seq<char>): (r: seq<char>)
    ensures |r| <= |s|
    ensures r != [] ==> !IsSpace(r[0]) && !IsSpace(r[|r| - 1])
  {
    s[LeadEnd(s)..TrailEnd(s, LeadEnd(s))]
  }

  /** What trimming promises: the result is the stretch of `s` between a run of
      leading spaces and a run of trailing spaces. */
  lemma TrimmedSpec(s: seq<char>)
    ensures var a := LeadEnd(s);
            && a + |Trimmed(s)| <= |s|
            && Trimmed(s) == s[a..a + |Trimmed(s)|]
            && (forall k :: 0 <= k < a ==> IsSpace(s[k]))
            && (forall k :: a + |Trimmed(s)| <= k < |s| ==> IsSpace(s[k]))
  {
  }

  /** A string that neither starts nor ends with a space is its own trim. */
  lemma TrimmedUnchanged(s: seq<char>)
    requires s == [] || (!IsSpace(s[0]) && !IsSpace(s[|s| - 1]))
    ensures Trimmed(s) == s
  {
    if s != [] {
      assert LeadEnd(s) == 0;
      assert TrailEnd(s, 0) == |s|;
    }
  }

  /** Trimming twice is trimming once. */
  lemma TrimmedIdempotent(s: seq<char>)
    ensures Trimmed(Trimmed(s)) == Trimmed(s)
  {
    TrimmedUnchanged(Trimmed(s));
  }

  /** The in-place `trim`: skip the leading spaces (the `memmove`), then walk an end
      pointer back over the trailing ones. */
  method Trim(s: seq<char>) returns (t: seq<char>)
    ensures t == Trimmed(s)
  {
    var start := 0;
    while start < |s| && IsSpace(s[start])
      invariant start <= |s|
      invariant forall k :: 0 <= k < start ==> IsSpace(s[k])
    {
      start := start + 1;
    }
    assert start == LeadEnd(s) by { LeadEndUnique(s, start); }
    if start == |s| {
      return [];
    }
    t := s[start..];
    var end := |t| - 1;
    while end > 0 && IsSpace(t[end])
      invariant 0 <= end < |t|
      invariant forall k :: end < k < |t| ==> IsSpace(t[k])
    {
      end := end - 1;
    }
    assert start + end + 1 == TrailEnd(s, start) by { TrailEndUnique(s, start, start + end + 1); }
    t := t[..end + 1];
  }

  /** LeadEnd is the only index with its two properties. */
  lemma {:induction false} LeadEndUnique(s: seq<char>, i: nat)
    requires i <= |s|
    requires forall k :: 0 <= k < i ==> IsSpace(s[k])
    requires i < |s| ==> !IsSpace(s[i])
    ensures i == LeadEnd(s)
  {
    if i > 0 {
      LeadEndUnique(s[1..], i - 1);
    }
  }

  /** TrailEnd is the only index with its two properties. */
  lemma {:induction false} TrailEndUnique(s: seq<char>, lo: nat, j: nat)
    requires lo < j <= |s|
    requires forall k :: j <= k < |s| ==> IsSpace(s[k])
    requires !IsSpace(s[j - 1])
    ensures j == TrailEnd(s, lo)
    decreases |s|
  {
    if j < |s| {
      TrailEndUnique(s[..|s| - 1], lo, j);
    }
  }

  // ---------------------------------------------------------------------------
  // strcmp (used by month_list_add, compare_months and the --as-of cut-off)
  // ---------------------------------------------------------------------------

  /** `strcmp(a, b) < 0`: `a` comes before `b` in byte-wise lexicographic order,
      a proper prefix coming first. */
  predicate LexLess(a: seq<char>, b: seq<char>)
  {
    if a == [] then b != []
    else if b == [] then false
    else if a[0] != b[0] then a[0] < b[0]
    else LexLess(a[1..], b[1..])
  }

  lemma {:induction false} LexLessIrreflexive(a: seq<char>)
    ensures !LexLess(a, a)
  {
    if a != [] {
      LexLessIrreflexive(a[1..]);
    }
  }

  lemma {:induction false} LexLessTransitive(a: seq<char>, b: seq<char>, c: seq<char>)
    requires LexLess(a, b) && LexLess(b, c)
    ensures LexLess(a, c)
  {
    if a != [] && b != [] && c != [] && a[0] == b[0] && b[0] == c[0] {
      LexLessTransitive(a[1..], b[1..], c[1..]);
    }
  }

  /** strcmp is a total order: two different strings are ordered one way or the other,
      and never both ways. */
  lemma {:induction false} LexLessTotal(a: seq<char>, b: seq<char>)
    ensures a != b <==> (LexLess(a, b) || LexLess(b, a))
    ensures !(LexLess(a, b) && LexLess(b, a))
  {
    if a == b {
      LexLessIrreflexive(a);
    } else if a != [] && b != [] && a[0] == b[0] {
      LexLessTotal(a[1..], b[1..]);
      assert a == [a[0]] + a[1..] && b == [b[0]] + b[1..];
    }
  }
}
