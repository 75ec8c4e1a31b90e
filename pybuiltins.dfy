/**
 * The Python built-ins the git-summarizer code leans on, stated exactly:
 * `str.strip()`, `str.split(sep)`, `sep.join(parts)`, slicing `s[:n]` and
 * `s[n:]`, `in`, `startswith`, `str(int)`, `int(str)` (with the narrower
 * whitespace it skips) and list comprehensions.
 */
module PyBuiltins {
  import opened Wrappers

  // ---------------------------------------------------------------------------
  // Whitespace and strip()
  // ---------------------------------------------------------------------------

  /** `c.isspace()`: exactly the characters that `str.strip()` removes. */
  predicate IsSpace(c: char) {
    || c == ' '
    || ('\t' <= c <= '\r')                  // \t \n \v \f \r
    || ('\U{1C}' <= c <= '\U{1F}')          // file, group, record, unit separators
    || c == '\U{85}' || c == '\U{A0}' || c == '\U{1680}'
    || ('\U{2000}' <= c <= '\U{200A}')
    || c == '\U{2028}' || c == '\U{2029}' || c == '\U{202F}' || c == '\U{205F}' || c == '\U{3000}'
  }

  /** No whitespace at either end: what `strip()` always returns. */
  predicate IsStripped(s: string) {
    |s| == 0 || (!IsSpace(s[0]) && !IsSpace(s[|s| - 1]))
  }

  predicate AllSpace(s: string) {
    forall k :: 0 <= k < |s| ==> IsSpace(s[k])
  }

  /** Length of the whitespace run at the start of `s`. */
  function LeadingSpaces(s: string): (n: nat)
    ensures n <= |s|
    ensures AllSpace(s[..n])
    ensures n < |s| ==> !IsSpace(s[n])
  {
    if |s| > 0 && IsSpace(s[0]) then 1 + LeadingSpaces(s[1..]) else 0
  }

  /** Index where the whitespace run at the end of `s` starts. */
  function TrailingStart(s: string): (m: nat)
    ensures m <= |s|
    ensures AllSpace(s[m..])
    ensures 0 < m ==> !IsSpace(s[m - 1])
  {
    if |s| > 0 && IsSpace(s[|s| - 1]) then TrailingStart(s[..|s| - 1]) else |s|
  }

  /** `s.strip()` */
  function Strip(s: string): (r: string)
    ensures IsStripped(r)
    ensures LeadingSpaces(s) + |r| <= |s|
    ensures r == s[LeadingSpaces(s)..LeadingSpaces(s) + |r|]
    ensures AllSpace(s[LeadingSpaces(s) + |r|..])
  {
    var t := s[LeadingSpaces(s)..];
    t[..TrailingStart(t)]
  }

  lemma StripStripped(s: string)
    requires IsStripped(s)
    ensures Strip(s) == s
  {
    assert LeadingSpaces(s) == 0;
    assert TrailingStart(s) == |s|;
  }

  /** `strip()` yields the empty string exactly for all-whitespace input. */
  lemma StripEmpty(s: string)
    ensures Strip(s) == "" <==> AllSpace(s)
  {
    var i := LeadingSpaces(s);
    if AllSpace(s) {
      assert i == |s|;
    }
    if Strip(s) == "" {
      assert s == s[..i] + s[i..];
      AllSpaceConcat(s[..i], s[i..]);
    }
  }

  lemma AllSpaceConcat(a: string, b: string)
    requires AllSpace(a) && AllSpace(b)
    ensures AllSpace(a + b)
  {
  }

  /** Whitespace around a stripped core is exactly what `strip()` removes. */
  lemma StripSurrounded(a: string, b: string, c: string)
    requires AllSpace(a) && AllSpace(c) && IsStripped(b) && b != []
    ensures Strip(a + b + c) == b
  {
    var s := a + b + c;
    assert s[|a|] == b[0];
    LeadingSpacesOfPrefix(a, b + c);
    assert s == a + (b + c);
    var t := s[|a|..];
    assert t == b + c;
    TrailingStartOfSuffix(b, c);
  }

  lemma LeadingSpacesOfPrefix(a: string, rest: string)
    requires AllSpace(a)
    requires rest != [] && !IsSpace(rest[0])
    ensures LeadingSpaces(a + rest) == |a|
    decreases |a|
  {
    if |a| > 0 {
      assert (a + rest)[1..] == a[1..] + rest;
      LeadingSpacesOfPrefix(a[1..], rest);
    } else {
      assert a + rest == rest;
    }
  }

  lemma TrailingStartOfSuffix(b: string, c: string)
    requires AllSpace(c)
    requires b != [] && !IsSpace(b[|b| - 1])
    ensures TrailingStart(b + c) == |b|
    decreases |c|
  {
    if |c| > 0 {
      assert (b + c)[..|b + c| - 1] == b + c[..|c| - 1];
      TrailingStartOfSuffix(b, c[..|c| - 1]);
    } else {
      assert b + c == b;
    }
  }

  /**
   * The whitespace `int()` skips around its literal. It turns every non-ASCII
   * `isspace` character into a space but keeps ASCII characters as they are,
   * and then skips only space and `\t` to `\r`. So the separators U+1C to
   * U+1F, which `strip()` removes, are not skipped.
   */
  predicate IsIntSpace(c: char) {
    IsSpace(c) && !('\U{1C}' <= c <= '\U{1F}')
  }

  predicate IsIntStripped(s: string) {
    |s| == 0 || (!IsIntSpace(s[0]) && !IsIntSpace(s[|s| - 1]))
  }

  predicate AllIntSpace(s: string) {
    forall k :: 0 <= k < |s| ==> IsIntSpace(s[k])
  }

  /** Length of the run at the start of `s` that `int()` skips. */
  function IntLeading(s: string): (n: nat)
    ensures n <= |s|
    ensures AllIntSpace(s[..n])
    ensures n < |s| ==> !IsIntSpace(s[n])
  {
    if |s| > 0 && IsIntSpace(s[0]) then 1 + IntLeading(s[1..]) else 0
  }

  /** Index where the run at the end of `s` that `int()` skips starts. */
  function IntTrailingStart(s: string): (m: nat)
    ensures m <= |s|
    ensures AllIntSpace(s[m..])
    ensures 0 < m ==> !IsIntSpace(s[m - 1])
  {
    if |s| > 0 && IsIntSpace(s[|s| - 1]) then
      var m := IntTrailingStart(s[..|s| - 1]);
      assert s[m..] == s[..|s| - 1][m..] + [s[|s| - 1]];
      m
    else |s|
  }

  /** The literal `int(s)` reads: `s` without the whitespace `int()` skips at either end. */
  function IntLiteral(s: string): (r: string)
    ensures IsIntStripped(r)
    ensures IntLeading(s) + |r| <= |s|
    ensures r == s[IntLeading(s)..IntLeading(s) + |r|]
    ensures AllIntSpace(s[IntLeading(s) + |r|..])
  {
    var t := s[IntLeading(s)..];
    t[..IntTrailingStart(t)]
  }

  /** Text `strip()` has already trimmed is read by `int()` as it is. */
  lemma IntLiteralOfStripped(s: string)
    requires IsStripped(s)
    ensures IntLiteral(s) == s
  {
    assert IntLeading(s) == 0;
    assert IntTrailingStart(s) == |s|;
  }

  // ---------------------------------------------------------------------------
  // split(sep) and join
  // ---------------------------------------------------------------------------

  /** Index of the first `c` in `s`, or `|s|` when there is none. */
  function IndexOf(s: string, c: char): (i: nat)
    ensures i <= |s|
    ensures c !in s[..i]
    ensures i < |s| ==> s[i] == c
  {
    if |s| == 0 || s[0] == c then 0 else 1 + IndexOf(s[1..], c)
  }

  /** `s.split(sep)` for a one-character separator: never empty, and no part holds `sep`. */
  function Split(s: string, sep: char): (parts: seq<string>)
    ensures |parts| >= 1
    ensures forall k :: 0 <= k < |parts| ==> sep !in parts[k]
    decreases |s|
  {
    var i := IndexOf(s, sep);
    if i == |s| then [s] else [s[..i]] + Split(s[i + 1..], sep)
  }

  /** `sep.join(parts)` for a one-character separator. */
  function Join(parts: seq<string>, sep: char): string
  {
    if |parts| == 0 then ""
    else if |parts| == 1 then parts[0]
    else parts[0] + [sep] + Join(parts[1..], sep)
  }

  lemma IndexOfAbsent(a: string, c: char)
    requires c !in a
    ensures IndexOf(a, c) == |a|
  {
    if |a| > 0 { assert a[0] in a; IndexOfAbsent(a[1..], c); }
  }

  lemma IndexOfFirst(a: string, c: char, b: string)
    requires c !in a
    ensures IndexOf(a + [c] + b, c) == |a|
  {
    if |a| > 0 {
      assert a[0] in a;
      assert (a + [c] + b)[1..] == a[1..] + [c] + b;
      IndexOfFirst(a[1..], c, b);
    }
  }

  /** A text without the separator splits into itself. */
  lemma SplitAbsent(a: string, sep: char)
    requires sep !in a
    ensures Split(a, sep) == [a]
  {
    IndexOfAbsent(a, sep);
  }

  /** Splitting peels off the text before the first separator. */
  lemma SplitFirst(a: string, sep: char, b: string)
    requires sep !in a
    ensures Split(a + [sep] + b, sep) == [a] + Split(b, sep)
  {
    var s := a + [sep] + b;
    IndexOfFirst(a, sep, b);
    assert s[..|a|] == a;
    assert s[|a| + 1..] == b;
  }

  /** Joining the parts of a split restores the text. */
  lemma {:induction false} JoinSplit(s: string, sep: char)
    ensures Join(Split(s, sep), sep) == s
    decreases |s|
  {
    var i := IndexOf(s, sep);
    if i < |s| {
      var a, b := s[..i], s[i + 1..];
      SplitUnfold(s, sep);
      JoinSplit(b, sep);
      JoinCons(a, Split(b, sep), sep);
      Around(s, i);
    }
  }

  lemma SplitUnfold(s: string, sep: char)
    requires IndexOf(s, sep) < |s|
    ensures Split(s, sep) == [s[..IndexOf(s, sep)]] + Split(s[IndexOf(s, sep) + 1..], sep)
  {
  }

  lemma Around<T>(s: seq<T>, i: nat)
    requires i < |s|
    ensures s == s[..i] + [s[i]] + s[i + 1..]
  {
  }

  lemma JoinCons(a: string, rest: seq<string>, sep: char)
    requires |rest| >= 1
    ensures Join([a] + rest, sep) == a + [sep] + Join(rest, sep)
  {
    assert ([a] + rest)[1..] == rest;
  }

  /** Splitting a join of separator-free parts gives the parts back. */
  lemma {:induction false} SplitJoin(parts: seq<string>, sep: char)
    requires |parts| >= 1
    requires forall k :: 0 <= k < |parts| ==> sep !in parts[k]
    ensures Split(Join(parts, sep), sep) == parts
  {
    if |parts| == 1 {
      SplitAbsent(parts[0], sep);
    } else {
      SplitJoin(parts[1..], sep);
      SplitFirst(parts[0], sep, Join(parts[1..], sep));
      assert parts == [parts[0]] + parts[1..];
    }
  }

  /** Splitting at one separator splits each side independently. */
  lemma {:induction false} SplitConcat(a: string, sep: char, b: string)
    ensures Split(a + [sep] + b, sep) == Split(a, sep) + Split(b, sep)
    decreases |a|
  {
    var i := IndexOf(a, sep);
    if i == |a| {
      SplitAbsent(a, sep);
      SplitFirst(a, sep, b);
    } else {
      var a1, a2 := a[..i], a[i + 1..];
      var rest := a2 + [sep] + b;
      assert Split(a, sep) == [a1] + Split(a2, sep) by {
        SplitAtFirst(a, sep);
      }
      assert Split(a + [sep] + b, sep) == [a1] + Split(rest, sep) by {
        SplitAtFirst(a, sep);
        assert a + [sep] + b == a1 + [sep] + rest;
        SplitFirst(a1, sep, rest);
      }
      SplitConcat(a2, sep, b);
      AppendAssoc([a1], Split(a2, sep), Split(b, sep));
    }
  }

  lemma AppendAssoc<T>(x: seq<T>, y: seq<T>, z: seq<T>)
    ensures x + (y + z) == (x + y) + z
  {
  }

  /** Dropping the first and the last element of `[a] + x + [b]` leaves `x`. */
  lemma Middle<T>(a: T, x: seq<T>, b: T)
    ensures var s := [a] + x + [b]; |s| == |x| + 2 && s[1..|s| - 1] == x
  {
  }

  /** Without its last element, a sequence extended by one is the original. */
  lemma DropAppended<T>(a: seq<T>, b: seq<T>)
    requires |b| > 0
    ensures (a + b)[..|a + b| - 1] == a + b[..|b| - 1]
    ensures (a + b)[|a + b| - 1] == b[|b| - 1]
  {
  }

  /** A text holding the separator is the part before it, the separator, and the rest. */
  lemma SplitAtFirst(a: string, sep: char)
    requires IndexOf(a, sep) < |a|
    ensures var i := IndexOf(a, sep);
      && a == a[..i] + [sep] + a[i + 1..] && sep !in a[..i]
      && Split(a, sep) == [a[..i]] + Split(a[i + 1..], sep)
  {
    Around(a, IndexOf(a, sep));
  }

  /** Joining two non-empty lists puts one separator between their joins. */
  lemma {:induction false} JoinConcat(a: seq<string>, b: seq<string>, sep: char)
    requires |a| >= 1 && |b| >= 1
    ensures Join(a + b, sep) == Join(a, sep) + [sep] + Join(b, sep)
  {
    if |a| == 1 {
      assert (a + b)[1..] == b;
    } else {
      assert (a + b)[1..] == a[1..] + b;
      JoinConcat(a[1..], b, sep);
    }
  }

  /** Cutting separator-free parts after `m` of them cuts their join at one separator, and each side splits back. */
  lemma JoinCut(parts: seq<string>, m: nat, sep: char)
    requires 1 <= m < |parts|
    requires forall k :: 0 <= k < |parts| ==> sep !in parts[k]
    ensures Join(parts, sep) == Join(Take(parts, m), sep) + [sep] + Join(DropFrom(parts, m), sep)
    ensures Split(Join(Take(parts, m), sep), sep) == Take(parts, m)
    ensures Split(Join(DropFrom(parts, m), sep), sep) == DropFrom(parts, m)
  {
    var a, b := Take(parts, m), DropFrom(parts, m);
    assert a == parts[..m] && b == parts[m..];
    assert a + b == parts;
    JoinConcat(a, b, sep);
    assert forall k :: 0 <= k < |a| ==> a[k] == parts[k];
    SplitJoin(a, sep);
    assert forall k :: 0 <= k < |b| ==> b[k] == parts[m + k];
    SplitJoin(b, sep);
  }

  /** Cutting a text after its first `m` pieces: the text is the first pieces joined, the separator and the rest joined. */
  lemma SplitCut(s: string, m: nat, sep: char)
    requires 1 <= m < |Split(s, sep)|
    ensures var parts := Split(s, sep);
      var shown, rest := Join(Take(parts, m), sep), Join(DropFrom(parts, m), sep);
      && s == shown + [sep] + rest
      && Split(shown, sep) == Take(parts, m)
      && |Split(rest, sep)| == |parts| - m
  {
    JoinCut(Split(s, sep), m, sep);
    JoinSplit(s, sep);
  }

  /** A character that is no part's and not the separator is not in the join. */
  lemma {:induction false} JoinLacks(parts: seq<string>, sep: char, c: char)
    requires c != sep && forall k :: 0 <= k < |parts| ==> c !in parts[k]
    ensures c !in Join(parts, sep)
    decreases |parts|
  {
    if |parts| > 1 {
      JoinLacks(parts[1..], sep, c);
      assert parts == [parts[0]] + parts[1..];
      JoinCons(parts[0], parts[1..], sep);
    }
  }

  /** A join starts with the first part's first character. */
  lemma JoinFirst(parts: seq<string>, sep: char)
    requires |parts| >= 1 && parts[0] != ""
    ensures Join(parts, sep) != "" && Join(parts, sep)[0] == parts[0][0]
  {
  }

  /** A join ends with the last part's last character. */
  lemma JoinLast(parts: seq<string>, sep: char)
    requires |parts| >= 1 && parts[|parts| - 1] != ""
    ensures var j := Join(parts, sep); j != "" && j[|j| - 1] == parts[|parts| - 1][|parts[|parts| - 1]| - 1]
  {
    if |parts| > 1 {
      var init := parts[..|parts| - 1];
      JoinConcat(init, [parts[|parts| - 1]], sep);
      assert init + [parts[|parts| - 1]] == parts;
    }
  }

  // ---------------------------------------------------------------------------
  // Slicing, membership, prefixes
  // ---------------------------------------------------------------------------

  /** `s[:n]`, including Python's meaning of a negative `n` (drop `-n` from the end). */
  function Take<T>(s: seq<T>, n: int): (r: seq<T>)
    ensures |r| <= |s| && r == s[..|r|]
    ensures 0 <= n ==> |r| == (if n <= |s| then n else |s|)
    ensures n < 0 ==> |r| == (if -n <= |s| then |s| + n else 0)
  {
    if 0 <= n then (if n <= |s| then s[..n] else s)
    else (if -n <= |s| then s[..|s| + n] else [])
  }

  /** `s[n:]` for a non-negative `n`. */
  function DropFrom<T>(s: seq<T>, n: nat): (r: seq<T>)
    ensures |r| == (if n <= |s| then |s| - n else 0)
    ensures forall k :: 0 <= k < |r| ==> r[k] == s[n + k]
  {
    if n <= |s| then s[n..] else []
  }

  /** `sub in s` for strings. */
  predicate Contains(s: string, sub: string)
    decreases |s|
  {
    StartsWith(s, sub) || (|s| > 0 && Contains(s[1..], sub))
  }

  /** A text without the character `c` contains no string holding `c`. */
  lemma {:induction false} AbsentNotContained(s: string, sub: string, c: char)
    requires c in sub && c !in s
    ensures !Contains(s, sub)
    decreases |s|
  {
    if |s| > 0 {
      AbsentNotContained(s[1..], sub, c);
    }
  }

  /** `s.endswith(suffix)` */
  predicate EndsWith(s: string, suffix: string) {
    |suffix| <= |s| && s[|s| - |suffix|..] == suffix
  }

  /** The last `n` characters of `x + t` are the last `n` of `t`. */
  lemma EndOfAppended(x: string, t: string, n: nat)
    requires n <= |t|
    ensures (x + t)[|x + t| - n..] == t[|t| - n..]
  {
  }

  /** `s.startswith(p)` */
  predicate StartsWith(s: string, p: string) {
    |p| <= |s| && s[..|p|] == p
  }

  /** The two halves of a concatenation are recovered by slicing it. */
  lemma CutAppended<T>(a: seq<T>, b: seq<T>)
    ensures (a + b)[..|a|] == a && (a + b)[|a|..] == b
  {
  }

  /** Equal sequences with equal surroundings have equal middles. */
  lemma CancelAround<T>(a: seq<T>, x: seq<T>, y: seq<T>, b: seq<T>)
    requires a + x + b == a + y + b
    ensures x == y
  {
    assert x == (a + x + b)[|a|..|a| + |x|];
    assert y == (a + y + b)[|a|..|a| + |y|];
  }

  /** `sub` occurs in `s` when it starts at some position. */
  lemma {:induction false} ContainsAt(s: string, at: nat, sub: string)
    requires at <= |s| && StartsWith(s[at..], sub)
    ensures Contains(s, sub)
    decreases at
  {
    if at > 0 {
      assert s[1..][at - 1..] == s[at..];
      ContainsAt(s[1..], at - 1, sub);
    }
  }

  /** A text contains its own ending. */
  lemma {:induction false} ContainsEnd(a: string, sub: string)
    ensures Contains(a + sub, sub)
    decreases |a|
  {
    if |a| == 0 {
      assert a + sub == sub;
      assert sub[..|sub|] == sub;
    } else {
      assert (a + sub)[1..] == a[1..] + sub;
      ContainsEnd(a[1..], sub);
    }
  }

  /** What a text contains, any extension of it contains. */
  lemma {:induction false} ContainsExtended(s: string, sub: string, more: string)
    requires Contains(s, sub)
    ensures Contains(s + more, sub)
    decreases |s|
  {
    if StartsWith(s, sub) {
      assert (s + more)[..|sub|] == s[..|sub|];
    } else {
      assert (s + more)[1..] == s[1..] + more;
      ContainsExtended(s[1..], sub, more);
    }
  }

  /** What a text starts with, any extension of it starts with. */
  lemma StartsWithExtended(s: string, p: string, more: string)
    requires StartsWith(s, p)
    ensures StartsWith(s + more, p)
  {
    assert (s + more)[..|p|] == s[..|p|];
  }

  /** A text starts with any of its prefixes. */
  lemma StartsWithConcat(p: string, q: string)
    ensures StartsWith(p + q, p)
  {
    assert (p + q)[..|p|] == p;
  }

  /** `[f(x) for x in xs if keep(x)]` */
  function FilterMap<T, U>(xs: seq<T>, keep: T -> bool, f: T -> U): (r: seq<U>)
    ensures |r| <= |xs|
  {
    if |xs| == 0 then []
    else FilterMap(xs[..|xs| - 1], keep, f) + (if keep(xs[|xs| - 1]) then [f(xs[|xs| - 1])] else [])
  }

  /** Appending one element extends the comprehension by at most that element. */
  lemma FilterMapSnoc<T, U>(xs: seq<T>, x: T, keep: T -> bool, f: T -> U)
    ensures FilterMap(xs + [x], keep, f) == FilterMap(xs, keep, f) + (if keep(x) then [f(x)] else [])
  {
    assert (xs + [x])[..|xs|] == xs;
  }

  /** A comprehension over a concatenation is the concatenation of the comprehensions. */
  lemma {:induction false} FilterMapConcat<T, U>(a: seq<T>, b: seq<T>, keep: T -> bool, f: T -> U)
    ensures FilterMap(a + b, keep, f) == FilterMap(a, keep, f) + FilterMap(b, keep, f)
    decreases |b|
  {
    if |b| == 0 {
      assert a + b == a;
    } else {
      assert (a + b)[..|a + b| - 1] == a + b[..|b| - 1];
      FilterMapConcat(a, b[..|b| - 1], keep, f);
    }
  }

  /** Membership in a comprehension, both directions. */
  lemma {:induction false} FilterMapMember<T, U>(xs: seq<T>, keep: T -> bool, f: T -> U, y: U)
    ensures y in FilterMap(xs, keep, f) <==> exists k :: 0 <= k < |xs| && keep(xs[k]) && f(xs[k]) == y
  {
    if |xs| > 0 {
      var init := xs[..|xs| - 1];
      FilterMapMember(init, keep, f, y);
      if exists k :: 0 <= k < |xs| && keep(xs[k]) && f(xs[k]) == y {
        var k :| 0 <= k < |xs| && keep(xs[k]) && f(xs[k]) == y;
        if k < |xs| - 1 { assert init[k] == xs[k]; }
      }
      if exists k :: 0 <= k < |init| && keep(init[k]) && f(init[k]) == y {
        var k :| 0 <= k < |init| && keep(init[k]) && f(init[k]) == y;
        assert xs[k] == init[k];
      }
    }
  }

  /** A comprehension is empty exactly when no element is kept. */
  lemma FilterMapEmpty<T, U>(xs: seq<T>, keep: T -> bool, f: T -> U)
    ensures FilterMap(xs, keep, f) == [] <==> forall k :: 0 <= k < |xs| ==> !keep(xs[k])
  {
    var r := FilterMap(xs, keep, f);
    if r != [] {
      FilterMapMember(xs, keep, f, r[0]);
    }
    if exists k :: 0 <= k < |xs| && keep(xs[k]) {
      var k :| 0 <= k < |xs| && keep(xs[k]);
      FilterMapMember(xs, keep, f, f(xs[k]));
    }
  }

  /** A comprehension keeps every element when `keep` holds throughout. */
  lemma {:induction false} FilterMapAll<T, U>(xs: seq<T>, keep: T -> bool, f: T -> U)
    requires forall k :: 0 <= k < |xs| ==> keep(xs[k])
    ensures |FilterMap(xs, keep, f)| == |xs|
    ensures forall k :: 0 <= k < |xs| ==> FilterMap(xs, keep, f)[k] == f(xs[k])
  {
    if |xs| > 0 {
      FilterMapAll(xs[..|xs| - 1], keep, f);
    }
  }

  // ---------------------------------------------------------------------------
  // Decimal digits: str(int) and int(str)
  // ---------------------------------------------------------------------------

  predicate IsDigit(c: char) {
    '0' <= c <= '9'
  }

  predicate AllDigits(s: string) {
    forall k :: 0 <= k < |s| ==> IsDigit(s[k])
  }

  function DigitChar(d: nat): (c: char)
    requires d < 10
    ensures IsDigit(c)
  {
    ('0' as int + d) as char
  }

  /** The value of a run of decimal digits. */
  function DigitsValue(s: string): nat
    requires AllDigits(s)
  {
    if |s| == 0 then 0 else DigitsValue(s[..|s| - 1]) * 10 + (s[|s| - 1] as int - '0' as int)
  }

  /** `str(n)` for a non-negative `n`: digits whose value is `n`, without leading zeros. */
  function NatToString(n: nat): (s: string)
    ensures |s| >= 1 && AllDigits(s)
    ensures DigitsValue(s) == n
    ensures |s| > 1 ==> s[0] != '0'
  {
    if n < 10 then [DigitChar(n)]
    else
      var h := NatToString(n / 10);
      var s := h + [DigitChar(n % 10)];
      assert s[..|s| - 1] == h;
      s
  }

  /** `str(i)` */
  function IntToString(i: int): (s: string)
    ensures |s| >= 1 && IsStripped(s)
  {
    if i < 0 then "-" + NatToString(-i) else NatToString(i)
  }

  /** `str(i)` holds only digits and a leading minus sign. */
  lemma NumberLacks(i: int, c: char)
    requires c != '-' && !IsDigit(c)
    ensures c !in IntToString(i)
  {
    var d := NatToString(if i < 0 then -i else i);
    assert c !in d by {
      assert forall k :: 0 <= k < |d| ==> IsDigit(d[k]);
    }
  }

  /** The digits of a valid `int()` literal body: digits, single `_` only between digits. */
  predicate IsDigitGroup(s: string) {
    && |s| > 0 && IsDigit(s[0]) && IsDigit(s[|s| - 1])
    && DigitsAndUnderscores(s)
    && forall k :: 0 <= k < |s| - 1 ==> DigitAfterUnderscore(s, k)
  }

  /** A `_` at `k` is followed by a digit. */
  predicate DigitAfterUnderscore(s: string, k: nat)
    requires k + 1 < |s|
  {
    s[k] == '_' ==> IsDigit(s[k + 1])
  }

  predicate DigitsAndUnderscores(s: string) {
    forall k :: 0 <= k < |s| ==> IsDigit(s[k]) || s[k] == '_'
  }

  /** The value of the digits of `s`, skipping its underscores. */
  function GroupedValue(s: string): nat
    requires DigitsAndUnderscores(s)
  {
    if |s| == 0 then 0
    else if s[|s| - 1] == '_' then GroupedValue(s[..|s| - 1])
    else GroupedValue(s[..|s| - 1]) * 10 + (s[|s| - 1] as int - '0' as int)
  }

  /** `int(s)` in base 10: surrounding whitespace, an optional sign, digits
      grouped by single underscores; `None` where Python raises ValueError. */
  function PyInt(s: string): (r: Option<int>)
  {
    SignedInt(IntLiteral(s))
  }

  /** `int()` of an already stripped text: an optional sign, then the digit groups. */
  function SignedInt(t: string): Option<int> {
    if |t| > 0 && (t[0] == '-' || t[0] == '+') then GroupsValue(t[0] == '-', t[1..])
    else GroupsValue(false, t)
  }

  function GroupsValue(negative: bool, body: string): Option<int> {
    if IsDigitGroup(body) then
      var v: int := GroupedValue(body);
      Some(if negative then -v else v)
    else None
  }

  /** Without underscores, the grouped value is the plain digit value. */
  lemma {:induction false} GroupedValueDigits(s: string)
    requires AllDigits(s)
    ensures GroupedValue(s) == DigitsValue(s)
  {
    if |s| > 0 {
      GroupedValueDigits(s[..|s| - 1]);
    }
  }

  /** `int(str(i)) == i`: the two conversions are inverse. */
  lemma PyIntOfIntToString(i: int)
    ensures PyInt(IntToString(i)) == Some(i)
  {
    if i < 0 {
      PyIntNegative(NatToString(-i));
    } else {
      PyIntUnsigned(NatToString(i));
    }
  }

  lemma DigitsAreGroup(d: string)
    requires |d| >= 1 && AllDigits(d)
    ensures IsDigitGroup(d) && GroupedValue(d) == DigitsValue(d)
  {
    GroupedValueDigits(d);
  }

  lemma GroupsOfDigits(negative: bool, d: string)
    requires |d| >= 1 && AllDigits(d)
    ensures GroupsValue(negative, d) == Some(if negative then -(DigitsValue(d) as int) else DigitsValue(d) as int)
  {
    DigitsAreGroup(d);
  }

  lemma DigitsStripped(d: string)
    requires |d| >= 1 && AllDigits(d)
    ensures Strip(d) == d
  {
    assert IsDigit(d[0]) && IsDigit(d[|d| - 1]);
    StripStripped(d);
  }

  lemma PyIntUnsigned(d: string)
    requires |d| >= 1 && AllDigits(d)
    ensures PyInt(d) == Some(DigitsValue(d) as int)
  {
    DigitsStripped(d);
    IntLiteralOfStripped(d);
    assert d[0] != '-' && d[0] != '+' by {
      assert IsDigit(d[0]);
    }
    GroupsOfDigits(false, d);
  }

  lemma PyIntNegative(d: string)
    requires |d| >= 1 && AllDigits(d)
    ensures PyInt("-" + d) == Some(-(DigitsValue(d) as int))
  {
    var s := NegativeStripped(d);
    assert s[1..] == d;
    GroupsOfDigits(true, d);
  }

  lemma NegativeStripped(d: string) returns (s: string)
    requires |d| >= 1 && AllDigits(d)
    ensures s == "-" + d && Strip(s) == s && |s| > 1 && s[0] == '-'
  {
    s := "-" + d;
    assert s[|s| - 1] == d[|d| - 1];
    assert IsDigit(d[|d| - 1]);
    StripStripped(s);
    IntLiteralOfStripped(s);
  }

  /**
   * A separator U+1C to U+1F before the digits makes `int()` fail, although
   * `strip()` removes it; space and a newline around them are skipped.
   */
  lemma PyIntKeepsSeparators(c: char, d: string)
    requires '\U{1C}' <= c <= '\U{1F}'
    requires |d| >= 1 && AllDigits(d)
    ensures PyInt([c] + d) == None
    ensures Strip([c] + d) == d
    ensures PyInt(" " + d + "\n") == Some(DigitsValue(d) as int)
  {
    SeparatorKept(c, d);
    SeparatorStripped(c, d);
    SpacedDigits(d);
  }

  lemma SeparatorKept(c: char, d: string)
    requires '\U{1C}' <= c <= '\U{1F}'
    requires |d| >= 1 && AllDigits(d)
    ensures PyInt([c] + d) == None
  {
    var s := [c] + d;
    assert IsDigit(d[|d| - 1]) && s[|s| - 1] == d[|d| - 1];
    assert IntLeading(s) == 0;
    assert IntTrailingStart(s) == |s|;
  }

  lemma SeparatorStripped(c: char, d: string)
    requires '\U{1C}' <= c <= '\U{1F}'
    requires |d| >= 1 && AllDigits(d)
    ensures Strip([c] + d) == d
  {
    DigitsStripped(d);
    StripSurrounded([c], d, []);
    assert [c] + d + [] == [c] + d;
  }

  lemma SpacedDigits(d: string)
    requires |d| >= 1 && AllDigits(d)
    ensures PyInt(" " + d + "\n") == Some(DigitsValue(d) as int)
  {
    assert IsDigit(d[0]) && IsDigit(d[|d| - 1]);
    IntLiteralSurrounded(" ", d, "\n");
    GroupsOfDigits(false, d);
  }

  /** The whitespace `int()` skips around a trimmed literal is exactly what it removes. */
  lemma IntLiteralSurrounded(a: string, b: string, c: string)
    requires AllIntSpace(a) && AllIntSpace(c) && IsIntStripped(b) && b != []
    ensures IntLiteral(a + b + c) == b
  {
    var s := a + b + c;
    assert s[|a|] == b[0];
    IntLeadingOfPrefix(a, b + c);
    assert s == a + (b + c);
    var t := s[|a|..];
    assert t == b + c;
    IntTrailingStartOfSuffix(b, c);
  }

  lemma IntLeadingOfPrefix(a: string, rest: string)
    requires AllIntSpace(a)
    requires rest != [] && !IsIntSpace(rest[0])
    ensures IntLeading(a + rest) == |a|
    decreases |a|
  {
    if |a| > 0 {
      assert (a + rest)[1..] == a[1..] + rest;
      IntLeadingOfPrefix(a[1..], rest);
    } else {
      assert a + rest == rest;
    }
  }

  lemma IntTrailingStartOfSuffix(b: string, c: string)
    requires AllIntSpace(c)
    requires b != [] && !IsIntSpace(b[|b| - 1])
    ensures IntTrailingStart(b + c) == |b|
    decreases |c|
  {
    if |c| > 0 {
      assert (b + c)[..|b + c| - 1] == b + c[..|c| - 1];
      IntTrailingStartOfSuffix(b, c[..|c| - 1]);
    } else {
      assert b + c == b;
    }
  }
}
