/**
 * The JavaScript string and array built-ins the terminal relies on, written
 * out with the semantics the script uses them with: `toLowerCase`, `trim`,
 * `indexOf`, `lastIndexOf`, `split(' ')`, `join(' ')`, `startsWith`,
 * `Array.filter`, de-duplication through an insertion-ordered `Set`, and the
 * removal of a trailing `.txt`.
 */
module Text {

  /** An ASCII upper-case letter. */
  predicate IsUpper(c: char) {
    'A' <= c <= 'Z'
  }

  /** An upper-case ASCII letter moves 32 code points down to its lower-case letter; anything else stays. */
  function LowerChar(c: char): (r: char)
    ensures !IsUpper(r)
    ensures !IsUpper(c) ==> r == c
    ensures IsUpper(c) ==> r as int == c as int + 32 && 'a' <= r <= 'z'
  {
    if IsUpper(c) then (c as int + 32) as char else c
  }

  /** `s.toLowerCase()`, restricted to the ASCII letters. */
  function Lower(s: string): (r: string)
    ensures |r| == |s|
    ensures forall i :: 0 <= i < |r| ==> !IsUpper(r[i])
    ensures forall i :: 0 <= i < |s| && !IsUpper(s[i]) ==> r[i] == s[i]
    ensures forall i :: 0 <= i < |s| && IsUpper(s[i]) ==> r[i] as int == s[i] as int + 32
  {
    seq(|s|, i requires 0 <= i < |s| => LowerChar(s[i]))
  }

  predicate IsLowerCase(s: string) {
    forall i :: 0 <= i < |s| ==> !IsUpper(s[i])
  }

  lemma LowerOfLowerCase(s: string)
    requires IsLowerCase(s)
    ensures Lower(s) == s
  {
  }

  lemma LowerIdempotent(s: string)
    ensures Lower(Lower(s)) == Lower(s)
  {
    LowerOfLowerCase(Lower(s));
  }

  /** The characters `String.prototype.trim` removes: white space and line terminators. */
  predicate IsJsWhitespace(c: char) {
    var n := c as int;
    (0x09 <= n <= 0x0D) || n == 0x20 || n == 0xA0 || n == 0x1680 || (0x2000 <= n <= 0x200A)
    || (0x2028 <= n <= 0x2029) || n == 0x202F || n == 0x205F || n == 0x3000 || n == 0xFEFF
  }

  /** How many characters from the start of `s` satisfy `p`, up to the first that does not. */
  function LeadingRun(s: string, p: char -> bool): (n: nat)
    ensures n <= |s|
    ensures forall i :: 0 <= i < n ==> p(s[i])
    ensures n < |s| ==> !p(s[n])
  {
    if |s| > 0 && p(s[0]) then
      var n := LeadingRun(s[1..], p);
      assert forall i :: 1 <= i <= n ==> s[i] == s[1..][i - 1];
      n + 1
    else 0
  }

  /** How many characters from the end of `s` satisfy `p`, back to the last that does not. */
  function TrailingRun(s: string, p: char -> bool): (n: nat)
    ensures n <= |s|
    ensures forall i :: |s| - n <= i < |s| ==> p(s[i])
    ensures n < |s| ==> !p(s[|s| - n - 1])
  {
    if |s| > 0 && p(s[|s| - 1]) then
      var n := TrailingRun(s[..|s| - 1], p);
      assert forall i :: 0 <= i < |s| - 1 ==> s[i] == s[..|s| - 1][i];
      n + 1
    else 0
  }

  /** `s` without its leading and trailing runs of characters satisfying `p`. */
  function Strip(s: string, p: char -> bool): (r: string)
    ensures LeadingRun(s, p) + |r| <= |s|
    ensures r == s[LeadingRun(s, p)..LeadingRun(s, p) + |r|]
    ensures forall i :: 0 <= i < LeadingRun(s, p) ==> p(s[i])
    ensures forall i :: LeadingRun(s, p) + |r| <= i < |s| ==> p(s[i])
    ensures r == [] || (!p(r[0]) && !p(r[|r| - 1]))
  {
    var a := LeadingRun(s, p);
    var b := TrailingRun(s[a..], p);
    StripBounds(s, p, a, b);
    s[a..|s| - b]
  }

  /** The trailing run of `s[a..]`, located in `s`. */
  lemma StripBounds(s: string, p: char -> bool, a: nat, b: nat)
    requires a <= |s| && b <= |s| - a
    requires forall i :: |s| - a - b <= i < |s| - a ==> p(s[a..][i])
    requires b < |s| - a ==> !p(s[a..][|s| - a - b - 1])
    ensures forall i :: |s| - b <= i < |s| ==> p(s[i])
    ensures a < |s| - b ==> !p(s[|s| - b - 1])
  {
    forall i | |s| - b <= i < |s| ensures p(s[i]) {
      assert s[i] == s[a..][i - a];
    }
  }

  /** How many leading white-space characters `trim` drops. */
  function TrimOffset(s: string): (n: nat)
    ensures n <= |s|
  {
    LeadingRun(s, IsJsWhitespace)
  }

  /**
   * `s.trim()`: the infix of `s` that starts at its first and ends at its last
   * non-white-space character; everything around it is white space.
   */
  function Trim(s: string): (r: string)
    ensures TrimOffset(s) + |r| <= |s|
    ensures r == s[TrimOffset(s)..TrimOffset(s) + |r|]
    ensures forall i :: 0 <= i < TrimOffset(s) ==> IsJsWhitespace(s[i])
    ensures forall i :: TrimOffset(s) + |r| <= i < |s| ==> IsJsWhitespace(s[i])
    ensures r == [] || (!IsJsWhitespace(r[0]) && !IsJsWhitespace(r[|r| - 1]))
  {
    Strip(s, IsJsWhitespace)
  }

  /** `s.indexOf(c)` for a one-character needle: the first position of `c`, or -1. */
  function IndexOf(s: string, c: char): (k: int)
    ensures -1 <= k < |s|
    ensures k == -1 <==> c !in s
    ensures k >= 0 ==> s[k] == c && c !in s[..k]
  {
    if |s| == 0 then -1
    else if s[0] == c then 0
    else
      var k := IndexOf(s[1..], c);
      assert s[1..][..if k < 0 then 0 else k] == s[1..if k < 0 then 1 else k + 1];
      if k == -1 then -1 else k + 1
  }

  /** `s.lastIndexOf(c)` for a one-character needle: the last position of `c`, or -1. */
  function LastIndexOf(s: string, c: char): (k: int)
    ensures -1 <= k < |s|
    ensures k >= 0 ==> s[k] == c
    ensures forall j :: k < j < |s| ==> s[j] != c
  {
    if |s| == 0 then -1
    else if s[|s| - 1] == c then |s| - 1
    else
      var k := LastIndexOf(s[..|s| - 1], c);
      assert forall j :: 0 <= j < |s| - 1 ==> s[..|s| - 1][j] == s[j];
      k
  }

  /** The first position of `x` in `s`, or -1 (a lookup by key in document order). */
  function Position(s: seq<string>, x: string): (k: int)
    ensures -1 <= k < |s|
    ensures k == -1 <==> x !in s
    ensures k >= 0 ==> s[k] == x && x !in s[..k]
  {
    if |s| == 0 then -1
    else if s[0] == x then 0
    else
      var k := Position(s[1..], x);
      assert s[1..][..if k < 0 then 0 else k] == s[1..if k < 0 then 1 else k + 1];
      if k == -1 then -1 else k + 1
  }

  /** A position holding `x` with no `x` before it is `x`'s first position. */
  lemma PositionAt(s: seq<string>, x: string, k: nat)
    requires k < |s| && s[k] == x && x !in s[..k]
    ensures Position(s, x) == k
  {
  }

  /** Appending an element moves no earlier first position, and a new element lands at the end. */
  lemma PositionSnoc(s: seq<string>, x: string, y: string)
    ensures y in s ==> Position(s + [x], y) == Position(s, y)
    ensures x !in s ==> Position(s + [x], x) == |s|
  {
    if y in s {
      var p := Position(s, y);
      assert (s + [x])[..p] == s[..p];
      PositionAt(s + [x], y, p);
    }
    if x !in s {
      assert (s + [x])[..|s|] == s;
      PositionAt(s + [x], x, |s|);
    }
  }

  /** In a sequence without duplicates, an element's first position is its only one. */
  lemma PositionOfDistinct(s: seq<string>, k: nat)
    requires Distinct(s) && k < |s|
    ensures Position(s, s[k]) == k
  {
    var p := Position(s, s[k]);
    assert p <= k by {
      assert s[k] in s[..k + 1];
    }
  }

  /** `s.split(sep)` for a one-character separator: never empty, no piece holds `sep`. */
  function Split(s: string, sep: char): (parts: seq<string>)
    ensures |parts| >= 1
    ensures forall i :: 0 <= i < |parts| ==> sep !in parts[i]
    decreases |s|
  {
    var k := IndexOf(s, sep);
    if k == -1 then [s] else [s[..k]] + Split(s[k + 1..], sep)
  }

  /** `parts.join(sep)`; the empty array joins to the empty string. */
  function Join(parts: seq<string>, sep: char): string
  {
    if |parts| == 0 then ""
    else if |parts| == 1 then parts[0]
    else parts[0] + [sep] + Join(parts[1..], sep)
  }

  /** A position holding `c` with no `c` before it is the first one. */
  lemma IndexOfAt(s: string, c: char, k: nat)
    requires k < |s| && s[k] == c
    requires forall j :: 0 <= j < k ==> s[j] != c
    ensures IndexOf(s, c) == k
  {
  }

  /** Splitting a join of separator-free pieces gives back the pieces. */
  lemma {:induction false} SplitJoin(parts: seq<string>, sep: char)
    requires |parts| >= 1
    requires forall i :: 0 <= i < |parts| ==> sep !in parts[i]
    ensures Split(Join(parts, sep), sep) == parts
    decreases |parts|
  {
    if |parts| > 1 {
      var head := parts[0];
      var rest := Join(parts[1..], sep);
      SplitJoin(parts[1..], sep);
      var s := head + [sep] + rest;
      assert Join(parts, sep) == s;
      IndexOfAt(s, sep, |head|);
      assert s[..|head|] == head;
      assert s[|head| + 1..] == rest;
      assert Split(s, sep) == [head] + Split(rest, sep);
      assert parts == [head] + parts[1..];
    } else {
      assert IndexOf(parts[0], sep) == -1;
      assert Join(parts, sep) == parts[0];
    }
  }

  /** Concatenation regroups freely. */
  lemma ConcatAssoc<T>(x: seq<T>, y: seq<T>, z: seq<T>)
    ensures x + (y + z) == (x + y) + z
  {
  }

  /** The head and the tail of a concatenation whose first part is not empty. */
  lemma ConcatTail<T>(a: seq<T>, b: seq<T>)
    requires |a| > 0
    ensures (a + b)[0] == a[0] && (a + b)[1..] == a[1..] + b
  {
  }

  /** The elements of a sequence pairwise distinct. */
  predicate Distinct<T(==)>(s: seq<T>) {
    forall i, j :: 0 <= i < j < |s| ==> s[i] != s[j]
  }

  /** The elements of `s` passed through a `Set`: the first occurrence of each, in order. */
  function Dedupe(s: seq<string>): (r: seq<string>)
    ensures Distinct(r)
    ensures forall x :: x in r <==> x in s
    ensures |r| <= |s|
  {
    if |s| == 0 then []
    else
      var r := Dedupe(s[..|s| - 1]);
      assert forall x :: x in s <==> x in s[..|s| - 1] || x == s[|s| - 1] by {
        assert s == s[..|s| - 1] + [s[|s| - 1]];
      }
      if s[|s| - 1] in r then r else r + [s[|s| - 1]]
  }

  /**
   * The de-duplicated sequence lists the elements in the order of their first
   * occurrence, as a `Set` iterates in insertion order. With `Distinct` and the
   * membership clause this fixes `Dedupe(s)` completely.
   */
  lemma {:induction false} DedupeFirstOrder(s: seq<string>)
    ensures forall i, j :: 0 <= i < j < |Dedupe(s)| ==> Position(s, Dedupe(s)[i]) < Position(s, Dedupe(s)[j])
  {
    if |s| > 0 {
      var t, x := s[..|s| - 1], s[|s| - 1];
      assert s == t + [x];
      DedupeFirstOrder(t);
      DedupeOrderStep(t, x);
    }
  }

  lemma DedupeOrderStep(t: seq<string>, x: string)
    requires forall i, j :: 0 <= i < j < |Dedupe(t)| ==> Position(t, Dedupe(t)[i]) < Position(t, Dedupe(t)[j])
    ensures forall i, j :: 0 <= i < j < |Dedupe(t + [x])| ==>
      Position(t + [x], Dedupe(t + [x])[i]) < Position(t + [x], Dedupe(t + [x])[j])
  {
    DedupeSnoc(t, x);
    OrderSnoc(t, x, Dedupe(t));
  }

  /** The last step of `Dedupe`: a new element is added at the end, a repeated one is dropped. */
  lemma DedupeSnoc(t: seq<string>, x: string)
    ensures Dedupe(t + [x]) == if x in t then Dedupe(t) else Dedupe(t) + [x]
  {
    assert (t + [x])[..|t|] == t;
  }

  /** The induction step of `DedupeFirstOrder`. */
  lemma OrderSnoc(t: seq<string>, x: string, r: seq<string>)
    requires forall y :: y in r ==> y in t
    requires forall i, j :: 0 <= i < j < |r| ==> Position(t, r[i]) < Position(t, r[j])
    ensures var d := if x in t then r else r + [x];
      forall i, j :: 0 <= i < j < |d| ==> Position(t + [x], d[i]) < Position(t + [x], d[j])
  {
    var d := if x in t then r else r + [x];
    forall i, j | 0 <= i < j < |d| ensures Position(t + [x], d[i]) < Position(t + [x], d[j]) {
      assert d[i] == r[i] && r[i] in t;
      PositionSnoc(t, x, d[i]);
      if j < |r| {
        assert d[j] == r[j] && r[j] in t;
        PositionSnoc(t, x, d[j]);
      } else {
        PositionSnoc(t, x, x);
      }
    }
  }

  /**
   * The concatenation of `a` and `b` passed through a `Set`: the names of both
   * once each, in the order they first appear in `a + b`, so every name of `a`
   * comes before any name that only `b` has.
   */
  function OrderedUnion(a: seq<string>, b: seq<string>): (u: seq<string>)
    ensures Distinct(u)
    ensures forall x :: x in u <==> x in a || x in b
    ensures forall i, j :: 0 <= i < j < |u| && u[j] in a ==> u[i] in a
  {
    FirstPartFirst(a, b);
    Dedupe(a + b)
  }

  /** The union lists its names in the order of their first occurrence in `a + b`. */
  lemma OrderedUnionOrder(a: seq<string>, b: seq<string>)
    ensures forall i, j :: 0 <= i < j < |OrderedUnion(a, b)| ==>
      Position(a + b, OrderedUnion(a, b)[i]) < Position(a + b, OrderedUnion(a, b)[j])
  {
    DedupeFirstOrder(a + b);
  }

  lemma FirstPartFirst(ids: seq<string>, names: seq<string>)
    ensures forall i, j :: 0 <= i < j < |Dedupe(ids + names)| && Dedupe(ids + names)[j] in ids ==>
      Dedupe(ids + names)[i] in ids
  {
    var all := ids + names;
    var pool := Dedupe(all);
    DedupeFirstOrder(all);
    forall i, j | 0 <= i < j < |pool| && pool[j] in ids ensures pool[i] in ids {
      var q := Position(all, pool[j]);
      assert q < |ids| by {
        var m := Position(ids, pool[j]);
        assert all[m] == pool[j];
      }
      var p := Position(all, pool[i]);
      assert all[p] == ids[p];
    }
  }

  /** Removing duplicates from a duplicate-free sequence changes nothing. */
  lemma {:induction false} DedupeOfDistinct(s: seq<string>)
    requires Distinct(s)
    ensures Dedupe(s) == s
  {
    if |s| > 0 {
      DedupeOfDistinct(s[..|s| - 1]);
      assert s == s[..|s| - 1] + [s[|s| - 1]];
    }
  }

  /** The names of `pool` that start with `token`, in the pool's order. */
  function FilterPrefix(pool: seq<string>, token: string): (r: seq<string>)
    ensures forall x :: x in r <==> x in pool && token <= x
    ensures |r| <= |pool|
    ensures Distinct(pool) ==> Distinct(r)
  {
    if |pool| == 0 then []
    else
      var rest := FilterPrefix(pool[1..], token);
      assert forall x :: x in pool <==> x == pool[0] || x in pool[1..];
      assert Distinct(pool) ==> pool[0] !in pool[1..];
      if token <= pool[0] then [pool[0]] + rest else rest
  }

  /**
   * Filtering distributes over concatenation, so the kept names stay in the
   * pool's order: filtering `a + b` keeps `a`'s names first, then `b`'s.
   */
  lemma {:induction false} FilterPrefixAppend(a: seq<string>, b: seq<string>, token: string)
    ensures FilterPrefix(a + b, token) == FilterPrefix(a, token) + FilterPrefix(b, token)
  {
    if |a| == 0 {
      assert a + b == b;
    } else {
      var h := if token <= a[0] then [a[0]] else [];
      ConcatTail(a, b);
      assert FilterPrefix(a + b, token) == h + FilterPrefix(a[1..] + b, token);
      FilterPrefixAppend(a[1..], b, token);
      assert FilterPrefix(a, token) == h + FilterPrefix(a[1..], token);
      ConcatAssoc(h, FilterPrefix(a[1..], token), FilterPrefix(b, token));
    }
  }

  /** A filter that keeps exactly one element of the pool yields just that element. */
  lemma {:induction false} FilterPrefixSingle(pool: seq<string>, token: string, i: nat)
    requires i < |pool| && token <= pool[i]
    requires forall j :: 0 <= j < |pool| && j != i ==> !(token <= pool[j])
    ensures FilterPrefix(pool, token) == [pool[i]]
  {
    if i > 0 {
      FilterPrefixSingle(pool[1..], token, i - 1);
    } else {
      FilterPrefixNone(pool[1..], token);
    }
  }

  /** A filter that keeps nothing yields the empty sequence. */
  lemma {:induction false} FilterPrefixNone(pool: seq<string>, token: string)
    requires forall j :: 0 <= j < |pool| ==> !(token <= pool[j])
    ensures FilterPrefix(pool, token) == []
  {
    if |pool| > 0 {
      FilterPrefixNone(pool[1..], token);
    }
  }

  /** Drops one trailing `.txt`, in any letter case, as the case-insensitive suffix pattern does. */
  function StripTxtSuffix(s: string): (r: string)
    ensures r <= s
    ensures r == s || |r| == |s| - 4
    ensures r != s <==> |s| >= 4 && Lower(s[|s| - 4..]) == ".txt"
  {
    if |s| >= 4 && Lower(s[|s| - 4..]) == ".txt" then s[..|s| - 4] else s
  }
}
