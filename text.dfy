/** Python string operations used by the modelled code: `lower`, `startswith`,
    `split` on one character, `join`, `count`, `replace`, decimal `str` of an
    integer, and slicing with Python's index clamping. `lower` and the regular
    expression class `\w` are modelled for ASCII (see README). */
module Text {

  predicate IsUpper(c: char) { 'A' <= c <= 'Z' }

  function LowerChar(c: char): char {
    if IsUpper(c) then (c as int + 32) as char else c
  }

  /** `str.lower()` on ASCII letters; other characters are kept. */
  function Lower(s: string): (r: string)
    ensures |r| == |s|
    ensures forall i :: 0 <= i < |s| ==> r[i] == LowerChar(s[i])
    ensures forall i :: 0 <= i < |r| ==> !IsUpper(r[i])
  {
    if s == [] then [] else [LowerChar(s[0])] + Lower(s[1..])
  }

  predicate StartsWith(s: string, prefix: string) {
    |prefix| <= |s| && s[..|prefix|] == prefix
  }

  /** `str.split(sep)` for a one-character separator: always at least one part. */
  function SplitOn(s: string, sep: char): (parts: seq<string>)
    ensures |parts| >= 1
    ensures forall i :: 0 <= i < |parts| ==> sep !in parts[i]
    decreases |s|
  {
    if s == [] then [""]
    else
      var rest := SplitOn(s[1..], sep);
      if s[0] == sep then [""] + rest
      else [[s[0]] + rest[0]] + rest[1..]
  }

  /** `sep.join(parts)`. */
  function Join(parts: seq<string>, sep: string): string
  {
    if parts == [] then ""
    else if |parts| == 1 then parts[0]
    else parts[0] + sep + Join(parts[1..], sep)
  }

  lemma {:induction false} JoinSplit(s: string, sep: char)
    ensures Join(SplitOn(s, sep), [sep]) == s
    decreases |s|
  {
    if s != [] {
      var rest := SplitOn(s[1..], sep);
      JoinSplit(s[1..], sep);
      if s[0] == sep {
        assert SplitOn(s, sep) == [""] + rest;
        assert ([""] + rest)[1..] == rest;
      } else {
        var parts := SplitOn(s, sep);
        assert parts == [[s[0]] + rest[0]] + rest[1..];
        if |rest| == 1 {
          assert Join(rest, [sep]) == rest[0];
        } else {
          assert parts[1..] == rest[1..];
          assert Join(rest, [sep]) == rest[0] + [sep] + Join(rest[1..], [sep]);
        }
      }
    }
  }

  lemma {:induction false} SplitNoSep(s: string, sep: char)
    requires sep !in s
    ensures SplitOn(s, sep) == [s]
    decreases |s|
  {
    if s != [] {
      assert sep !in s[1..] by { forall c | c in s[1..] ensures c != sep { assert c in s; } }
      SplitNoSep(s[1..], sep);
      assert [s[0]] + s[1..] == s;
    }
  }

  /** `SplitOn` unfolded once on a sequence given by its head and tail. */
  lemma SplitOnHead(c: char, t: string, sep: char)
    ensures SplitOn([c] + t, sep) ==
      if c == sep then [""] + SplitOn(t, sep) else [[c] + SplitOn(t, sep)[0]] + SplitOn(t, sep)[1..]
  {
    assert ([c] + t)[0] == c;
    assert ([c] + t)[1..] == t;
  }

  /** Splitting at a separator splits the two sides independently. */
  lemma {:induction false} SplitOnConcat(x: string, y: string, sep: char)
    ensures SplitOn(x + [sep] + y, sep) == SplitOn(x, sep) + SplitOn(y, sep)
    decreases |x|
  {
    if x == [] {
      assert x + [sep] + y == [sep] + y;
      SplitOnHead(sep, y, sep);
    } else {
      var tail := x[1..] + [sep] + y;
      assert x + [sep] + y == [x[0]] + tail;
      assert x == [x[0]] + x[1..];
      SplitOnConcat(x[1..], y, sep);
      SplitOnHead(x[0], tail, sep);
      SplitOnHead(x[0], x[1..], sep);
      HeadJoin(x[0], SplitOn(x[1..], sep), SplitOn(y, sep), sep);
    }
  }

  lemma HeadJoin(c: char, rest: seq<string>, sy: seq<string>, sep: char)
    requires |rest| >= 1
    ensures (if c == sep then [""] + (rest + sy) else [[c] + (rest + sy)[0]] + (rest + sy)[1..])
         == (if c == sep then [""] + rest else [[c] + rest[0]] + rest[1..]) + sy
  {
    assert (rest + sy)[0] == rest[0];
    assert (rest + sy)[1..] == rest[1..] + sy;
  }

  lemma SplitCons(x: string, y: string, sep: char)
    requires sep !in x
    ensures SplitOn(x + [sep] + y, sep) == [x] + SplitOn(y, sep)
  {
    SplitOnConcat(x, y, sep);
    SplitNoSep(x, sep);
  }

  /** `sep.join` followed by `split(sep)` gives the parts back when no part
      contains the separator. */
  lemma {:induction false} SplitJoin(parts: seq<string>, sep: char)
    requires |parts| >= 1
    requires forall i :: 0 <= i < |parts| ==> sep !in parts[i]
    ensures SplitOn(Join(parts, [sep]), sep) == parts
    decreases |parts|
  {
    SplitNoSep(parts[0], sep);
    if |parts| > 1 {
      SplitJoin(parts[1..], sep);
      SplitOnConcat(parts[0], Join(parts[1..], [sep]), sep);
      assert [parts[0]] + parts[1..] == parts;
    }
  }

  /** `a <= b` on Python strings: lexicographic order on code points. */
  predicate LexLe(a: string, b: string)
    decreases |a|
  {
    a == [] || (b != [] && (a[0] < b[0] || (a[0] == b[0] && LexLe(a[1..], b[1..]))))
  }

  lemma {:induction false} LexLeTotal(a: string, b: string)
    ensures LexLe(a, b) || LexLe(b, a)
    decreases |a|
  {
    if a != [] && b != [] && a[0] == b[0] {
      LexLeTotal(a[1..], b[1..]);
    }
  }

  lemma {:induction false} LexLeReflexive(a: string)
    ensures LexLe(a, a)
    decreases |a|
  {
    if a != [] {
      LexLeReflexive(a[1..]);
    }
  }

  lemma {:induction false} LexLeTrans(a: string, b: string, c: string)
    requires LexLe(a, b) && LexLe(b, c)
    ensures LexLe(a, c)
    decreases |a|
  {
    if a != [] && a[0] == b[0] && b[0] == c[0] {
      LexLeTrans(a[1..], b[1..], c[1..]);
    }
  }

  lemma {:induction false} LexLeAntisymmetric(a: string, b: string)
    requires LexLe(a, b) && LexLe(b, a)
    ensures a == b
    decreases |a|
  {
    if a != [] {
      LexLeAntisymmetric(a[1..], b[1..]);
      assert a == [a[0]] + a[1..] && b == [b[0]] + b[1..];
    }
  }

  /** `s.count(sub)` for a non-empty `sub`: non-overlapping occurrences,
      scanning from the left. */
  function CountNonEmpty(s: string, sub: string): nat
    requires sub != []
    decreases |s|
  {
    if |s| < |sub| then 0
    else if s[..|sub|] == sub then 1 + CountNonEmpty(s[|sub|..], sub)
    else CountNonEmpty(s[1..], sub)
  }

  /** `s.count(sub)`; the empty string occurs `len(s) + 1` times. */
  function Count(s: string, sub: string): nat
  {
    if sub == [] then |s| + 1 else CountNonEmpty(s, sub)
  }

  predicate OccursAt(s: string, sub: string, i: int) {
    0 <= i && i + |sub| <= |s| && s[i..i + |sub|] == sub
  }

  lemma {:induction false} CountZeroIffAbsent(s: string, sub: string)
    requires sub != []
    ensures CountNonEmpty(s, sub) == 0 <==> forall i :: !OccursAt(s, sub, i)
    decreases |s|
  {
    if |s| < |sub| {
    } else if s[..|sub|] == sub {
      assert OccursAt(s, sub, 0);
    } else {
      CountZeroIffAbsent(s[1..], sub);
      assert !OccursAt(s, sub, 0);
      forall i | OccursAt(s, sub, i) ensures OccursAt(s[1..], sub, i - 1) {
        OccursShift(s, sub, i - 1);
      }
      forall i | OccursAt(s[1..], sub, i) ensures OccursAt(s, sub, i + 1) {
        OccursShift(s, sub, i);
      }
    }
  }

  /** An occurrence one place on in `s` is an occurrence in `s[1..]`. */
  lemma OccursShift(s: string, sub: string, i: int)
    requires s != [] && 0 <= i
    ensures OccursAt(s, sub, i + 1) <==> OccursAt(s[1..], sub, i)
  {
    if i + 1 + |sub| <= |s| {
      assert s[1..][i..i + |sub|] == s[i + 1..i + 1 + |sub|];
    }
  }

  function ReplaceEmpty(s: string, rep: string): string {
    if s == [] then rep else rep + [s[0]] + ReplaceEmpty(s[1..], rep)
  }

  function ReplaceNonEmpty(s: string, pat: string, rep: string): string
    requires pat != []
    decreases |s|
  {
    if |s| < |pat| then s
    else if s[..|pat|] == pat then rep + ReplaceNonEmpty(s[|pat|..], pat, rep)
    else [s[0]] + ReplaceNonEmpty(s[1..], pat, rep)
  }

  /** `s.replace(pat, rep)`: every non-overlapping occurrence, from the left. */
  function Replace(s: string, pat: string, rep: string): string {
    if pat == [] then ReplaceEmpty(s, rep) else ReplaceNonEmpty(s, pat, rep)
  }

  lemma {:induction false} ReplaceAbsent(s: string, pat: string, rep: string)
    requires pat != [] && CountNonEmpty(s, pat) == 0
    ensures ReplaceNonEmpty(s, pat, rep) == s
    decreases |s|
  {
    if |s| >= |pat| {
      ReplaceAbsent(s[1..], pat, rep);
    }
  }

  /** With exactly one occurrence, `replace` rewrites that occurrence and
      nothing else. */
  lemma {:induction false} ReplaceUnique(s: string, pat: string, rep: string)
    requires pat != [] && CountNonEmpty(s, pat) == 1
    ensures exists i :: OccursAt(s, pat, i) && ReplaceNonEmpty(s, pat, rep) == s[..i] + rep + s[i + |pat|..]
    decreases |s|
  {
    assert |s| >= |pat|;
    if s[..|pat|] == pat {
      ReplaceAbsent(s[|pat|..], pat, rep);
      assert s[..0] + rep + s[|pat|..] == rep + s[|pat|..];
      assert OccursAt(s, pat, 0);
    } else {
      var t := s[1..];
      ReplaceUnique(t, pat, rep);
      var j :| OccursAt(t, pat, j) && ReplaceNonEmpty(t, pat, rep) == t[..j] + rep + t[j + |pat|..];
      ReplaceShift(s, pat, rep, j);
    }
  }

  lemma ReplaceShift(s: string, pat: string, rep: string, j: int)
    requires pat != [] && |s| >= |pat| && s[..|pat|] != pat
    requires OccursAt(s[1..], pat, j)
    requires ReplaceNonEmpty(s[1..], pat, rep) == s[1..][..j] + rep + s[1..][j + |pat|..]
    ensures OccursAt(s, pat, j + 1)
    ensures ReplaceNonEmpty(s, pat, rep) == s[..j + 1] + rep + s[j + 1 + |pat|..]
  {
    var t := s[1..];
    assert OccursAt(s, pat, j + 1) by {
      assert t[j..j + |pat|] == s[j + 1..j + 1 + |pat|];
    }
    assert ReplaceNonEmpty(s, pat, rep) == [s[0]] + ReplaceNonEmpty(t, pat, rep);
    ReplaceShiftText(s, t, t[..j], rep, t[j + |pat|..], j + 1 + |pat|);
  }

  lemma ReplaceShiftText(s: string, t: string, before: string, rep: string, after: string, k: int)
    requires |s| >= 1 && t == s[1..] && |before| < k <= |s|
    requires before == t[..|before|] && after == t[k - 1..]
    ensures [s[0]] + (before + rep + after) == s[..|before| + 1] + rep + s[k..]
  {
    assert [s[0]] + before == s[..|before| + 1];
    assert after == s[k..];
  }

  function DigitChar(d: nat): (c: char)
    requires d < 10
    ensures '0' <= c <= '9'
  {
    "0123456789"[d]
  }

  /** The number a string of decimal digits spells, most significant first. */
  function DigitsValue(s: string): nat
    requires forall i :: 0 <= i < |s| ==> '0' <= s[i] <= '9'
    decreases |s|
  {
    if s == [] then 0 else DigitsValue(s[..|s| - 1]) * 10 + (s[|s| - 1] as int - '0' as int)
  }

  /** `str(n)`: decimal digits without a leading zero that read back as `n`. */
  function NatToString(n: nat): (r: string)
    ensures |r| >= 1
    ensures forall i :: 0 <= i < |r| ==> '0' <= r[i] <= '9'
    ensures r[0] == '0' ==> n == 0
    ensures DigitsValue(r) == n
    decreases n
  {
    if n < 10 then [DigitChar(n)]
    else
      var high := NatToString(n / 10);
      var r := high + [DigitChar(n % 10)];
      assert r[..|r| - 1] == high;
      r
  }

  /** `str(i)` for an integer. */
  function IntToString(i: int): string {
    if i < 0 then "-" + NatToString(-i) else NatToString(i)
  }

  /** A Python slice bound: negative bounds count from the end, then the bound
      is clamped to `[0, n]`. */
  function SliceBound(i: int, n: nat): (r: nat)
    ensures r <= n
    ensures 0 <= i <= n ==> r == i
    ensures i > n ==> r == n
    ensures i < 0 && 0 <= i + n ==> r == i + n
    ensures i + n < 0 ==> r == 0
  {
    if i < 0 then (if i + n < 0 then 0 else i + n) else if i > n then n else i
  }

  /** `s[i:j]`. */
  function PySlice<T>(s: seq<T>, i: int, j: int): (r: seq<T>)
    ensures |r| <= |s|
    ensures |r| == if SliceBound(i, |s|) < SliceBound(j, |s|) then SliceBound(j, |s|) - SliceBound(i, |s|) else 0
    ensures forall k :: 0 <= k < |r| ==> r[k] == s[SliceBound(i, |s|) + k]
  {
    var a := SliceBound(i, |s|);
    var b := SliceBound(j, |s|);
    if a < b then s[a..b] else []
  }
}
