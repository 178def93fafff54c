/** The Python string operations that the cloze pipeline relies on, stated over
    `string` (a sequence of Unicode scalar values, as Python's `str` is a
    sequence of code points). */
module PyStr {

  // ---------------------------------------------------------------------
  // Substring search: `sub in s`, `s.find(sub)`
  // ---------------------------------------------------------------------

  /** `sub` occurs in `s` starting at index `i`. */
  predicate OccursAt(s: string, sub: string, i: int) {
    0 <= i && i + |sub| <= |s| && s[i..i + |sub|] == sub
  }

  /** Python's `sub in s`. */
  predicate Contains(s: string, sub: string) {
    exists i :: 0 <= i <= |s| - |sub| && OccursAt(s, sub, i)
  }

  /** `i` is the first index where `sub` occurs in `s`. */
  predicate FirstOccurrence(s: string, sub: string, i: int) {
    OccursAt(s, sub, i) && forall j :: 0 <= j < i ==> !OccursAt(s, sub, j)
  }

  function FindFrom(s: string, sub: string, i: nat): (r: int)
    requires i <= |s|
    ensures r == -1 || (i <= r && OccursAt(s, sub, r))
    ensures r == -1 ==> forall j :: i <= j ==> !OccursAt(s, sub, j)
    ensures r != -1 ==> forall j :: i <= j < r ==> !OccursAt(s, sub, j)
    decreases |s| - i
  {
    if i + |sub| > |s| then -1
    else if s[i..i + |sub|] == sub then i
    else FindFrom(s, sub, i + 1)
  }

  /** Python's `s.find(sub)`: the first index of `sub` in `s`, or -1. */
  function Find(s: string, sub: string): (r: int)
    ensures r == -1 <==> !Contains(s, sub)
    ensures r != -1 ==> FirstOccurrence(s, sub, r)
  {
    FindFrom(s, sub, 0)
  }

  /** An occurrence inside an occurrence is an occurrence: if `t` sits at `i`
      in `s` and `u` sits at `j` in `t`, then `u` sits at `i + j` in `s`. */
  lemma OccursAtTransitive(s: string, t: string, u: string, i: int, j: int)
    requires OccursAt(s, t, i) && OccursAt(t, u, j)
    ensures OccursAt(s, u, i + j)
  {
    assert s[i..i + |t|] == t;
    assert t[j..j + |u|] == u;
    forall k | 0 <= k < |u| ensures s[i + j + k] == u[k] {
      assert s[i + (j + k)] == t[j + k];
    }
  }

  lemma OccursAtConcat(a: string, b: string, sub: string, i: int)
    requires OccursAt(b, sub, i)
    ensures OccursAt(a + b, sub, |a| + i)
  {
    assert (a + b)[|a| + i..|a| + i + |sub|] == b[i..i + |sub|];
  }

  lemma OccursAtPrefix(a: string, b: string, sub: string, i: int)
    requires OccursAt(a, sub, i)
    ensures OccursAt(a + b, sub, i)
  {
    assert (a + b)[i..i + |sub|] == a[i..i + |sub|];
  }

  // ---------------------------------------------------------------------
  // `s.replace(a, b, 1)` and `s.replace(a, b)`
  // ---------------------------------------------------------------------

  /** Python's `s.replace(a, b, 1)`: the first occurrence of `a` becomes `b`.
      With an empty `a` Python inserts `b` in front, which is what the
      occurrence at index 0 gives here. */
  function ReplaceFirst(s: string, a: string, b: string): (r: string)
    ensures !Contains(s, a) ==> r == s
    ensures Contains(s, a) ==>
      exists i :: FirstOccurrence(s, a, i) && r == s[..i] + b + s[i + |a|..]
  {
    var i := Find(s, a);
    if i == -1 then s else s[..i] + b + s[i + |a|..]
  }

  /** The replacement text is present in the result whenever a replacement
      happened. */
  lemma ReplaceFirstContainsReplacement(s: string, a: string, b: string)
    requires Contains(s, a)
    ensures OccursAt(ReplaceFirst(s, a, b), b, Find(s, a))
  {
    var i := Find(s, a);
    var r := ReplaceFirst(s, a, b);
    assert r == s[..i] + b + s[i + |a|..];
    assert r[i..i + |b|] == b;
  }

  /** Replacing the first occurrence of `a` by `a` itself gives the string back. */
  lemma ReplaceFirstSelf(s: string, a: string)
    ensures ReplaceFirst(s, a, a) == s
  {
    var i := Find(s, a);
    if i != -1 {
      assert OccursAt(s, a, i);
      SliceSplit(s, i, i + |a|);
    }
  }

  lemma SliceSplit(s: string, i: int, j: int)
    requires 0 <= i <= j <= |s|
    ensures s == s[..i] + s[i..j] + s[j..]
  {
  }

  /** Python's `s.replace("", b)`: `b` before every character and at the end. */
  function Interleave(s: string, b: string): (r: string)
    ensures |r| == |s| + (|s| + 1) * |b|
  {
    if s == [] then b else b + [s[0]] + Interleave(s[1..], b)
  }

  /** Python's `s.replace(a, b)`: scanning left to right, every
      non-overlapping occurrence of `a` becomes `b`. */
  function ReplaceAll(s: string, a: string, b: string): (r: string)
    ensures a != [] && |s| < |a| ==> r == s
    decreases |s|
  {
    if a == [] then Interleave(s, b)
    else if |s| < |a| then s
    else if s[..|a|] == a then b + ReplaceAll(s[|a|..], a, b)
    else [s[0]] + ReplaceAll(s[1..], a, b)
  }

  lemma OccursAtShift(s: string, sub: string, i: int)
    requires s != [] && OccursAt(s[1..], sub, i)
    ensures OccursAt(s, sub, i + 1)
  {
    assert s[i + 1..i + 1 + |sub|] == s[1..][i..i + |sub|];
  }

  /** Without an occurrence of a non-empty `a`, `s.replace(a, b)` is `s`. */
  lemma {:induction false} ReplaceAllAbsent(s: string, a: string, b: string)
    requires a != [] && !Contains(s, a)
    ensures ReplaceAll(s, a, b) == s
    decreases |s|
  {
    if |s| >= |a| {
      assert !OccursAt(s, a, 0);
      if Contains(s[1..], a) {
        var i :| 0 <= i <= |s[1..]| - |a| && OccursAt(s[1..], a, i);
        OccursAtShift(s, a, i);
        assert false;
      }
      ReplaceAllAbsent(s[1..], a, b);
      assert s == [s[0]] + s[1..];
    }
  }

  /** Replacing every occurrence of a non-empty `a` by itself is the identity. */
  lemma {:induction false} ReplaceAllSelf(s: string, a: string)
    requires a != []
    ensures ReplaceAll(s, a, a) == s
    decreases |s|
  {
    if |s| >= |a| {
      if s[..|a|] == a {
        ReplaceAllSelf(s[|a|..], a);
        assert s == s[..|a|] + s[|a|..];
      } else {
        ReplaceAllSelf(s[1..], a);
        assert s == [s[0]] + s[1..];
      }
    }
  }

  /** When a non-empty `a` occurs in `s`, the replacement text occurs in
      `s.replace(a, b)`. */
  lemma {:induction false} ReplaceAllContainsReplacement(s: string, a: string, b: string)
    requires a != [] && Contains(s, a)
    ensures Contains(ReplaceAll(s, a, b), b)
    decreases |s|
  {
    var r := ReplaceAll(s, a, b);
    if s[..|a|] == a {
      assert OccursAt(r, b, 0);
    } else {
      var i :| 0 <= i <= |s| - |a| && OccursAt(s, a, i);
      assert i != 0;
      assert OccursAt(s[1..], a, i - 1) by {
        assert s[1..][i - 1..i - 1 + |a|] == s[i..i + |a|];
      }
      ReplaceAllContainsReplacement(s[1..], a, b);
      var rest := ReplaceAll(s[1..], a, b);
      var j :| 0 <= j <= |rest| - |b| && OccursAt(rest, b, j);
      OccursAtConcat([s[0]], rest, b, j);
    }
  }

  // ---------------------------------------------------------------------
  // `sep.join(parts)` and `s.split(c)`
  // ---------------------------------------------------------------------

  /** Python's `sep.join(parts)`. */
  function Join(sep: string, parts: seq<string>): (r: string)
    ensures |parts| == 1 ==> r == parts[0]
  {
    if |parts| == 0 then ""
    else if |parts| == 1 then parts[0]
    else parts[0] + sep + Join(sep, parts[1..])
  }

  lemma JoinAppend(sep: string, parts: seq<string>, x: string)
    requires parts != []
    ensures Join(sep, parts + [x]) == Join(sep, parts) + sep + x
  {
    if |parts| > 1 {
      assert (parts + [x])[1..] == parts[1..] + [x];
      JoinAppend(sep, parts[1..], x);
    }
  }

  /** Where the `k`-th part starts inside `sep.join(parts)`. */
  function JoinOffset(sep: string, parts: seq<string>, k: nat): (r: nat)
    requires k < |parts|
  {
    if k == 0 then 0 else |parts[0]| + |sep| + JoinOffset(sep, parts[1..], k - 1)
  }

  /** Every part occurs in the joined string, at its offset. */
  lemma {:induction false} JoinContainsPart(sep: string, parts: seq<string>, k: nat)
    requires k < |parts|
    ensures OccursAt(Join(sep, parts), parts[k], JoinOffset(sep, parts, k))
  {
    if |parts| == 1 {
      assert Join(sep, parts)[0..|parts[0]|] == parts[0];
    } else if k == 0 {
      OccursAtPrefix(parts[0], sep + Join(sep, parts[1..]), parts[0], 0);
      assert parts[0] + sep + Join(sep, parts[1..]) == parts[0] + (sep + Join(sep, parts[1..]));
    } else {
      JoinContainsPart(sep, parts[1..], k - 1);
      OccursAtConcat(sep, Join(sep, parts[1..]), parts[k], JoinOffset(sep, parts[1..], k - 1));
      OccursAtConcat(parts[0], sep + Join(sep, parts[1..]), parts[k], |sep| + JoinOffset(sep, parts[1..], k - 1));
      assert parts[0] + sep + Join(sep, parts[1..]) == parts[0] + (sep + Join(sep, parts[1..]));
    }
  }

  /** Number of occurrences of character `c` in `s`. */
  function CountChar(s: string, c: char): (n: nat)
    ensures n <= |s|
    ensures n == 0 <==> c !in s
  {
    if s == [] then 0 else (if s[0] == c then 1 else 0) + CountChar(s[1..], c)
  }

  /** Python's `s.split(sep)` for a one-character separator. */
  function Split(s: string, sep: char): (parts: seq<string>)
    ensures |parts| >= 1
  {
    if s == [] then [""]
    else
      var rest := Split(s[1..], sep);
      if s[0] == sep then [""] + rest else [[s[0]] + rest[0]] + rest[1..]
  }

  /** `s.split(sep)` has one more part than `s` has separators, and no part
      holds a separator. */
  lemma {:induction false} SplitShape(s: string, sep: char)
    ensures |Split(s, sep)| == CountChar(s, sep) + 1
    ensures forall k :: 0 <= k < |Split(s, sep)| ==> sep !in Split(s, sep)[k]
  {
    if s != [] {
      SplitShape(s[1..], sep);
      var rest := Split(s[1..], sep);
      if s[0] != sep {
        var parts := Split(s, sep);
        assert parts == [[s[0]] + rest[0]] + rest[1..];
        forall k | 0 <= k < |parts| ensures sep !in parts[k] {
          if k == 0 {
            assert sep !in rest[0];
          } else {
            assert parts[k] == rest[k];
          }
        }
      }
    }
  }

  /** Joining the parts of `s.split(sep)` with `sep` gives `s` back. */
  lemma {:induction false} SplitJoin(s: string, sep: char)
    ensures Join([sep], Split(s, sep)) == s
  {
    if s != [] {
      SplitJoin(s[1..], sep);
      var rest := Split(s[1..], sep);
      if s[0] == sep {
        assert Split(s, sep) == [""] + rest;
        assert s == [sep] + s[1..];
      } else {
        var parts := Split(s, sep);
        if |rest| == 1 {
          assert parts == [[s[0]] + rest[0]];
        } else {
          assert parts[1..] == rest[1..];
          assert Join([sep], rest) == rest[0] + [sep] + Join([sep], rest[1..]);
          assert s == [s[0]] + s[1..];
        }
      }
    }
  }

  // ---------------------------------------------------------------------
  // Whitespace: `str.isspace`, `s.strip()`, `len(s.split())`
  // ---------------------------------------------------------------------

  /** The characters for which Python's `str.isspace()` holds. */
  predicate IsSpace(c: char) {
    c == ' ' || ('\t' <= c <= '\r') || ('\U{1c}' <= c <= '\U{1f}')
    || c == '\U{85}' || c == '\U{a0}' || c == '\U{1680}'
    || ('\U{2000}' <= c <= '\U{200a}') || c == '\U{2028}' || c == '\U{2029}'
    || c == '\U{202f}' || c == '\U{205f}' || c == '\U{3000}'
  }

  function StripLeft(s: string): (r: string)
    ensures |r| <= |s|
    ensures r == [] || !IsSpace(r[0])
  {
    if s != [] && IsSpace(s[0]) then StripLeft(s[1..]) else s
  }

  function StripRight(s: string): (r: string)
    ensures |r| <= |s|
    ensures r == [] || !IsSpace(r[|r| - 1])
  {
    if s != [] && IsSpace(s[|s| - 1]) then StripRight(s[..|s| - 1]) else s
  }

  /** The left strip is a suffix of `s` with only whitespace before it. */
  lemma {:induction false} StripLeftSuffix(s: string)
    ensures StripLeft(s) == s[|s| - |StripLeft(s)|..]
    ensures forall k :: 0 <= k < |s| - |StripLeft(s)| ==> IsSpace(s[k])
  {
    if s != [] && IsSpace(s[0]) {
      StripLeftSuffix(s[1..]);
    }
  }

  /** The right strip is a prefix of `s` with only whitespace after it. */
  lemma {:induction false} StripRightPrefix(s: string)
    ensures StripRight(s) == s[..|StripRight(s)|]
    ensures forall k :: |StripRight(s)| <= k < |s| ==> IsSpace(s[k])
  {
    if s != [] && IsSpace(s[|s| - 1]) {
      StripRightPrefix(s[..|s| - 1]);
    }
  }

  /** `r` is the part of `s` that starts at `i`, and everything of `s`
      before and after it is whitespace. */
  predicate TrimmedAt(s: string, r: string, i: int) {
    0 <= i <= |s| - |r| && r == s[i..i + |r|]
    && (forall k :: 0 <= k < i ==> IsSpace(s[k]))
    && (forall k :: i + |r| <= k < |s| ==> IsSpace(s[k]))
  }

  /** Python's `s.strip()`: `s` without leading and trailing whitespace. */
  function Strip(s: string): (r: string)
    ensures |r| <= |s|
    ensures r == [] || (!IsSpace(r[0]) && !IsSpace(r[|r| - 1]))
  {
    var l := StripLeft(s);
    StripRightPrefix(l);
    StripRight(l)
  }

  /** The strip is a slice of `s` with only whitespace around it. */
  lemma StripSlice(s: string)
    ensures exists i :: TrimmedAt(s, Strip(s), i)
  {
    var l := StripLeft(s);
    var r := StripRight(l);
    StripLeftSuffix(s);
    StripRightPrefix(l);
    assert r == s[|s| - |l|..][..|r|];
    assert TrimmedAt(s, r, |s| - |l|);
    assert r == Strip(s);
  }

  /** A string that neither starts nor ends with whitespace is its own strip. */
  lemma StripTrimmed(s: string)
    requires s == [] || (!IsSpace(s[0]) && !IsSpace(s[|s| - 1]))
    ensures Strip(s) == s
  {
  }

  /** `s.strip()` is idempotent. */
  lemma StripIdempotent(s: string)
    ensures Strip(Strip(s)) == Strip(s)
  {
    StripTrimmed(Strip(s));
  }

  lemma StripRightAppendSpace(s: string, c: char)
    requires IsSpace(c)
    ensures StripRight(s + [c]) == StripRight(s)
  {
    assert (s + [c])[..|s|] == s;
  }

  lemma StripSpaceOnly(c: char)
    requires IsSpace(c)
    ensures StripLeft([c]) == []
  {
    var e: string := [];
    assert [c][1..] == e;
    assert StripLeft(e) == e;
  }

  lemma StripLeftDropSpace(s: string, c: char)
    requires s != [] && IsSpace(s[0])
    ensures StripLeft(s + [c]) == StripLeft(s[1..] + [c])
  {
    assert (s + [c])[1..] == s[1..] + [c];
  }

  lemma StripLeftKeep(s: string, c: char)
    requires s != [] && !IsSpace(s[0])
    ensures StripLeft(s + [c]) == s + [c] && StripLeft(s) == s
  {
  }

  /** Appending whitespace to `s` appends it to the left strip of `s`, unless
      `s` is all whitespace. */
  lemma {:induction false} StripLeftAppendSpace(s: string, c: char)
    requires IsSpace(c)
    ensures StripLeft(s + [c]) == StripLeft(s) + [c]
            || (StripLeft(s) == [] && StripLeft(s + [c]) == [])
  {
    if s == [] {
      StripSpaceOnly(c);
      assert s + [c] == [c];
    } else if IsSpace(s[0]) {
      StripLeftAppendSpace(s[1..], c);
      StripLeftDropSpace(s, c);
    } else {
      StripLeftKeep(s, c);
    }
  }

  /** A whitespace character appended at the end does not change the strip. */
  lemma StripAppendSpace(s: string, c: char)
    requires IsSpace(c)
    ensures Strip(s + [c]) == Strip(s)
  {
    StripLeftAppendSpace(s, c);
    if StripLeft(s + [c]) != [] {
      StripRightAppendSpace(StripLeft(s), c);
    }
  }

  /** A word begins at index `i` of `s`. */
  predicate WordStart(s: string, i: int)
    requires 0 <= i < |s|
  {
    !IsSpace(s[i]) && (i == 0 || IsSpace(s[i - 1]))
  }

  /** Python's `len(s.split())`: the number of maximal whitespace-free runs. */
  function WordCount(s: string): (n: nat)
    ensures n <= |s|
  {
    if s == [] then 0
    else WordCount(s[..|s| - 1]) + (if WordStart(s, |s| - 1) then 1 else 0)
  }

  /** `len(s.split()) == 0` exactly when `s` is all whitespace. */
  lemma {:induction false} WordCountZero(s: string)
    ensures WordCount(s) == 0 <==> forall k :: 0 <= k < |s| ==> IsSpace(s[k])
  {
    if s != [] {
      var p := s[..|s| - 1];
      WordCountZero(p);
      assert forall k :: 0 <= k < |p| ==> p[k] == s[k];
    }
  }

  // ---------------------------------------------------------------------
  // Prefix/suffix tests and ASCII case mapping
  // ---------------------------------------------------------------------

  /** Python's `s.endswith(suffix)`. */
  predicate EndsWith(s: string, suffix: string) {
    |suffix| <= |s| && s[|s| - |suffix|..] == suffix
  }

  lemma EndsWithAppended(s: string, suffix: string)
    ensures EndsWith(s + suffix, suffix)
  {
    assert (s + suffix)[|s|..] == suffix;
  }

  /** `x + sep + y` ends with `sep + y`. */
  lemma EndsWithSeparated(x: string, sep: string, y: string)
    ensures EndsWith(x + sep + y, sep + y)
  {
    assert x + sep + y == x + (sep + y);
    EndsWithAppended(x, sep + y);
  }

  function UpperChar(c: char): (d: char)
    ensures 'a' <= c <= 'z' ==> d as int == c as int - 32
    ensures !('a' <= c <= 'z') ==> d == c
  {
    if 'a' <= c <= 'z' then (c as int - 32) as char else c
  }

  /** Python's `s.upper()` on ASCII letters. */
  function Upper(s: string): (r: string)
    ensures |r| == |s|
    ensures forall k :: 0 <= k < |s| ==> r[k] == UpperChar(s[k])
  {
    if s == [] then [] else [UpperChar(s[0])] + Upper(s[1..])
  }

  /** Upper-casing twice is upper-casing once. */
  lemma UpperIdempotent(s: string)
    ensures Upper(Upper(s)) == Upper(s)
  {
    var u := Upper(s);
    assert forall k :: 0 <= k < |u| ==> Upper(u)[k] == u[k];
  }

  // ---------------------------------------------------------------------
  // `str(n)` for a non-negative int, and parsing it back
  // ---------------------------------------------------------------------

  predicate IsDigit(c: char) { '0' <= c <= '9' }

  function DigitChar(d: nat): (c: char)
    requires d < 10
    ensures IsDigit(c) && c as int - '0' as int == d
  {
    ('0' as int + d) as char
  }

  /** Python's `str(n)` for `n >= 0`: decimal digits, no leading zero. */
  function NatToString(n: nat): (s: string)
    ensures s != [] && forall k :: 0 <= k < |s| ==> IsDigit(s[k])
  {
    if n < 10 then [DigitChar(n)] else NatToString(n / 10) + [DigitChar(n % 10)]
  }

  /** The value of a string of decimal digits. */
  function ParseDigits(s: string): nat
    requires forall k :: 0 <= k < |s| ==> IsDigit(s[k])
  {
    if s == [] then 0
    else
      assert IsDigit(s[|s| - 1]);
      ParseDigits(s[..|s| - 1]) * 10 + (s[|s| - 1] as int - '0' as int)
  }

  /** Reading back `str(n)` gives `n`; so distinct numbers print differently. */
  lemma {:induction false} ParseNatToString(n: nat)
    ensures ParseDigits(NatToString(n)) == n
  {
    if n >= 10 {
      ParseNatToString(n / 10);
      var s := NatToString(n);
      assert s[..|s| - 1] == NatToString(n / 10);
    }
  }

  /** Different numbers print differently. */
  lemma NatToStringInjective(a: nat, b: nat)
    requires NatToString(a) == NatToString(b)
    ensures a == b
  {
    ParseNatToString(a);
    ParseNatToString(b);
  }

  /** The part of `s` after its last `c`, or all of `s` when `c` does not
      occur. */
  function AfterLast(s: string, c: char): (r: string)
    ensures c !in r
    ensures EndsWith(s, r)
  {
    if s == [] then []
    else if s[|s| - 1] == c then []
    else
      var r := AfterLast(s[..|s| - 1], c) + [s[|s| - 1]];
      assert s == s[..|s| - 1] + [s[|s| - 1]];
      r
  }

  lemma {:induction false} AfterLastAppended(p: string, c: char, d: string)
    requires c !in d
    ensures AfterLast(p + [c] + d, c) == d
  {
    var s := p + [c] + d;
    if d != [] {
      var d' := d[..|d| - 1];
      AfterLastAppended(p, c, d');
      assert s[..|s| - 1] == p + [c] + d';
      assert d == d' + [d[|d| - 1]];
    }
  }

  /** The number after the last `_` of `prefix + "_" + str(n)` is `n`, whatever
      `prefix` holds. */
  lemma NumberedSuffix(prefix: string, n: nat)
    ensures AfterLast(prefix + "_" + NatToString(n), '_') == NatToString(n)
  {
    assert '_' !in NatToString(n) by {
      forall k | 0 <= k < |NatToString(n)| ensures NatToString(n)[k] != '_' {
        assert IsDigit(NatToString(n)[k]);
      }
    }
    AfterLastAppended(prefix, '_', NatToString(n));
  }

  /** Ids of the form `prefix_n` with different `n` are different, whatever
      their prefixes. */
  lemma NumberedIdsDiffer(p: string, q: string, m: nat, n: nat)
    requires m != n
    ensures p + "_" + NatToString(m) != q + "_" + NatToString(n)
  {
    NumberedSuffix(p, m);
    NumberedSuffix(q, n);
    if NatToString(m) == NatToString(n) {
      NatToStringInjective(m, n);
    }
  }

  // ---------------------------------------------------------------------
  // `repr(s)` and `str((k, s))`
  // ---------------------------------------------------------------------

  function HexDigit(d: nat): (c: char)
    requires d < 16
  {
    if d < 10 then DigitChar(d) else ('a' as int + d - 10) as char
  }

  /** The escape Python's `repr` writes for one character, given the quote
      character it chose. */
  function ReprChar(c: char, quote: char): (r: string)
    ensures |r| >= 1
  {
    if c == quote || c == '\\' then ['\\', c]
    else if c == '\t' then "\\t"
    else if c == '\n' then "\\n"
    else if c == '\r' then "\\r"
    else if c < ' ' || c == '\U{7f}' then
      ['\\', 'x', HexDigit(c as int / 16), HexDigit(c as int % 16)]
    else [c]
  }

  function ReprBody(s: string, quote: char): (r: string)
    ensures |r| >= |s|
  {
    if s == [] then [] else ReprChar(s[0], quote) + ReprBody(s[1..], quote)
  }

  /** The quote `repr` uses: double quotes only when the text holds a single
      quote and no double quote. */
  function ReprQuote(s: string): char {
    if '\'' in s && '"' !in s then '"' else '\''
  }

  /** Python's `repr(s)` for a string. */
  function StrRepr(s: string): (r: string)
    ensures |r| >= |s| + 2
    ensures r[0] == ReprQuote(s) && r[|r| - 1] == ReprQuote(s)
  {
    [ReprQuote(s)] + ReprBody(s, ReprQuote(s)) + [ReprQuote(s)]
  }

  /** Python's `str((k, s))` for an `enumerate` item. */
  function TupleRepr(k: nat, s: string): (r: string)
    ensures |r| > 0 && r[0] == '(' && r[|r| - 1] == ')'
  {
    "(" + NatToString(k) + ", " + StrRepr(s) + ")"
  }

  // ---------------------------------------------------------------------
  // String ordering
  // ---------------------------------------------------------------------

  /** Python's `a < b` on strings: code-point lexicographic order. */
  predicate StrLess(a: string, b: string) {
    if a == [] then b != []
    else if b == [] then false
    else if a[0] != b[0] then a[0] < b[0]
    else StrLess(a[1..], b[1..])
  }

  /** `<` on strings is irreflexive and asymmetric. */
  lemma {:induction false} StrLessAsymmetric(a: string, b: string)
    ensures !(StrLess(a, b) && StrLess(b, a))
    ensures !StrLess(a, a)
  {
    if a != [] && b != [] && a[0] == b[0] {
      StrLessAsymmetric(a[1..], b[1..]);
    }
    if a != [] {
      StrLessAsymmetric(a[1..], a[1..]);
    }
  }

  /** `<` on strings is total: of two different strings one is smaller. */
  lemma {:induction false} StrLessTotal(a: string, b: string)
    requires a != b
    ensures StrLess(a, b) || StrLess(b, a)
  {
    if a != [] && b != [] && a[0] == b[0] {
      assert a == [a[0]] + a[1..] && b == [b[0]] + b[1..];
      StrLessTotal(a[1..], b[1..]);
    }
  }
}
