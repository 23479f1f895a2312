/** The Python string methods the quiz parser relies on, with their exact
    semantics: `str.split(sep)` and `str.count(sep)` scan left to right for
    non-overlapping occurrences, `str.replace(p, "")` removes every such
    occurrence, `sep.join(parts)` glues parts back, and `str.strip()` trims the
    characters for which `str.isspace()` holds. Every separator is non-empty. */
module PyStr {

  /** `sep` occurs in `s` starting at position `i`. */
  predicate MatchAt(s: string, sep: string, i: nat)
  {
    i <= |s| && sep <= s[i..]
  }

  /** `sep` occurs nowhere in `s`. */
  predicate NoMatch(s: string, sep: string)
  {
    forall i: nat :: i <= |s| ==> !MatchAt(s, sep, i)
  }

  /** No occurrence of `sep` starts inside `a` when `a` is followed by `sep`:
      then the separator after `a` is the first one a left-to-right scan finds. */
  predicate Clean(a: string, sep: string)
  {
    forall i: nat :: i < |a| ==> !MatchAt(a + sep, sep, i)
  }

  /** `s.split(sep)`. */
  function Split(s: string, sep: string): (r: seq<string>)
    requires sep != []
    ensures |r| >= 1
    decreases |s|
  {
    if s == [] then [[]]
    else if sep <= s then [[]] + Split(s[|sep|..], sep)
    else
      var rest := Split(s[1..], sep);
      [[s[0]] + rest[0]] + rest[1..]
  }

  /** `sep.join(parts)`. */
  function Join(parts: seq<string>, sep: string): string
  {
    if |parts| == 0 then []
    else if |parts| == 1 then parts[0]
    else parts[0] + sep + Join(parts[1..], sep)
  }

  /** `s.count(sep)`: the number of non-overlapping occurrences. */
  function Count(s: string, sep: string): nat
    requires sep != []
    decreases |s|
  {
    if s == [] then 0
    else if sep <= s then 1 + Count(s[|sep|..], sep)
    else Count(s[1..], sep)
  }

  /** `s.replace(p, "")`: every non-overlapping occurrence of `p` is dropped,
      not only a leading one. */
  function Remove(s: string, p: string): string
    requires p != []
    decreases |s|
  {
    if s == [] then []
    else if p <= s then Remove(s[|p|..], p)
    else [s[0]] + Remove(s[1..], p)
  }

  /** `c.isspace()`: the characters `str.strip()` removes by default. */
  predicate IsSpace(c: char)
  {
    ('\t' <= c <= '\r') || ('\U{1C}' <= c <= '\U{1F}') || c == ' ' || c == '\U{85}' || c == '\U{A0}'
    || c == '\U{1680}' || ('\U{2000}' <= c <= '\U{200A}') || c == '\U{2028}' || c == '\U{2029}'
    || c == '\U{202F}' || c == '\U{205F}' || c == '\U{3000}'
  }

  /** Neither end of `s` is whitespace. */
  predicate Stripped(s: string)
  {
    s == [] || (!IsSpace(s[0]) && !IsSpace(s[|s| - 1]))
  }

  /** Every character of `s` is whitespace. */
  predicate AllSpace(s: string)
  {
    forall k :: 0 <= k < |s| ==> IsSpace(s[k])
  }

  /** `s.lstrip()`: the suffix left after dropping all leading whitespace. */
  function TrimStart(s: string): (r: string)
    ensures |r| <= |s| && r == s[|s| - |r|..]
    ensures AllSpace(s[..|s| - |r|])
    ensures r == [] || !IsSpace(r[0])
  {
    if s != [] && IsSpace(s[0]) then
      var r := TrimStart(s[1..]);
      assert s[..|s| - |r|] == [s[0]] + s[1..][..|s| - 1 - |r|];
      r
    else
      s
  }

  /** `s.rstrip()`: the prefix left after dropping all trailing whitespace. */
  function TrimEnd(s: string): (r: string)
    ensures |r| <= |s| && r == s[..|r|]
    ensures AllSpace(s[|r|..])
    ensures r == [] || !IsSpace(r[|r| - 1])
  {
    if s != [] && IsSpace(s[|s| - 1]) then
      var r := TrimEnd(s[..|s| - 1]);
      assert s[|r|..] == s[..|s| - 1][|r|..] + [s[|s| - 1]];
      r
    else
      s
  }

  /** `r` is the slice of `s` left between a whitespace prefix and a
      whitespace suffix. */
  predicate Trimmed(s: string, r: string)
  {
    exists i :: 0 <= i <= |s| - |r| && r == s[i..i + |r|] && AllSpace(s[..i]) && AllSpace(s[i + |r|..])
  }

  /** `s.strip()`: the slice of `s` between its leading and its trailing
      whitespace. */
  function Strip(s: string): (r: string)
    ensures Stripped(r)
    ensures Trimmed(s, r)
  {
    var t := TrimStart(s);
    var r := TrimEnd(t);
    assert r != [] ==> r[0] == t[0];
    TrimmedSlice(s, t, r);
    r
  }

  /** A whitespace prefix dropped, then a whitespace suffix: one slice. */
  lemma TrimmedSlice(s: string, t: string, r: string)
    requires |t| <= |s| && t == s[|s| - |t|..] && AllSpace(s[..|s| - |t|])
    requires |r| <= |t| && r == t[..|r|] && AllSpace(t[|r|..])
    ensures Trimmed(s, r)
  {
    var i := |s| - |t|;
    assert t[|r|..] == s[i + |r|..];
    assert r == s[i..i + |r|] && AllSpace(s[..i]) && AllSpace(s[i + |r|..]);
  }

  // ---------------------------------------------------------------------
  // Split and Join

  /** A string that starts with `sep` is `sep` followed by the rest. */
  lemma PrefixSplit(sep: string, s: string)
    requires sep <= s
    ensures s == sep + s[|sep|..]
  {
    assert s[..|sep|] == sep;
    assert s == s[..|sep|] + s[|sep|..];
  }

  /** An occurrence at `i` fixes the characters from `i` on. */
  lemma MatchCharAt(s: string, sep: string, i: nat, j: nat)
    ensures MatchAt(s, sep, i) && j < |sep| ==> i + j < |s| && s[i + j] == sep[j]
  {
    if MatchAt(s, sep, i) && j < |sep| {
      assert s[i..][j] == sep[j];
    }
  }

  /** Positions shift by one under a leading character. */
  lemma MatchCons(c: char, s: string, sep: string, i: nat)
    ensures MatchAt([c] + s, sep, i + 1) == MatchAt(s, sep, i)
  {
    if i <= |s| {
      assert ([c] + s)[i + 1..] == s[i..];
    }
  }

  /** An occurrence that ends inside `a` is one of `a + b` and conversely. */
  lemma MatchAppend(a: string, b: string, sep: string, i: nat)
    requires i + |sep| <= |a|
    ensures MatchAt(a + b, sep, i) == MatchAt(a, sep, i)
  {
    assert (a + b)[i..][..|sep|] == a[i..][..|sep|];
  }

  /** Joining a part in front of at least one more. */
  lemma JoinCons(x: string, rest: seq<string>, sep: string)
    requires |rest| >= 1
    ensures Join([x] + rest, sep) == x + sep + Join(rest, sep)
  {
    assert ([x] + rest)[1..] == rest;
  }

  /** Putting a character in front of the first part puts it in front of the join. */
  lemma {:induction false} JoinConsHead(c: char, parts: seq<string>, sep: string)
    requires |parts| >= 1
    ensures Join([[c] + parts[0]] + parts[1..], sep) == [c] + Join(parts, sep)
  {
    var q := [[c] + parts[0]] + parts[1..];
    if |parts| > 1 {
      assert q[1..] == parts[1..];
    }
  }

  /** Joining what `split` returns gives the string back. */
  lemma {:induction false} JoinSplit(s: string, sep: string)
    requires sep != []
    ensures Join(Split(s, sep), sep) == s
    decreases |s|
  {
    if s == [] {
    } else if sep <= s {
      var rest := Split(s[|sep|..], sep);
      var parts: seq<string> := [[]] + rest;
      assert Split(s, sep) == parts;
      assert parts[1..] == rest;
      assert Join(parts, sep) == [] + sep + Join(rest, sep);
      JoinSplit(s[|sep|..], sep);
      PrefixSplit(sep, s);
    } else {
      var rest := Split(s[1..], sep);
      assert Split(s, sep) == [[s[0]] + rest[0]] + rest[1..];
      JoinSplit(s[1..], sep);
      JoinConsHead(s[0], rest, sep);
      assert s == [s[0]] + s[1..];
    }
  }

  /** `split` returns one more part than `count` finds occurrences. */
  lemma {:induction false} SplitCount(s: string, sep: string)
    requires sep != []
    ensures |Split(s, sep)| == Count(s, sep) + 1
    decreases |s|
  {
    if s == [] {
    } else if sep <= s {
      SplitCount(s[|sep|..], sep);
    } else {
      SplitCount(s[1..], sep);
    }
  }

  /** The first part of a split is a prefix of the string. */
  lemma {:induction false} SplitHeadPrefix(s: string, sep: string)
    requires sep != []
    ensures Split(s, sep)[0] <= s
    decreases |s|
  {
    if s != [] && !(sep <= s) {
      SplitHeadPrefix(s[1..], sep);
      assert s == [s[0]] + s[1..];
    }
  }

  /** A prefix of a string that does not start with `sep` does not start
      with `sep` either. */
  lemma PrefixNoMatch(h: string, s: string, sep: string)
    requires h <= s && !(sep <= s)
    ensures !MatchAt(h, sep, 0)
  {
    assert h[0..] == h;
    if |sep| <= |h| {
      assert h[..|sep|] == s[..|sep|];
    }
  }

  /** No part of a split contains the separator. */
  lemma {:induction false} SplitPartsAvoidSep(s: string, sep: string)
    requires sep != []
    ensures forall k :: 0 <= k < |Split(s, sep)| ==> NoMatch(Split(s, sep)[k], sep)
    decreases |s|
  {
    var r := Split(s, sep);
    if s == [] {
      assert r == [[]];
    } else if sep <= s {
      var rest := Split(s[|sep|..], sep);
      SplitPartsAvoidSep(s[|sep|..], sep);
      forall k | 0 <= k < |r| ensures NoMatch(r[k], sep) {
        if k > 0 { assert r[k] == rest[k - 1]; }
      }
    } else {
      var rest := Split(s[1..], sep);
      SplitPartsAvoidSep(s[1..], sep);
      SplitHeadPrefix(s[1..], sep);
      forall k | 0 <= k < |r| ensures NoMatch(r[k], sep) {
        if k > 0 {
          assert r[k] == rest[k];
        } else {
          var h := [s[0]] + rest[0];
          assert h <= s by { assert s == [s[0]] + s[1..]; }
          forall i: nat | i <= |h| ensures !MatchAt(h, sep, i) {
            if i == 0 {
              PrefixNoMatch(h, s, sep);
            } else {
              MatchCons(s[0], rest[0], sep, i - 1);
            }
          }
        }
      }
    }
  }

  /** Dropping the first character of a clean string keeps it clean. */
  lemma CleanTail(c: char, a: string, sep: string)
    requires Clean([c] + a, sep)
    ensures Clean(a, sep)
  {
    forall i: nat | i < |a| ensures !MatchAt(a + sep, sep, i) {
      assert [c] + a + sep == [c] + (a + sep);
      MatchCons(c, a + sep, sep, i);
    }
  }

  /** When no separator starts inside `a`, splitting `a + sep + b` cuts
      exactly after `a`. */
  lemma {:induction false} SplitAppend(a: string, b: string, sep: string)
    requires sep != [] && Clean(a, sep)
    ensures Split(a + sep + b, sep) == [a] + Split(b, sep)
    decreases |a|
  {
    var s := a + sep + b;
    if a == [] {
      assert s == sep + b;
      assert s[|sep|..] == b;
    } else {
      assert !MatchAt(a + sep, sep, 0);
      assert s == (a + sep) + b;
      MatchAppend(a + sep, b, sep, 0);
      assert s[0..] == s;
      assert !(sep <= s);
      assert a == [a[0]] + a[1..];
      CleanTail(a[0], a[1..], sep);
      assert s[1..] == a[1..] + sep + b;
      SplitAppend(a[1..], b, sep);
    }
  }

  /** A clean string holds no occurrence of the separator. */
  lemma CleanNoMatch(a: string, sep: string)
    requires sep != [] && Clean(a, sep)
    ensures NoMatch(a, sep)
  {
    forall i: nat | i <= |a| ensures !MatchAt(a, sep, i) {
      if i + |sep| <= |a| {
        MatchAppend(a, sep, sep, i);
      } else if i <= |a| {
        assert |a[i..]| < |sep|;
      }
    }
  }

  /** A string without the separator splits into itself alone. */
  lemma {:induction false} SplitNoMatch(s: string, sep: string)
    requires sep != [] && NoMatch(s, sep)
    ensures Split(s, sep) == [s]
    decreases |s|
  {
    if s != [] {
      assert s[0..] == s;
      assert !MatchAt(s, sep, 0);
      assert s == [s[0]] + s[1..];
      forall i: nat | i <= |s[1..]| ensures !MatchAt(s[1..], sep, i) {
        MatchCons(s[0], s[1..], sep, i);
      }
      SplitNoMatch(s[1..], sep);
    }
  }

  /** Splitting a join gives the parts back when no separator starts inside
      a part. */
  lemma {:induction false} SplitJoin(parts: seq<string>, sep: string)
    requires sep != [] && |parts| >= 1
    requires forall k :: 0 <= k < |parts| ==> Clean(parts[k], sep)
    ensures Split(Join(parts, sep), sep) == parts
    decreases |parts|
  {
    if |parts| == 1 {
      CleanNoMatch(parts[0], sep);
      SplitNoMatch(parts[0], sep);
    } else {
      SplitAppend(parts[0], Join(parts[1..], sep), sep);
      SplitJoin(parts[1..], sep);
      assert [parts[0]] + parts[1..] == parts;
    }
  }

  /** A string that lacks the separator's first character is clean. */
  lemma FirstCharClean(a: string, sep: string)
    requires sep != [] && sep[0] !in a
    ensures Clean(a, sep)
  {
    forall i: nat | i < |a| ensures !MatchAt(a + sep, sep, i) {
      assert (a + sep)[i] == a[i];
      if MatchAt(a + sep, sep, i) {
        MatchCharAt(a + sep, sep, i, 0);
      }
    }
  }

  /** A string that lacks the separator's first character has no occurrence. */
  lemma FirstCharNoMatch(s: string, sep: string)
    requires sep != [] && sep[0] !in s
    ensures NoMatch(s, sep)
  {
    forall i: nat | i <= |s| ensures !MatchAt(s, sep, i) {
      if MatchAt(s, sep, i) {
        MatchCharAt(s, sep, i, 0);
      }
    }
  }

  /** A character that is neither in a part nor in the separator is not in
      the join. */
  lemma {:induction false} JoinAvoids(c: char, parts: seq<string>, sep: string)
    requires c !in sep && forall k :: 0 <= k < |parts| ==> c !in parts[k]
    ensures c !in Join(parts, sep)
    decreases |parts|
  {
    if |parts| > 1 {
      JoinAvoids(c, parts[1..], sep);
    }
  }

  // ---------------------------------------------------------------------
  // replace(p, "")

  /** `s.replace(p, "")` equals `"".join(s.split(p))`. */
  lemma {:induction false} RemoveIsJoinSplit(s: string, p: string)
    requires p != []
    ensures Remove(s, p) == Join(Split(s, p), [])
    decreases |s|
  {
    if s == [] {
    } else if p <= s {
      var rest := Split(s[|p|..], p);
      RemoveIsJoinSplit(s[|p|..], p);
      assert ([[]] + rest)[1..] == rest;
    } else {
      var rest := Split(s[1..], p);
      RemoveIsJoinSplit(s[1..], p);
      JoinConsHead(s[0], rest, []);
    }
  }

  /** Multiplication distributes over `1 + c`. */
  lemma Distribute(a: nat, c: nat)
    ensures a * (1 + c) == a + a * c
  {
  }

  /** Each removed occurrence shortens the string by the length of `p`. */
  lemma {:induction false} RemoveLength(s: string, p: string)
    requires p != []
    ensures |Remove(s, p)| + |p| * Count(s, p) == |s|
    decreases |s|
  {
    if s == [] {
    } else if p <= s {
      var t := s[|p|..];
      RemoveLength(t, p);
      var c := Count(t, p);
      assert Count(s, p) == 1 + c;
      assert Remove(s, p) == Remove(t, p);
      assert |t| == |s| - |p|;
      Distribute(|p|, c);
    } else {
      RemoveLength(s[1..], p);
      assert Count(s, p) == Count(s[1..], p);
      assert |Remove(s, p)| == 1 + |Remove(s[1..], p)|;
    }
  }

  /** A leading occurrence is removed; what follows is treated as usual. */
  lemma RemoveLeading(p: string, s: string)
    requires p != []
    ensures Remove(p + s, p) == Remove(s, p)
  {
    assert (p + s)[|p|..] == s;
  }

  /** Without an occurrence, `replace` changes nothing. */
  lemma RemoveNoMatch(s: string, p: string)
    requires p != [] && NoMatch(s, p)
    ensures Remove(s, p) == s
  {
    RemoveIsJoinSplit(s, p);
    SplitNoMatch(s, p);
  }

  /** Removal stops at a clean prefix: `(a + p + b).replace(p, "")` is `a`
      followed by `b.replace(p, "")`. */
  lemma RemoveAppend(a: string, p: string, b: string)
    requires p != [] && Clean(a, p)
    ensures Remove(a + p + b, p) == a + Remove(b, p)
  {
    var rest := Split(b, p);
    RemoveIsJoinSplit(a + p + b, p);
    SplitAppend(a, b, p);
    RemoveIsJoinSplit(b, p);
    JoinCons(a, rest, []);
    assert a + [] == a;
  }

  // ---------------------------------------------------------------------
  // strip()

  /** A string with no whitespace at either end is left alone by `strip`. */
  lemma StripStripped(s: string)
    requires Stripped(s)
    ensures Strip(s) == s
  {
  }

  /** `strip` is idempotent. */
  lemma StripIdempotent(s: string)
    ensures Strip(Strip(s)) == Strip(s)
  {
    StripStripped(Strip(s));
  }
}
