/** The few pieces of Python's `str` behaviour the scripts rely on: whitespace,
    `split` on one separator character, `join`, `strip`, `in`, `startswith`,
    `rfind`, slicing with negative indices, and the lexicographic `<` on strings. */
module Text {

  /** The code-point ranges of the characters for which Python's
      `str.isspace()` holds; `\s` in a regular expression over `str`,
      `strip()` and `split()` all use this set. */
  const SPACE_RANGES: seq<(char, char)> :=
    [('\t', '\r'), ('\U{1C}', ' '), ('\U{85}', '\U{85}'), ('\U{A0}', '\U{A0}'), ('\U{1680}', '\U{1680}'),
     ('\U{2000}', '\U{200A}'), ('\U{2028}', '\U{2029}'), ('\U{202F}', '\U{202F}'), ('\U{205F}', '\U{205F}'),
     ('\U{3000}', '\U{3000}')]

  predicate InRanges(c: char, ranges: seq<(char, char)>)
  {
    ranges != [] && (ranges[0].0 <= c <= ranges[0].1 || InRanges(c, ranges[1..]))
  }

  /** Python's `str.isspace()` for one character. */
  predicate IsSpace(c: char)
  {
    InRanges(c, SPACE_RANGES)
  }

  predicate NoSpace(s: string)
  {
    forall i :: 0 <= i < |s| ==> !IsSpace(s[i])
  }

  /** `s.split(d)` for a one-character separator `d`: the pieces between the
      occurrences of `d`, always at least one. */
  function Split(s: string, d: char): (parts: seq<string>)
    ensures |parts| >= 1
  {
    if s == [] then [[]]
    else
      var rest := Split(s[1..], d);
      if s[0] == d then [[]] + rest
      else [[s[0]] + rest[0]] + rest[1..]
  }

  /** The pieces of a split are free of the separator and join back to the
      original string. */
  lemma {:induction false} JoinSplit(s: string, d: char)
    ensures forall k :: 0 <= k < |Split(s, d)| ==> d !in Split(s, d)[k]
    ensures Join(Split(s, d), d) == s
  {
    if s != [] {
      var rest := Split(s[1..], d);
      JoinSplit(s[1..], d);
      if s[0] != d {
        JoinCons(s[0], rest, d);
      }
    }
  }

  /** `d.join(parts)`. */
  function Join(parts: seq<string>, d: char): string
  {
    if |parts| == 0 then []
    else if |parts| == 1 then parts[0]
    else parts[0] + [d] + Join(parts[1..], d)
  }

  lemma JoinCons(c: char, parts: seq<string>, d: char)
    requires |parts| >= 1
    ensures Join([[c] + parts[0]] + parts[1..], d) == [c] + Join(parts, d)
  {
    var ps := [[c] + parts[0]] + parts[1..];
    if |parts| > 1 {
      assert ps[1..] == parts[1..];
    }
  }

  /** Splitting a joined line gives back its fields, provided no field
      contains the separator: the two are inverse on such fields. */
  lemma {:induction false} SplitJoin(parts: seq<string>, d: char)
    requires |parts| >= 1
    requires forall k :: 0 <= k < |parts| ==> d !in parts[k]
    ensures Split(Join(parts, d), d) == parts
  {
    if |parts| == 1 {
      SplitNoSeparator(parts[0], d);
    } else {
      SplitJoin(parts[1..], d);
      SplitPrefix(parts[0], Join(parts[1..], d), d);
      assert [parts[0]] + parts[1..] == parts;
    }
  }

  lemma {:induction false} SplitNoSeparator(s: string, d: char)
    requires d !in s
    ensures Split(s, d) == [s]
  {
    if s != [] {
      SplitNoSeparator(s[1..], d);
      assert s[0] != d;
      assert [s[0]] + s[1..] == s;
    }
  }

  lemma {:induction false} SplitPrefix(p: string, rest: string, d: char)
    requires d !in p
    ensures Split(p + [d] + rest, d) == [p] + Split(rest, d)
  {
    if p == [] {
      assert p + [d] + rest == [d] + rest;
      assert ([d] + rest)[1..] == rest;
    } else {
      SplitPrefix(p[1..], rest, d);
      var whole := p + [d] + rest;
      assert whole[0] == p[0] && whole[1..] == p[1..] + [d] + rest;
      var tail := Split(whole[1..], d);
      assert tail == [p[1..]] + Split(rest, d);
      assert Split(whole, d) == [[p[0]] + tail[0]] + tail[1..];
      assert [p[0]] + p[1..] == p;
    }
  }

  /** Everything after the last `d` of `s`, or the whole of `s` when `d` does
      not occur: what `[^d]*$` finds, and `s.split(d)[-1]`. */
  function AfterLast(s: string, d: char): (r: string)
    ensures |r| <= |s| && d !in r
    ensures r == s[|s| - |r|..]
  {
    if s == [] then []
    else if s[|s| - 1] == d then []
    else
      var t := AfterLast(s[..|s| - 1], d);
      assert s[|s| - |t| - 1..] == s[..|s| - 1][|s| - 1 - |t|..] + [s[|s| - 1]];
      t + [s[|s| - 1]]
  }

  /** Short of the whole string, the part after the last `d` is preceded by
      a `d`. */
  lemma {:induction false} AfterLastDelimited(s: string, d: char)
    ensures var r := AfterLast(s, d); |r| < |s| ==> s[|s| - |r| - 1] == d
  {
    if s != [] && s[|s| - 1] != d {
      AfterLastDelimited(s[..|s| - 1], d);
    }
  }

  /** The part after the last `d` is the suffix from any position that
      follows a `d` (or the start) and from which no `d` remains. */
  lemma {:induction false} AfterLastAt(s: string, d: char, p: nat)
    requires p <= |s| && (p == 0 || s[p - 1] == d)
    requires forall i :: p <= i < |s| ==> s[i] != d
    ensures AfterLast(s, d) == s[p..]
  {
    if s != [] && s[|s| - 1] != d {
      var t := s[..|s| - 1];
      assert p < |s|;
      AfterLastAt(t, d, p);
      assert s[p..] == t[p..] + [s[|s| - 1]];
    }
  }

  /** `s[s.rfind(d)+1:]` is the part after the last `d`. */
  lemma RFindAfterLast(s: string, d: char)
    ensures AfterLast(s, d) == s[RFind(s, d) + 1..]
  {
    AfterLastAt(s, d, RFind(s, d) + 1);
  }

  function TrailingWord(s: string): (r: string)
    ensures |r| <= |s| && r == s[|s| - |r|..]
    ensures NoSpace(r)
  {
    if s == [] || IsSpace(s[|s| - 1]) then []
    else TrailingWord(s[..|s| - 1]) + [s[|s| - 1]]
  }

  /** Short of the whole string, the trailing word is preceded by
      whitespace. */
  lemma {:induction false} TrailingWordDelimited(s: string)
    ensures var r := TrailingWord(s); |r| < |s| ==> IsSpace(s[|s| - |r| - 1])
  {
    if s != [] && !IsSpace(s[|s| - 1]) {
      var t := s[..|s| - 1];
      TrailingWordDelimited(t);
      var r := TrailingWord(t);
      assert TrailingWord(s) == r + [s[|s| - 1]];
      if |r| < |t| {
        assert s[|s| - |r| - 2] == t[|t| - |r| - 1];
      }
    }
  }

  /** `s.rfind(c)`: the last index of `c`, or -1. */
  function RFind(s: string, c: char): (r: int)
    ensures -1 <= r < |s|
    ensures r == -1 <==> c !in s
    ensures r >= 0 ==> s[r] == c
    ensures forall k :: r < k < |s| ==> s[k] != c
  {
    if s == [] then -1
    else if s[|s| - 1] == c then |s| - 1
    else RFind(s[..|s| - 1], c)
  }

  /** The index Python uses for `i` in a slice of a string of length `n`. */
  function SliceIndex(i: int, n: nat): (r: nat)
    ensures r <= n
  {
    if i < 0 then (if i + n < 0 then 0 else i + n)
    else if i > n then n
    else i
  }

  /** Python's `s[i:j]`. */
  function Slice(s: string, i: int, j: int): (r: string)
    ensures |r| <= |s|
  {
    var a := SliceIndex(i, |s|);
    var b := SliceIndex(j, |s|);
    if a < b then s[a..b] else []
  }

  /** Python's `sub in s`. */
  predicate Contains(s: string, sub: string)
  {
    sub <= s || (s != [] && Contains(s[1..], sub))
  }

  /** Python's `s.startswith(p)`. */
  predicate StartsWith(s: string, p: string)
  {
    p <= s
  }

  predicate EndsWith(s: string, p: string)
  {
    |p| <= |s| && s[|s| - |p|..] == p
  }

  /** Leading whitespace removed (`lstrip()`). */
  function TrimStart(s: string): string
  {
    if s != [] && IsSpace(s[0]) then TrimStart(s[1..]) else s
  }

  /** Trailing whitespace removed (`rstrip()`). */
  function TrimEnd(s: string): string
  {
    if s != [] && IsSpace(s[|s| - 1]) then TrimEnd(s[..|s| - 1]) else s
  }

  /** Python's `s.strip()`. */
  function Strip(s: string): string
  {
    TrimEnd(TrimStart(s))
  }

  /** The string with every occurrence of `c` removed (`s.replace(c, "")`). */
  function Remove(s: string, c: char): (r: string)
    ensures c !in r
    ensures c !in s ==> r == s
  {
    if s == [] then []
    else if s[|s| - 1] == c then Remove(s[..|s| - 1], c)
    else Remove(s[..|s| - 1], c) + [s[|s| - 1]]
  }

  /** One character is dropped exactly when it is `c`. */
  lemma RemoveChar(x: char, c: char)
    ensures Remove([x], c) == if x == c then [] else [x]
  {
    assert [x][..0] == [];
  }

  /** Removing from a concatenation is removing from each part: every other
      character is kept, in order. */
  lemma {:induction false} RemoveAppend(a: string, b: string, c: char)
    ensures Remove(a + b, c) == Remove(a, c) + Remove(b, c)
  {
    if b == [] {
      assert a + b == a;
    } else {
      var init := b[..|b| - 1];
      RemoveAppend(a, init, c);
      assert (a + b)[..|a + b| - 1] == a + init;
    }
  }

  /** Python's `a <= b` on strings: code-point lexicographic order, a proper
      prefix coming first. */
  predicate StrLe(a: string, b: string)
  {
    a == [] || (b != [] && (a[0] < b[0] || (a[0] == b[0] && StrLe(a[1..], b[1..]))))
  }

  predicate StrLt(a: string, b: string)
  {
    StrLe(a, b) && a != b
  }

  lemma {:induction false} StrLeTotal(a: string, b: string)
    ensures StrLe(a, b) || StrLe(b, a)
  {
    if a != [] && b != [] && a[0] == b[0] {
      StrLeTotal(a[1..], b[1..]);
    }
  }

  lemma {:induction false} StrLeAntisymmetric(a: string, b: string)
    requires StrLe(a, b) && StrLe(b, a)
    ensures a == b
  {
    if a != [] && b != [] {
      StrLeAntisymmetric(a[1..], b[1..]);
      assert a == [a[0]] + a[1..] && b == [b[0]] + b[1..];
    }
  }

  lemma {:induction false} StrLeTransitive(a: string, b: string, c: string)
    requires StrLe(a, b) && StrLe(b, c)
    ensures StrLe(a, c)
  {
    if a != [] && b != [] && c != [] && a[0] == b[0] == c[0] {
      StrLeTransitive(a[1..], b[1..], c[1..]);
    }
  }
}
