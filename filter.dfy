/** filter.py: the easy-instance list is read into a set of (class, instance)
    pairs, and a result table keeps its header and every other line whose
    (second-to-last cell, first cell) is not in that set.  Files are given as
    their sequences of lines, each line as read, trailing newline included. */
module Filter {
  import opened Wrappers
  import opened Text
  import opened Sorting

  /** (class name, instance name) */
  type Pair = (string, string)

  /** `classname, instance = ...` met a line that did not split into exactly
      two parts. */
  datatype ReadEasyError = UnpackError(line: nat, parts: nat)

  /** `next(f)` on an empty table, or `cells[-2]` on a line without a comma. */
  datatype FilterError = EmptyInput | TooFewCells(line: nat)

  /** The pair one easy-file line stands for: `line.strip().split("/")` must
      give exactly two parts. */
  function EasyEntry(line: string): (r: Option<Pair>)
    ensures r.Some? <==> |Split(Strip(line), '/')| == 2
    ensures r.Some? ==> '/' !in r.value.0 && '/' !in r.value.1
    ensures r.Some? ==> Strip(line) == r.value.0 + "/" + r.value.1
  {
    var parts := Split(Strip(line), '/');
    JoinSplit(Strip(line), '/');
    if |parts| == 2 then Some((parts[0], parts[1])) else None
  }

  /** read_easy: every line must be a `class/instance` pair; the first line
      that is not stops the reading. */
  method ReadEasy(lines: seq<string>) returns (r: Result<set<Pair>, ReadEasyError>)
    ensures r.Ok? <==> forall i :: 0 <= i < |lines| ==> EasyEntry(lines[i]).Some?
    ensures r.Ok? ==> forall p :: p in r.value <==> exists i :: 0 <= i < |lines| && EasyEntry(lines[i]) == Some(p)
    ensures r.Err? ==> r.error.line < |lines| && EasyEntry(lines[r.error.line]).None?
    ensures r.Err? ==> forall i :: 0 <= i < r.error.line ==> EasyEntry(lines[i]).Some?
    ensures r.Err? ==> r.error.parts == |Split(Strip(lines[r.error.line]), '/')|
  {
    var easy: set<Pair> := {};
    var k := 0;
    while k < |lines|
      invariant 0 <= k <= |lines|
      invariant forall i :: 0 <= i < k ==> EasyEntry(lines[i]).Some?
      invariant forall p :: p in easy <==> exists i :: 0 <= i < k && EasyEntry(lines[i]) == Some(p)
    {
      var parts := Split(Strip(lines[k]), '/');
      if |parts| != 2 {
        return Err(UnpackError(k, |parts|));
      }
      easy := easy + {(parts[0], parts[1])};
      k := k + 1;
    }
    return Ok(easy);
  }

  /** `line.strip().split(",")` */
  function Cells(line: string): seq<string>
  {
    Split(Strip(line), ',')
  }

  /** A table line on which `cells[-2]` exists. */
  predicate WellFormed(line: string)
  {
    |Cells(line)| >= 2
  }

  predicate AllWellFormed(lines: seq<string>)
  {
    forall i :: 0 <= i < |lines| ==> WellFormed(lines[i])
  }

  /** The line's (class, instance) identity is in the easy set. */
  predicate IsEasy(line: string, easy: set<Pair>)
    requires WellFormed(line)
  {
    var cells := Cells(line);
    (cells[|cells| - 2], cells[0]) in easy
  }

  /** The lines that survive, in their original order. */
  function FilterLines(body: seq<string>, easy: set<Pair>): seq<string>
    requires AllWellFormed(body)
  {
    if body == [] then []
    else
      var last := body[|body| - 1];
      FilterLines(body[..|body| - 1], easy) + (if IsEasy(last, easy) then [] else [last])
  }

  /** The first line after the header that has no second-to-last cell. */
  function FirstMalformed(lines: seq<string>, from: nat): (r: Option<nat>)
    requires 1 <= from
    ensures r.None? ==> forall i :: from <= i < |lines| ==> WellFormed(lines[i])
    ensures r.Some? ==> from <= r.value < |lines| && !WellFormed(lines[r.value])
    ensures r.Some? ==> forall i :: from <= i < r.value ==> WellFormed(lines[i])
    decreases |lines| - from
  {
    if from >= |lines| then None
    else if !WellFormed(lines[from]) then Some(from)
    else FirstMalformed(lines, from + 1)
  }

  /** read_and_filter on the lines of one table. */
  function FilterFile(lines: seq<string>, easy: set<Pair>): (r: Result<seq<string>, FilterError>)
    ensures r == Err(EmptyInput) <==> lines == []
    ensures r.Ok? <==> lines != [] && AllWellFormed(lines[1..])
    ensures r.Ok? ==> r.value != [] && r.value[0] == lines[0]
  {
    if lines == [] then Err(EmptyInput)
    else match FirstMalformed(lines, 1)
      case Some(i) => Err(TooFewCells(i))
      case None =>
        assert forall i :: 0 <= i < |lines[1..]| ==> lines[1..][i] == lines[i + 1];
        Ok([lines[0]] + FilterLines(lines[1..], easy))
  }

  /** One more line of the table. */
  lemma FilterStep(lines: seq<string>, k: nat, easy: set<Pair>)
    requires 1 <= k < |lines| && AllWellFormed(lines[1..k]) && WellFormed(lines[k])
    ensures AllWellFormed(lines[1..k + 1])
    ensures FilterLines(lines[1..k + 1], easy) == FilterLines(lines[1..k], easy) + (if IsEasy(lines[k], easy) then [] else [lines[k]])
    ensures FirstMalformed(lines, k) == FirstMalformed(lines, k + 1)
  {
    var body := lines[1..k + 1];
    assert body[..k - 1] == lines[1..k];
    assert body[k - 1] == lines[k];
    forall i | 0 <= i < |body|
      ensures WellFormed(body[i])
    {
      if i < k - 1 {
        assert body[i] == lines[1..k][i];
      }
    }
    var last := body[|body| - 1];
    assert FilterLines(body, easy) == FilterLines(body[..|body| - 1], easy) + (if IsEasy(last, easy) then [] else [last]);
  }

  /** The loop of read_and_filter has passed the lines before `k`: all of
      them have two cells, and `filtered` holds the header and the lines
      kept so far. */
  predicate Scanned(lines: seq<string>, k: nat, easy: set<Pair>, filtered: seq<string>)
    requires 1 <= k <= |lines|
  {
    && AllWellFormed(lines[1..k])
    && FirstMalformed(lines, 1) == FirstMalformed(lines, k)
    && filtered == [lines[0]] + FilterLines(lines[1..k], easy)
  }

  /** read_and_filter: the header, then every later line not in the easy set. */
  method ReadAndFilter(lines: seq<string>, easy: set<Pair>) returns (r: Result<seq<string>, FilterError>)
    ensures r == FilterFile(lines, easy)
  {
    if |lines| == 0 {
      return Err(EmptyInput);
    }
    var filtered := [lines[0]];
    for k := 1 to |lines|
      invariant Scanned(lines, k, easy, filtered)
    {
      var cells := Cells(lines[k]);
      if |cells| < 2 {
        assert FirstMalformed(lines, k) == Some(k);
        return Err(TooFewCells(k));
      }
      FilterStep(lines, k, easy);
      if (cells[|cells| - 2], cells[0]) !in easy {
        filtered := filtered + [lines[k]];
      }
    }
    assert lines[1..|lines|] == lines[1..];
    return Ok(filtered);
  }

  /** A line is kept exactly when it is not easy. */
  lemma {:induction false} FilterMembership(body: seq<string>, easy: set<Pair>, line: string)
    requires AllWellFormed(body)
    ensures line in FilterLines(body, easy) <==> line in body && !IsEasy(line, easy)
  {
    if body != [] {
      var init := body[..|body| - 1];
      FilterMembership(init, easy, line);
      assert body == init + [body[|body| - 1]];
    }
  }

  /** A line is kept as often as it occurs, unless it is easy. */
  lemma {:induction false} FilterCount(body: seq<string>, easy: set<Pair>, line: string)
    requires AllWellFormed(body) && WellFormed(line)
    ensures multiset(FilterLines(body, easy))[line] == if IsEasy(line, easy) then 0 else multiset(body)[line]
  {
    if body != [] {
      var init := body[..|body| - 1];
      var last := body[|body| - 1];
      FilterCount(init, easy, line);
      MultisetSnoc(body);
      var kept := if IsEasy(last, easy) then [] else [last];
      assert FilterLines(body, easy) == FilterLines(init, easy) + kept;
    }
  }

  /** The kept lines are an order-preserving subsequence of the input. */
  lemma {:induction false} FilterIsSubsequence(body: seq<string>, easy: set<Pair>)
    requires AllWellFormed(body)
    ensures IsSubsequence(FilterLines(body, easy), body)
  {
    if body != [] {
      var init := body[..|body| - 1];
      var last := body[|body| - 1];
      FilterIsSubsequence(init, easy);
      assert body == init + [last];
      if IsEasy(last, easy) {
        assert FilterLines(body, easy) == FilterLines(init, easy);
        SubsequenceSnoc(FilterLines(init, easy), init, last);
      } else {
        assert FilterLines(body, easy) == FilterLines(init, easy) + [last];
        SubsequenceSnocBoth(FilterLines(init, easy), init, last);
      }
    }
  }

  /** Nothing is filtered out by an empty easy set. */
  lemma {:induction false} FilterEmptySet(body: seq<string>)
    requires AllWellFormed(body)
    ensures FilterLines(body, {}) == body
  {
    if body != [] {
      var init := body[..|body| - 1];
      FilterEmptySet(init);
      assert body == init + [body[|body| - 1]];
    }
  }

  lemma {:induction false} FilterKeepsWellFormed(body: seq<string>, easy: set<Pair>)
    requires AllWellFormed(body)
    ensures AllWellFormed(FilterLines(body, easy))
  {
    if body != [] {
      FilterKeepsWellFormed(body[..|body| - 1], easy);
    }
  }

  /** Filtering twice with the same set is filtering once. */
  lemma {:induction false} FilterIdempotent(body: seq<string>, easy: set<Pair>)
    requires AllWellFormed(body)
    ensures AllWellFormed(FilterLines(body, easy))
    ensures FilterLines(FilterLines(body, easy), easy) == FilterLines(body, easy)
  {
    FilterKeepsWellFormed(body, easy);
    if body != [] {
      var init := body[..|body| - 1];
      var last := body[|body| - 1];
      FilterIdempotent(init, easy);
      FilterKeepsWellFormed(init, easy);
      var once := FilterLines(init, easy);
      if IsEasy(last, easy) {
        assert FilterLines(body, easy) == once;
      } else {
        assert FilterLines(body, easy) == once + [last];
        assert (once + [last])[..|once|] == once;
        assert FilterLines(once + [last], easy) == FilterLines(once, easy) + [last];
      }
    }
  }

  /** A larger easy set keeps a subsequence of what a smaller one keeps. */
  lemma {:induction false} FilterAntitone(body: seq<string>, small: set<Pair>, large: set<Pair>)
    requires AllWellFormed(body)
    requires small <= large
    ensures IsSubsequence(FilterLines(body, large), FilterLines(body, small))
  {
    if body != [] {
      var init := body[..|body| - 1];
      var last := body[|body| - 1];
      FilterAntitone(init, small, large);
      var fl, fs := FilterLines(init, large), FilterLines(init, small);
      if IsEasy(last, large) {
        assert FilterLines(body, large) == fl;
        if IsEasy(last, small) {
          assert FilterLines(body, small) == fs;
        } else {
          assert FilterLines(body, small) == fs + [last];
          SubsequenceSnoc(fl, fs, last);
        }
      } else {
        assert !IsEasy(last, small);
        assert FilterLines(body, large) == fl + [last];
        assert FilterLines(body, small) == fs + [last];
        SubsequenceSnocBoth(fl, fs, last);
      }
    }
  }

  /** read_and_filter in full: the header first, then exactly the non-easy
      lines in their order, each as often as in the input. */
  lemma FilterFileContents(lines: seq<string>, easy: set<Pair>, line: string)
    requires FilterFile(lines, easy).Ok?
    ensures IsSubsequence(FilterFile(lines, easy).value[1..], lines[1..])
    ensures line in FilterFile(lines, easy).value[1..] <==> line in lines[1..] && !IsEasy(line, easy)
    ensures line in lines[1..] ==>
              multiset(FilterFile(lines, easy).value[1..])[line] == if IsEasy(line, easy) then 0 else multiset(lines[1..])[line]
  {
    var out := FilterFile(lines, easy).value;
    assert out[1..] == FilterLines(lines[1..], easy);
    FilterIsSubsequence(lines[1..], easy);
    FilterMembership(lines[1..], easy, line);
    if line in lines[1..] {
      FilterCount(lines[1..], easy, line);
    }
  }

  /** Filtering a filtered table again changes nothing. */
  lemma FilterFileIdempotent(lines: seq<string>, easy: set<Pair>)
    requires FilterFile(lines, easy).Ok?
    ensures FilterFile(FilterFile(lines, easy).value, easy) == FilterFile(lines, easy)
  {
    var out := FilterFile(lines, easy).value;
    FilterIdempotent(lines[1..], easy);
    assert out[1..] == FilterLines(lines[1..], easy);
  }

  /** With no easy instances the table comes back unchanged. */
  lemma FilterFileEmptySet(lines: seq<string>)
    requires lines != [] && AllWellFormed(lines[1..])
    ensures FilterFile(lines, {}) == Ok(lines)
  {
    FilterEmptySet(lines[1..]);
    assert [lines[0]] + lines[1..] == lines;
  }
}
