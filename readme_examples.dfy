/** documented-test/build.rs: the Rust code blocks of the README become
    test functions. A line scanner finds each opening fence and then the
    closing fence after it, both searches advancing one shared cursor; the
    content lines of every block are then written out as one test each. */
module ReadmeExamples {
  import Text
  import opened Diag

  datatype Fence = Opener | Closer

  /** A line that is exactly an opening fence (`rust` or `rs`) or exactly
      the closing fence. */
  predicate IsFence(line: string, f: Fence) {
    match f
    case Opener => line == "```rust" || line == "```rs"
    case Closer => line == "```"
  }

  /** The content lines of one block, `start` inclusive to `end` exclusive. */
  datatype Range = Range(start: nat, end: nat)

  /** The scan either finds every block or stops at an opening fence with
      no closing fence after it; `line` is that opener's 1-based number. */
  datatype Scan = Found(ranges: seq<Range>) | Unterminated(line: nat)

  /** A block as the scanner reports it: preceded by an opening fence, its
      content free of closing fences, and ended by the first closing fence. */
  predicate IsBlock(lines: seq<string>, rg: Range) {
    && 1 <= rg.start <= rg.end < |lines|
    && IsFence(lines[rg.start - 1], Opener)
    && IsFence(lines[rg.end], Closer)
    && forall j :: rg.start <= j < rg.end ==> !IsFence(lines[j], Closer)
  }

  // ---------------------------------------------------------------------
  // Specification of the scan

  /** `find_map` from `from`: the first line at or after it that is the
      fence `f`. */
  function FirstFence(lines: seq<string>, from: nat, f: Fence): (r: Option<nat>)
    ensures r.Some? ==> from <= r.value < |lines|
    decreases |lines| - from
  {
    if from >= |lines| then None
    else if IsFence(lines[from], f) then Some(from)
    else FirstFence(lines, from + 1, f)
  }

  /** The search finds the first fence `f` at or after `from`, and finds
      nothing only when there is none. */
  lemma {:induction false} FirstFenceFirst(lines: seq<string>, from: nat, f: Fence)
    ensures var r := FirstFence(lines, from, f);
            && (r.Some? ==>
                  && from <= r.value < |lines| && IsFence(lines[r.value], f)
                  && forall j :: from <= j < r.value ==> !IsFence(lines[j], f))
            && (r.None? ==> forall j :: from <= j < |lines| ==> !IsFence(lines[j], f))
    decreases |lines| - from
  {
    if from < |lines| && !IsFence(lines[from], f) {
      FirstFenceFirst(lines, from + 1, f);
    }
  }

  /** The blocks from line `from` on: opener, then the first closer after
      it, then the blocks after that closer. */
  function ScanFrom(lines: seq<string>, from: nat): Scan
    decreases |lines| - from
  {
    match FirstFence(lines, from, Opener)
    case None => Found([])
    case Some(s) =>
      match FirstFence(lines, s + 1, Closer)
      case None => Unterminated(s + 1)
      case Some(e) =>
        match ScanFrom(lines, e + 1)
        case Found(rest) => Found([Range(s + 1, e)] + rest)
        case Unterminated(l) => Unterminated(l)
  }

  /** The blocks found so far in front of the outcome of the rest of the
      scan. */
  function Prefixed(done: seq<Range>, rest: Scan): Scan {
    match rest
    case Found(rs) => Found(done + rs)
    case Unterminated(l) => Unterminated(l)
  }

  /** One round of the scan: a block, then the scan after its closer. */
  lemma ScanStep(lines: seq<string>, from: nat, s: nat, e: nat)
    requires FirstFence(lines, from, Opener) == Some(s) && FirstFence(lines, s + 1, Closer) == Some(e)
    ensures ScanFrom(lines, from) == Prefixed([Range(s + 1, e)], ScanFrom(lines, e + 1))
  {
    match ScanFrom(lines, e + 1)
    case Found(rest) =>
    case Unterminated(_) =>
  }

  /** No opener left: the scan ends with no further block. */
  lemma ScanDone(lines: seq<string>, from: nat)
    requires FirstFence(lines, from, Opener) == None
    ensures ScanFrom(lines, from) == Found([])
  {
  }

  /** An opener without a closer after it ends the scan with its line. */
  lemma ScanUnterminated(lines: seq<string>, from: nat, s: nat)
    requires FirstFence(lines, from, Opener) == Some(s) && FirstFence(lines, s + 1, Closer) == None
    ensures ScanFrom(lines, from) == Unterminated(s + 1)
  {
  }

  lemma PrefixedAppend(a: seq<Range>, b: seq<Range>, x: Scan)
    ensures Prefixed(a, Prefixed(b, x)) == Prefixed(a + b, x)
  {
    match x
    case Found(rs) =>
      assert a + (b + rs) == (a + b) + rs;
    case Unterminated(_) =>
  }

  // ---------------------------------------------------------------------
  // The scanner

  /** One `find_map` call on the shared iterator: the first fence `f` from
      the cursor on, and where the cursor is left (after the match, or at
      the end when there is none). */
  method FindFence(lines: seq<string>, cursor: nat, f: Fence) returns (found: Option<nat>, next: nat)
    requires cursor <= |lines|
    ensures found == FirstFence(lines, cursor, f)
    ensures next == if found.Some? then found.value + 1 else |lines|
  {
    var i := cursor;
    while i < |lines|
      invariant cursor <= i <= |lines|
      invariant FirstFence(lines, i, f) == FirstFence(lines, cursor, f)
    {
      if IsFence(lines[i], f) {
        return Some(i), i + 1;
      }
      i := i + 1;
    }
    return None, |lines|;
  }

  /** The `loop` of extract_readme_example: look for an opener, then for a
      closer, from wherever the previous search stopped. */
  method ScanBlocks(lines: seq<string>) returns (r: Scan)
    ensures r == ScanFrom(lines, 0)
  {
    var cursor := 0;
    var ranges: seq<Range> := [];
    while true
      invariant cursor <= |lines|
      invariant ScanFrom(lines, 0) == Prefixed(ranges, ScanFrom(lines, cursor))
      decreases |lines| - cursor
    {
      var start, end;
      var from := cursor;
      start, cursor := FindFence(lines, cursor, Opener);
      if start.None? {
        ScanDone(lines, from);
        assert ranges + [] == ranges;
        return Found(ranges);
      }
      end, cursor := FindFence(lines, cursor, Closer);
      if end.None? {
        ScanUnterminated(lines, from, start.value);
        return Unterminated(start.value + 1);
      }
      assert cursor == end.value + 1;
      var block := Range(start.value + 1, end.value);
      ghost var rest := ScanFrom(lines, cursor);
      ScanStep(lines, from, start.value, end.value);
      assert ScanFrom(lines, from) == Prefixed([block], rest);
      PrefixedAppend(ranges, [block], rest);
      ranges := ranges + [block];
      assert ScanFrom(lines, 0) == Prefixed(ranges, rest);
    }
  }

  // ---------------------------------------------------------------------
  // The generated tests

  /** The decimal digits of `n`, as `format!("{n}")` writes them. */
  function NatToString(n: nat): (s: string)
    ensures |s| >= 1 && forall i :: 0 <= i < |s| ==> '0' <= s[i] <= '9'
  {
    if n < 10 then [DigitChar(n)]
    else NatToString(n / 10) + [DigitChar(n % 10)]
  }

  /** The character of one decimal digit. */
  function DigitChar(d: nat): (c: char)
    requires d < 10
    ensures '0' <= c <= '9' && c as int - '0' as int == d
  {
    ('0' as int + d) as char
  }

  /** The number a string of decimal digits spells. */
  function DigitsValue(s: string): nat
    requires forall i :: 0 <= i < |s| ==> '0' <= s[i] <= '9'
  {
    if s == [] then 0
    else DigitsValue(s[..|s| - 1]) * 10 + (s[|s| - 1] as int - '0' as int)
  }

  datatype TestCase = TestCase(name: string, body: string)

  function FragmentName(k: nat): string {
    "example_fragment" + NatToString(k)
  }

  function InBounds(lines: seq<string>, ranges: seq<Range>): bool {
    forall k :: 0 <= k < |ranges| ==> ranges[k].start <= ranges[k].end <= |lines|
  }

  /** The k-th range becomes `example_fragment{k}`, whose body is the
      range's lines joined by newlines. */
  function TestCases(lines: seq<string>, ranges: seq<Range>): (r: seq<TestCase>)
    requires InBounds(lines, ranges)
    ensures |r| == |ranges|
    ensures forall k :: 0 <= k < |r| ==>
              r[k] == TestCase(FragmentName(k), Text.Join(lines[ranges[k].start..ranges[k].end]))
  {
    seq(|ranges|, k requires 0 <= k < |ranges| =>
      TestCase(FragmentName(k), Text.Join(lines[ranges[k].start..ranges[k].end])))
  }

  /** One test function as written into the generated file. */
  function TestText(t: TestCase): string {
    "#[test]\nfn " + t.name + "() {\n    " + t.body + "\n}\n"
  }

  /** The generated file: the test functions one after another. */
  function RenderTests(cases: seq<TestCase>): string {
    if cases == [] then ""
    else RenderTests(cases[..|cases| - 1]) + TestText(cases[|cases| - 1])
  }

  /** The `fold` that writes every test into one string. */
  method AssembleTests(lines: seq<string>, ranges: seq<Range>) returns (out: string)
    requires InBounds(lines, ranges)
    ensures out == RenderTests(TestCases(lines, ranges))
  {
    out := "";
    var i := 0;
    while i < |ranges|
      invariant 0 <= i <= |ranges|
      invariant out == RenderTests(TestCases(lines, ranges)[..i])
    {
      var code := Text.Join(lines[ranges[i].start..ranges[i].end]);
      assert TestCases(lines, ranges)[..i + 1][..i] == TestCases(lines, ranges)[..i];
      out := out + TestText(TestCase(FragmentName(i), code));
      i := i + 1;
    }
    assert TestCases(lines, ranges)[..i] == TestCases(lines, ranges);
  }

  // ---------------------------------------------------------------------
  // Lemmas

  /** The first round of the scan from `from` reports a real block. */
  lemma FirstBlock(lines: seq<string>, from: nat, s: nat, e: nat)
    requires FirstFence(lines, from, Opener) == Some(s) && FirstFence(lines, s + 1, Closer) == Some(e)
    ensures IsBlock(lines, Range(s + 1, e))
  {
    FirstFenceFirst(lines, from, Opener);
    FirstFenceFirst(lines, s + 1, Closer);
  }

  predicate AllBlocks(lines: seq<string>, rs: seq<Range>) {
    forall k :: 0 <= k < |rs| ==> IsBlock(lines, rs[k])
  }

  lemma AllBlocksCons(lines: seq<string>, h: Range, rest: seq<Range>)
    requires IsBlock(lines, h) && AllBlocks(lines, rest)
    ensures AllBlocks(lines, [h] + rest)
  {
    var rs := [h] + rest;
    assert forall k :: 1 <= k < |rs| ==> rs[k] == rest[k - 1];
  }

  /** Every block found is a real block. */
  lemma {:induction false} FoundAreBlocks(lines: seq<string>, from: nat)
    requires ScanFrom(lines, from).Found?
    ensures AllBlocks(lines, ScanFrom(lines, from).ranges)
    decreases |lines| - from
  {
    var u := FirstFence(lines, from, Opener);
    if u.Some? {
      var s := u.value;
      var e := FirstFence(lines, s + 1, Closer).value;
      ScanStep(lines, from, s, e);
      FoundAreBlocks(lines, e + 1);
      FirstBlock(lines, from, s, e);
      AllBlocksCons(lines, Range(s + 1, e), ScanFrom(lines, e + 1).ranges);
    } else {
      ScanDone(lines, from);
    }
  }

  /** Every block starts after line `n`. */
  predicate AllAfter(rs: seq<Range>, n: nat) {
    forall k :: 0 <= k < |rs| ==> n < rs[k].start
  }

  lemma AllAfterCons(h: Range, rest: seq<Range>, n: nat)
    requires n < h.start <= h.end && AllAfter(rest, h.end + 1)
    ensures AllAfter([h] + rest, n)
  {
    var rs := [h] + rest;
    assert forall k :: 1 <= k < |rs| ==> rs[k] == rest[k - 1];
  }

  /** Every block found starts after `from`. */
  lemma {:induction false} FoundAfter(lines: seq<string>, from: nat)
    requires ScanFrom(lines, from).Found?
    ensures AllAfter(ScanFrom(lines, from).ranges, from)
    decreases |lines| - from
  {
    var u := FirstFence(lines, from, Opener);
    if u.Some? {
      var s := u.value;
      var e := FirstFence(lines, s + 1, Closer).value;
      ScanStep(lines, from, s, e);
      FoundAfter(lines, e + 1);
      AllAfterCons(Range(s + 1, e), ScanFrom(lines, e + 1).ranges, from);
    } else {
      ScanDone(lines, from);
    }
  }

  /** Blocks in order, each ending before the line ahead of the next one. */
  predicate InOrder(rs: seq<Range>) {
    forall k, l :: 0 <= k < l < |rs| ==> rs[k].end < rs[l].start - 1
  }

  lemma InOrderCons(h: Range, rest: seq<Range>)
    requires InOrder(rest) && AllAfter(rest, h.end + 1)
    ensures InOrder([h] + rest)
  {
    var rs := [h] + rest;
    forall k, l | 0 <= k < l < |rs| ensures rs[k].end < rs[l].start - 1 {
      assert rs[l] == rest[l - 1];
      if k > 0 {
        assert rs[k] == rest[k - 1];
      }
    }
  }

  /** The blocks come in order and do not overlap, not even at a fence. */
  lemma {:induction false} FoundInOrder(lines: seq<string>, from: nat)
    requires ScanFrom(lines, from).Found?
    ensures InOrder(ScanFrom(lines, from).ranges)
    decreases |lines| - from
  {
    var u := FirstFence(lines, from, Opener);
    if u.Some? {
      var s := u.value;
      var e := FirstFence(lines, s + 1, Closer).value;
      ScanStep(lines, from, s, e);
      FoundInOrder(lines, e + 1);
      FoundAfter(lines, e + 1);
      InOrderCons(Range(s + 1, e), ScanFrom(lines, e + 1).ranges);
    } else {
      ScanDone(lines, from);
    }
  }

  /** An unterminated opener has no closing fence anywhere after it. */
  lemma {:induction false} UnterminatedHasNoCloser(lines: seq<string>, from: nat)
    requires ScanFrom(lines, from).Unterminated?
    ensures var l := ScanFrom(lines, from).line;
            && from < l <= |lines| && IsFence(lines[l - 1], Opener)
            && forall j :: l <= j < |lines| ==> !IsFence(lines[j], Closer)
    decreases |lines| - from
  {
    FirstFenceFirst(lines, from, Opener);
    var s := FirstFence(lines, from, Opener).value;
    var v := FirstFence(lines, s + 1, Closer);
    FirstFenceFirst(lines, s + 1, Closer);
    if v.Some? {
      UnterminatedHasNoCloser(lines, v.value + 1);
    }
  }

  /** The blocks found lie within the lines. */
  lemma FoundInBounds(lines: seq<string>)
    requires ScanFrom(lines, 0).Found?
    ensures InBounds(lines, ScanFrom(lines, 0).ranges)
  {
    FoundAreBlocks(lines, 0);
    var rs := ScanFrom(lines, 0).ranges;
    assert forall k :: 0 <= k < |rs| ==> IsBlock(lines, rs[k]);
  }

  /** Line `i` is the opener or a content line of one of the blocks. */
  predicate Covers(rs: seq<Range>, i: nat) {
    exists k :: 0 <= k < |rs| && rs[k].start - 1 <= i < rs[k].end
  }

  lemma CoversCons(h: Range, rest: seq<Range>, i: nat)
    requires (h.start - 1 <= i < h.end) || Covers(rest, i)
    ensures Covers([h] + rest, i)
  {
    var rs := [h] + rest;
    if !(h.start - 1 <= i < h.end) {
      var k :| 0 <= k < |rest| && rest[k].start - 1 <= i < rest[k].end;
      assert rs[k + 1] == rest[k];
    } else {
      assert rs[0] == h;
    }
  }

  /** No opening fence is skipped: every opener at or after `from` is
      either the opener of a block or a content line of one. */
  lemma {:induction false} OpenersCovered(lines: seq<string>, from: nat, i: nat)
    requires ScanFrom(lines, from).Found?
    requires from <= i < |lines| && IsFence(lines[i], Opener)
    ensures Covers(ScanFrom(lines, from).ranges, i)
    decreases |lines| - from
  {
    FirstFenceFirst(lines, from, Opener);
    var s := FirstFence(lines, from, Opener).value;
    FirstFenceFirst(lines, s + 1, Closer);
    var e := FirstFence(lines, s + 1, Closer).value;
    ScanStep(lines, from, s, e);
    if e <= i {
      CloserIsNotOpener(lines[e]);
      OpenersCovered(lines, e + 1, i);
    }
    CoversCons(Range(s + 1, e), ScanFrom(lines, e + 1).ranges, i);
  }

  lemma CloserIsNotOpener(line: string)
    requires IsFence(line, Closer)
    ensures !IsFence(line, Opener)
  {
  }

  /** Where the scan resumes after the blocks `rs` found from `from`:
      the line after the last closer, or `from` when there is none. */
  function ResumeLine(rs: seq<Range>, from: nat): nat {
    if rs == [] then from else rs[|rs| - 1].end + 1
  }

  lemma ResumeLineCons(h: Range, rest: seq<Range>, from: nat)
    ensures ResumeLine([h] + rest, from) == ResumeLine(rest, h.end + 1)
  {
    if rest != [] {
      assert ([h] + rest)[|rest|] == rest[|rest| - 1];
    }
  }

  /** After the last block, no opening fence remains. */
  lemma {:induction false} NothingAfterLast(lines: seq<string>, from: nat)
    requires ScanFrom(lines, from).Found?
    ensures forall j :: ResumeLine(ScanFrom(lines, from).ranges, from) <= j < |lines| ==> !IsFence(lines[j], Opener)
    decreases |lines| - from
  {
    FirstFenceFirst(lines, from, Opener);
    var u := FirstFence(lines, from, Opener);
    if u.Some? {
      var s := u.value;
      var e := FirstFence(lines, s + 1, Closer).value;
      ScanStep(lines, from, s, e);
      NothingAfterLast(lines, e + 1);
      ResumeLineCons(Range(s + 1, e), ScanFrom(lines, e + 1).ranges, from);
    } else {
      ScanDone(lines, from);
    }
  }

  /** Whatever the lines between an opener and the first closer after it
      look like (opener-looking lines included), they are the block's
      content: the block is `Range(o + 1, c)` and scanning resumes only
      after the closer. */
  lemma ResumesAfterCloser(lines: seq<string>, from: nat, o: nat, c: nat)
    requires FirstFence(lines, from, Opener) == Some(o)
    requires FirstFence(lines, o + 1, Closer) == Some(c)
    ensures ScanFrom(lines, from) == Prefixed([Range(o + 1, c)], ScanFrom(lines, c + 1))
  {
  }

  /** An opener with no closer after it is reported at its 1-based line,
      which is `o + 1` for the opener at index `o`. */
  lemma UnterminatedReported(lines: seq<string>, from: nat, o: nat)
    requires FirstFence(lines, from, Opener) == Some(o)
    requires FirstFence(lines, o + 1, Closer).None?
    ensures ScanFrom(lines, from) == Unterminated(o + 1)
  {
  }

  /** The digits read back to the number. */
  lemma {:induction false} DigitsOfNat(n: nat)
    ensures DigitsValue(NatToString(n)) == n
  {
    if n >= 10 {
      DigitsOfNat(n / 10);
      DigitsAppend(NatToString(n / 10), n % 10);
    }
  }

  /** Appending a digit multiplies by ten and adds it. */
  lemma DigitsAppend(s: string, d: nat)
    requires d < 10 && forall i :: 0 <= i < |s| ==> '0' <= s[i] <= '9'
    ensures DigitsValue(s + [DigitChar(d)]) == DigitsValue(s) * 10 + d
  {
    var t := s + [DigitChar(d)];
    assert t[..|t| - 1] == s;
  }

  /** Different blocks get different test names. */
  lemma FragmentNamesDistinct(k: nat, l: nat)
    requires k != l
    ensures FragmentName(k) != FragmentName(l)
  {
    DigitsOfNat(k);
    DigitsOfNat(l);
    var p := "example_fragment";
    assert FragmentName(k)[|p|..] == NatToString(k);
    assert FragmentName(l)[|p|..] == NatToString(l);
  }

  /** A test body splits back into its block's lines when the lines hold
      no newline (they come from `str::lines`). */
  lemma BodyKeepsLines(lines: seq<string>, ranges: seq<Range>, k: nat)
    requires InBounds(lines, ranges) && k < |ranges|
    requires ranges[k].start < ranges[k].end
    requires forall i :: 0 <= i < |lines| ==> Text.NoNewline(lines[i])
    ensures Text.Split(TestCases(lines, ranges)[k].body) == lines[ranges[k].start..ranges[k].end]
  {
    Text.SplitOfJoinLines(lines[ranges[k].start..ranges[k].end]);
  }
}
