/** String primitives the doc-text normaliser is built from: Rust's
    `str::split('\n')`, `str::trim` and `[String]::join("\n")`. */
module Text {

  /** Rust's `char::is_whitespace`: the Unicode White_Space property. */
  predicate IsWhitespace(c: char) {
    || ('\t' <= c <= '\r')
    || c == ' '
    || c == '\U{0085}'
    || c == '\U{00A0}'
    || c == '\U{1680}'
    || ('\U{2000}' <= c <= '\U{200A}')
    || c == '\U{2028}'
    || c == '\U{2029}'
    || c == '\U{202F}'
    || c == '\U{205F}'
    || c == '\U{3000}'
  }

  /** True when `s` neither starts nor ends with whitespace. */
  predicate IsTrimmed(s: string) {
    s == [] || (!IsWhitespace(s[0]) && !IsWhitespace(s[|s| - 1]))
  }

  /** Drops the leading whitespace. */
  function TrimStart(s: string): (r: string)
    ensures |r| <= |s| && r == s[|s| - |r|..]
    ensures r == [] || !IsWhitespace(r[0])
    ensures forall i :: 0 <= i < |s| - |r| ==> IsWhitespace(s[i])
  {
    if s != [] && IsWhitespace(s[0]) then TrimStart(s[1..]) else s
  }

  /** Drops the trailing whitespace. */
  function TrimEnd(s: string): (r: string)
    ensures |r| <= |s| && r == s[..|r|]
    ensures r == [] || !IsWhitespace(r[|r| - 1])
    ensures forall i :: |r| <= i < |s| ==> IsWhitespace(s[i])
  {
    if s != [] && IsWhitespace(s[|s| - 1]) then TrimEnd(s[..|s| - 1]) else s
  }

  /** Rust's `str::trim`: the longest infix of `s` that neither starts nor
      ends with whitespace, obtained by removing whitespace only. */
  function Trim(s: string): (r: string)
    ensures IsTrimmed(r)
    ensures forall c :: c in r ==> c in s
    ensures IsTrimmed(s) ==> r == s
    ensures exists i, j :: WhitespaceAround(s, r, i, j)
  {
    var t := TrimStart(s);
    var e := TrimEnd(t);
    SuffixChars(s, t);
    PrefixChars(t, e);
    StripsOnlyWhitespace(s, t, e);
    if IsTrimmed(s) then TrimmedIsFixed(s); e else e
  }

  /** `r` is the infix `s[i..j]` of `s`, and everything outside it is
      whitespace. */
  predicate WhitespaceAround(s: string, r: string, i: int, j: int) {
    && 0 <= i <= j <= |s| && r == s[i..j]
    && (forall k :: 0 <= k < i ==> IsWhitespace(s[k]))
    && (forall k :: j <= k < |s| ==> IsWhitespace(s[k]))
  }

  /** Dropping leading whitespace and then trailing whitespace leaves an
      infix with only whitespace outside it. */
  lemma StripsOnlyWhitespace(s: string, t: string, e: string)
    requires |t| <= |s| && t == s[|s| - |t|..]
    requires forall k :: 0 <= k < |s| - |t| ==> IsWhitespace(s[k])
    requires |e| <= |t| && e == t[..|e|]
    requires forall k :: |e| <= k < |t| ==> IsWhitespace(t[k])
    ensures WhitespaceAround(s, e, |s| - |t|, |s| - |t| + |e|)
  {
    var i := |s| - |t|;
    assert e == s[i..i + |e|];
    forall k | i + |e| <= k < |s| ensures IsWhitespace(s[k]) {
      assert s[k] == t[k - i];
    }
  }

  lemma SuffixChars(s: string, t: string)
    requires |t| <= |s| && t == s[|s| - |t|..]
    ensures forall c :: c in t ==> c in s
  {
    forall c | c in t ensures c in s {
      var i :| 0 <= i < |t| && t[i] == c;
      assert s[|s| - |t| + i] == c;
    }
  }

  lemma PrefixChars(s: string, t: string)
    requires |t| <= |s| && t == s[..|t|]
    ensures forall c :: c in t ==> c in s
  {
    forall c | c in t ensures c in s {
      var i :| 0 <= i < |t| && t[i] == c;
      assert s[i] == c;
    }
  }

  /** Trimming changes nothing on a string that is already trimmed. */
  lemma TrimmedIsFixed(s: string)
    requires IsTrimmed(s)
    ensures TrimStart(s) == s && TrimEnd(s) == s
  {
  }

  /** Rust's `str::split('\n')`: the pieces between line feeds. An empty
      string gives one empty piece and a trailing line feed gives a final
      empty piece. */
  function Split(s: string): (r: seq<string>)
    ensures |r| >= 1
    decreases |s|
  {
    if s == [] then [""]
    else if s[0] == '\n' then [""] + Split(s[1..])
    else
      var rest := Split(s[1..]);
      [[s[0]] + rest[0]] + rest[1..]
  }

  /** `[String]::join("\n")`. */
  function Join(ls: seq<string>): string
  {
    if |ls| == 0 then ""
    else if |ls| == 1 then ls[0]
    else ls[0] + "\n" + Join(ls[1..])
  }

  /** The lines of every fragment, fragment after fragment
      (`flat_map(|lit| lit.split('\n'))`). */
  function Lines(fragments: seq<string>): (r: seq<string>)
  {
    if fragments == [] then [] else Split(fragments[0]) + Lines(fragments[1..])
  }

  /** Applies `Trim` to every line. */
  function TrimAll(ls: seq<string>): (r: seq<string>)
    ensures |r| == |ls|
    ensures forall i :: 0 <= i < |ls| ==> r[i] == Trim(ls[i])
  {
    if ls == [] then [] else [Trim(ls[0])] + TrimAll(ls[1..])
  }

  /** Number of line feeds in `s`. */
  function Newlines(s: string): nat
  {
    if s == [] then 0 else (if s[0] == '\n' then 1 else 0) + Newlines(s[1..])
  }

  /** Total number of line feeds in the fragments. */
  function TotalNewlines(fragments: seq<string>): nat
  {
    if fragments == [] then 0 else Newlines(fragments[0]) + TotalNewlines(fragments[1..])
  }

  predicate NoNewline(s: string) {
    '\n' !in s
  }

  // ---------------------------------------------------------------------
  // Lemmas

  /** Every piece of a split is free of line feeds. */
  lemma {:induction false} SplitPiecesHaveNoNewline(s: string)
    ensures forall i :: 0 <= i < |Split(s)| ==> NoNewline(Split(s)[i])
    decreases |s|
  {
    if s != [] {
      SplitPiecesHaveNoNewline(s[1..]);
    }
  }

  /** A string without line feeds splits into itself. */
  lemma {:induction false} SplitOfNoNewline(s: string)
    requires NoNewline(s)
    ensures Split(s) == [s]
    decreases |s|
  {
    if s != [] {
      assert s[0] in s;
      assert forall c :: c in s[1..] ==> c in s;
      SplitOfNoNewline(s[1..]);
      assert [s[0]] + s[1..] == s;
    }
  }

  /** A leading line feed closes an empty first piece. */
  lemma SplitAtNewline(s: string)
    requires s != [] && s[0] == '\n'
    ensures Split(s) == [""] + Split(s[1..])
  {
  }

  /** Any other first character opens the first piece. */
  lemma SplitAtChar(s: string)
    requires s != [] && s[0] != '\n'
    ensures Split(s) == [[s[0]] + Split(s[1..])[0]] + Split(s[1..])[1..]
  {
  }

  /** Splitting at a line feed splits the two sides independently. */
  lemma {:induction false} SplitAroundNewline(a: string, b: string)
    ensures Split(a + "\n" + b) == Split(a) + Split(b)
    decreases |a|
  {
    if a == [] {
      var s := a + "\n" + b;
      assert s == ['\n'] + b;
      assert s[1..] == b;
      SplitAtNewline(s);
    } else {
      SplitAroundNewline(a[1..], b);
      SplitAroundStep(a, b);
    }
  }

  /** The step of `SplitAroundNewline`: from the tail of `a` to `a`. */
  lemma SplitAroundStep(a: string, b: string)
    requires a != []
    requires Split(a[1..] + "\n" + b) == Split(a[1..]) + Split(b)
    ensures Split(a + "\n" + b) == Split(a) + Split(b)
  {
    var s := a + "\n" + b;
    TailOfAround(a, b);
    if a[0] == '\n' {
      SplitAtNewline(a);
      SplitAtNewline(s);
      EmptyFirstAssoc(Split(a[1..]), Split(b));
    } else {
      SplitAtChar(a);
      SplitAtChar(s);
      ExtendFirstAssoc([a[0]], Split(a[1..]), Split(b));
    }
  }

  lemma TailOfAround(a: string, b: string)
    requires a != []
    ensures (a + "\n" + b)[0] == a[0] && (a + "\n" + b)[1..] == a[1..] + "\n" + b
  {
  }

  lemma EmptyFirstAssoc(xs: seq<string>, ys: seq<string>)
    ensures [""] + (xs + ys) == ([""] + xs) + ys
  {
  }

  /** Extending the first piece commutes with appending more pieces. */
  lemma ExtendFirstAssoc(c: string, xs: seq<string>, ys: seq<string>)
    requires |xs| >= 1
    ensures [c + (xs + ys)[0]] + (xs + ys)[1..] == ([c + xs[0]] + xs[1..]) + ys
  {
    assert (xs + ys)[0] == xs[0];
    assert (xs + ys)[1..] == xs[1..] + ys;
  }

  /** Joining and then splitting gives back the lines of every fragment:
      no piece is lost and none is merged. */
  lemma {:induction false} SplitOfJoin(fragments: seq<string>)
    requires fragments != []
    ensures Split(Join(fragments)) == Lines(fragments)
    decreases |fragments|
  {
    if |fragments| == 1 {
      assert Lines(fragments[1..]) == [];
    } else {
      SplitAroundNewline(fragments[0], Join(fragments[1..]));
      SplitOfJoin(fragments[1..]);
    }
  }

  /** Lines without line feeds survive a join followed by a split. */
  lemma {:induction false} SplitOfJoinLines(ls: seq<string>)
    requires ls != []
    requires forall i :: 0 <= i < |ls| ==> NoNewline(ls[i])
    ensures Split(Join(ls)) == ls
    decreases |ls|
  {
    SplitOfNoNewline(ls[0]);
    if |ls| > 1 {
      SplitAroundNewline(ls[0], Join(ls[1..]));
      SplitOfJoinLines(ls[1..]);
    }
  }

  /** Splitting then joining is the identity. */
  lemma {:induction false} JoinOfSplit(s: string)
    ensures Join(Split(s)) == s
    decreases |s|
  {
    if s != [] {
      JoinOfSplit(s[1..]);
      JoinOfSplitStep(s);
    }
  }

  lemma JoinOfSplitStep(s: string)
    requires s != [] && Join(Split(s[1..])) == s[1..]
    ensures Join(Split(s)) == s
  {
    var rest := Split(s[1..]);
    if s[0] == '\n' {
      SplitAtNewline(s);
      JoinCons("", rest);
      assert s == "" + "\n" + s[1..];
    } else {
      SplitAtChar(s);
      JoinExtendFirst([s[0]], rest);
      assert s == [s[0]] + s[1..];
    }
  }

  lemma JoinCons(x: string, rest: seq<string>)
    requires |rest| >= 1
    ensures Join([x] + rest) == x + "\n" + Join(rest)
  {
    assert ([x] + rest)[1..] == rest;
  }

  /** Extending the first line extends the joined text at its front. */
  lemma JoinExtendFirst(c: string, rest: seq<string>)
    requires |rest| >= 1
    ensures Join([c + rest[0]] + rest[1..]) == c + Join(rest)
  {
    var h, t := rest[0], rest[1..];
    assert rest == [h] + t;
    if t != [] {
      JoinCons(c + h, t);
      JoinCons(h, t);
      ConcatAssoc(c, h, "\n", Join(t));
    }
  }

  lemma ConcatAssoc(a: string, b: string, c: string, d: string)
    ensures a + b + c + d == a + (b + c + d)
  {
  }

  /** A string has one more piece than it has line feeds. */
  lemma {:induction false} SplitCount(s: string)
    ensures |Split(s)| == Newlines(s) + 1
    decreases |s|
  {
    if s != [] {
      SplitCount(s[1..]);
    }
  }

  /** The line count of a set of fragments. */
  lemma {:induction false} LinesCount(fragments: seq<string>)
    ensures |Lines(fragments)| == TotalNewlines(fragments) + |fragments|
    decreases |fragments|
  {
    if fragments != [] {
      SplitCount(fragments[0]);
      LinesCount(fragments[1..]);
    }
  }

  /** Trimmed lines keep being free of line feeds. */
  lemma TrimAllHasNoNewline(ls: seq<string>)
    requires forall i :: 0 <= i < |ls| ==> NoNewline(ls[i])
    ensures forall i :: 0 <= i < |TrimAll(ls)| ==> NoNewline(TrimAll(ls)[i])
  {
  }

  /** The lines of a split are the lines of its only fragment. */
  lemma LinesOfOne(s: string)
    ensures Lines([s]) == Split(s)
  {
    assert [s][1..] == [];
  }
}
