/** documented-macros/src/config/customise_core.rs: the option language
    `kw = value, kw = value, ...` shared by every customisation attribute,
    and the rule that an option kind may be declared only once.

    The parser works over a token index: every parse function takes the
    position of the next token and the successful ones say where parsing
    stopped, which is how syn's `ParseStream` cursor advances. */
module CustomiseCore {
  import opened Diag
  import opened Syntax

  // ---------------------------------------------------------------------
  // Option kinds and data

  /** The discriminant of an option (`ConfigOptionKind`). */
  datatype Kind = Vis | Rename | RenameAll | Default | Trim

  /** Every kind, in the order the keyword lookahead tries them. */
  const AllKinds: seq<Kind> := [Vis, Rename, RenameAll, Default, Trim]

  /** The case conventions `rename_all` accepts. */
  datatype Case = Lower | Upper | Pascal | Camel | Snake | ScreamingSnake | Kebab | ScreamingKebab

  function CaseName(c: Case): string
  {
    match c
    case Lower => "lowercase"
    case Upper => "UPPERCASE"
    case Pascal => "PascalCase"
    case Camel => "camelCase"
    case Snake => "snake_case"
    case ScreamingSnake => "SCREAMING_SNAKE_CASE"
    case Kebab => "kebab-case"
    case ScreamingKebab => "SCREAMING-KEBAB-CASE"
  }

  /** Reads a case convention from its name. */
  function CaseFromName(s: string): (r: Option<Case>)
    ensures r.Some? ==> CaseName(r.value) == s
  {
    if s == "lowercase" then Some(Lower)
    else if s == "UPPERCASE" then Some(Upper)
    else if s == "PascalCase" then Some(Pascal)
    else if s == "camelCase" then Some(Camel)
    else if s == "snake_case" then Some(Snake)
    else if s == "SCREAMING_SNAKE_CASE" then Some(ScreamingSnake)
    else if s == "kebab-case" then Some(Kebab)
    else if s == "SCREAMING-KEBAB-CASE" then Some(ScreamingKebab)
    else None
  }

  /** The payload of an option (`ConfigOptionData`). */
  datatype Data =
    | SetVis(vis: Visibility)
    | SetRename(name: string)
    | SetRenameAll(convention: Case)
    | SetDefault(expr: Expr)
    | SetTrim(trim: bool)

  /** An option with the span of its keyword. */
  datatype ConfigOption = ConfigOption(span: nat, data: Data)

  /** `ConfigOptionKind::from(&data)`. */
  function KindOf(d: Data): Kind
  {
    match d
    case SetVis(_) => Vis
    case SetRename(_) => Rename
    case SetRenameAll(_) => RenameAll
    case SetDefault(_) => Default
    case SetTrim(_) => Trim
  }

  /** The keyword that introduces each kind; it is also how the kind is
      displayed in messages. */
  function Keyword(k: Kind): string
  {
    match k
    case Vis => "vis"
    case Rename => "name"
    case RenameAll => "rename_all"
    case Default => "default"
    case Trim => "trim"
  }

  /** The kind an identifier introduces, among the accepted ones. */
  function KeywordKind(word: string, accepted: seq<Kind>): (r: Option<Kind>)
    ensures r.Some? ==> r.value in accepted && Keyword(r.value) == word
    ensures r.None? ==> forall k :: k in accepted ==> Keyword(k) != word
  {
    if accepted == [] then None
    else if Keyword(accepted[0]) == word then Some(accepted[0])
    else KeywordKind(word, accepted[1..])
  }

  // ---------------------------------------------------------------------
  // Parsing

  function Backticked(k: Kind): string {
    "`" + Keyword(k) + "`"
  }

  function BacktickedList(ks: seq<Kind>): string
  {
    if ks == [] then ""
    else if |ks| == 1 then Backticked(ks[0])
    else Backticked(ks[0]) + ", " + BacktickedList(ks[1..])
  }

  /** The message of a failed keyword lookahead over `accepted`. */
  function LookaheadMessage(accepted: seq<Kind>): string
  {
    if |accepted| == 0 then "unexpected token"
    else if |accepted| == 1 then "expected " + Backticked(accepted[0])
    else if |accepted| == 2 then "expected " + Backticked(accepted[0]) + " or " + Backticked(accepted[1])
    else "expected one of: " + BacktickedList(accepted)
  }

  /** An expectation failing at `pos`: at the end of the stream the
      message says so. */
  function Expected(ts: TokenStream, pos: nat, message: string): Diagnostic
  {
    if pos < |ts.tokens| then Error(ts.tokens[pos].span, message)
    else Error(ts.end, "unexpected end of input, " + message)
  }

  /** There is an accepted keyword at `pos`. */
  predicate KeywordAt(ts: TokenStream, pos: nat, accepted: seq<Kind>) {
    pos < |ts.tokens| && ts.tokens[pos].kind.Ident? &&
    KeywordKind(ts.tokens[pos].kind.name, accepted).Some?
  }

  /** ConfigOptionKind::parse: one keyword from the accepted set, or the
      lookahead's "expected ..." error. */
  function ParseKindAt(ts: TokenStream, pos: nat, accepted: seq<Kind>): (r: Result<Kind>)
    ensures r.Ok? <==> KeywordAt(ts, pos, accepted)
    ensures r.Ok? ==> r.value in accepted && Keyword(r.value) == ts.tokens[pos].kind.name
    ensures r.Err? ==> r.error == Expected(ts, pos, LookaheadMessage(accepted))
  {
    if KeywordAt(ts, pos, accepted) then Ok(KeywordKind(ts.tokens[pos].kind.name, accepted).value)
    else Err(Expected(ts, pos, LookaheadMessage(accepted)))
  }

  /** The value after `kw =`, read with the grammar of its kind. A parsed
      value is the one that the value token spells (`ValueRoundTrip` is the
      converse). */
  function ParseValueAt(ts: TokenStream, pos: nat, k: Kind): (r: Result<Data>)
    ensures r.Ok? ==> pos < |ts.tokens| && KindOf(r.value) == k
    ensures r.Ok? ==> ValueToken(r.value) == ts.tokens[pos].kind
  {
    var tok := if pos < |ts.tokens| then ts.tokens[pos].kind else Comma;
    match k
    case Vis =>
      if tok.VisTok? then Ok(SetVis(tok.vis)) else Err(Expected(ts, pos, "expected visibility"))
    case Rename =>
      if tok.LitTok? && tok.lit.Str? then Ok(SetRename(tok.lit.s))
      else Err(Expected(ts, pos, "expected string literal"))
    case RenameAll =>
      if tok.LitTok? && tok.lit.Str? && CaseFromName(tok.lit.s).Some? then
        Ok(SetRenameAll(CaseFromName(tok.lit.s).value))
      else Err(Expected(ts, pos, "expected a case name"))
    case Default =>
      if tok.LitTok? then Ok(SetDefault(LitExpr(tok.lit)))
      else if tok.CodeTok? then Ok(SetDefault(OpaqueExpr(tok.code)))
      else Err(Expected(ts, pos, "expected an expression"))
    case Trim =>
      if tok.LitTok? && tok.lit.Bool? then Ok(SetTrim(tok.lit.b))
      else Err(Expected(ts, pos, "expected boolean literal"))
  }

  /** ConfigOption::parse: keyword, `=`, value. The option's span is the
      keyword's span and the parse ends right after the value. */
  function ParseOptionAt(ts: TokenStream, pos: nat, accepted: seq<Kind>): (r: Result<(ConfigOption, nat)>)
    ensures !KeywordAt(ts, pos, accepted) ==> r == Err(Expected(ts, pos, LookaheadMessage(accepted)))
    ensures KeywordAt(ts, pos, accepted) && !(pos + 1 < |ts.tokens| && ts.tokens[pos + 1].kind.EqSign?) ==>
              r == Err(Expected(ts, pos + 1, "expected `=`"))
    ensures KeywordAt(ts, pos, accepted) && pos + 1 < |ts.tokens| && ts.tokens[pos + 1].kind.EqSign? ==>
              var value := ParseValueAt(ts, pos + 2, KeywordKind(ts.tokens[pos].kind.name, accepted).value);
              && (r.Ok? <==> value.Ok?)
              && (value.Err? ==> r == Err(value.error))
              && (value.Ok? ==> r.value.0.data == value.value)
    ensures r.Ok? ==> var (opt, next) := r.value;
              && next == pos + 3 && next <= |ts.tokens|
              && ts.tokens[pos + 1].kind.EqSign?
              && opt.span == ts.tokens[pos].span
              && KindOf(opt.data) in accepted
              && ts.tokens[pos].kind == Ident(Keyword(KindOf(opt.data)))
              && ValueToken(opt.data) == ts.tokens[pos + 2].kind
  {
    var k :- ParseKindAt(ts, pos, accepted);
    if !(pos + 1 < |ts.tokens| && ts.tokens[pos + 1].kind.EqSign?) then
      Err(Expected(ts, pos + 1, "expected `=`"))
    else
      var d :- ParseValueAt(ts, pos + 2, k);
      Ok((ConfigOption(ts.tokens[pos].span, d), pos + 3))
  }

  /** `Punctuated::<ConfigOption, Token![,]>::parse_terminated` from `pos`:
      options separated by commas, a trailing comma allowed. */
  function ParseListFrom(ts: TokenStream, pos: nat, accepted: seq<Kind>): (r: Result<seq<ConfigOption>>)
    ensures r.Ok? ==> forall i :: 0 <= i < |r.value| ==> KindOf(r.value[i].data) in accepted
    ensures pos >= |ts.tokens| ==> r == Ok([])
    ensures pos < |ts.tokens| && ParseOptionAt(ts, pos, accepted).Err? ==>
              r == Err(ParseOptionAt(ts, pos, accepted).error)
    ensures pos < |ts.tokens| && r.Ok? ==>
              ParseOptionAt(ts, pos, accepted).Ok? && r.value != [] &&
              r.value[0] == ParseOptionAt(ts, pos, accepted).value.0
    decreases |ts.tokens| - pos
  {
    if pos >= |ts.tokens| then Ok([])
    else
      var parsed :- ParseOptionAt(ts, pos, accepted);
      var (opt, next) := parsed;
      if next >= |ts.tokens| then Ok([opt])
      else if ts.tokens[next].kind.Comma? then
        var rest :- ParseListFrom(ts, next + 1, accepted);
        Ok([opt] + rest)
      else Err(Error(ts.tokens[next].span, "expected `,`"))
  }

  /** The whole option list of one attribute. */
  function ParseList(ts: TokenStream, accepted: seq<Kind>): Result<seq<ConfigOption>>
  {
    ParseListFrom(ts, 0, accepted)
  }

  // ---------------------------------------------------------------------
  // Printing, the inverse of parsing

  /** The value token that spells `d`. */
  function ValueToken(d: Data): TokenKind
  {
    match d
    case SetVis(v) => VisTok(v)
    case SetRename(n) => LitTok(Str(n))
    case SetRenameAll(c) => LitTok(Str(CaseName(c)))
    case SetDefault(e) => if e.LitExpr? then LitTok(e.lit) else CodeTok(e.code)
    case SetTrim(b) => LitTok(Bool(b))
  }

  /** Token `t` of the rendering `kw = value,` repeated for every option;
      each token's span is its index. */
  function RenderedToken(ds: seq<Data>, t: nat): Token
    requires t < 4 * |ds|
  {
    var d := ds[t / 4];
    var kind :=
      if t % 4 == 0 then Ident(Keyword(KindOf(d)))
      else if t % 4 == 1 then EqSign
      else if t % 4 == 2 then ValueToken(d)
      else Comma;
    Token(kind, t)
  }

  /** The number of tokens of a rendering; without `trailing` the comma
      after the last option is left out. */
  function RenderLength(ds: seq<Data>, trailing: bool): nat
  {
    if trailing || ds == [] then 4 * |ds| else 4 * |ds| - 1
  }

  function Render(ds: seq<Data>, trailing: bool): seq<Token>
  {
    var n := RenderLength(ds, trailing);
    seq(n, t requires 0 <= t < n => RenderedToken(ds, t))
  }

  // ---------------------------------------------------------------------
  // Queries over option lists

  /** The options of kind `k`, in declaration order. */
  function OfKind(opts: seq<ConfigOption>, k: Kind): (r: seq<ConfigOption>)
    ensures forall o :: o in r ==> o in opts && KindOf(o.data) == k
    ensures forall i :: 0 <= i < |opts| && KindOf(opts[i].data) == k ==> opts[i] in r
    ensures |r| <= |opts|
  {
    if opts == [] then []
    else (if KindOf(opts[0].data) == k then [opts[0]] else []) + OfKind(opts[1..], k)
  }

  /** No kind is declared twice. */
  predicate Unique(opts: seq<ConfigOption>) {
    forall i, j :: 0 <= i < j < |opts| ==> KindOf(opts[i].data) != KindOf(opts[j].data)
  }

  predicate HasKind(opts: seq<ConfigOption>, k: Kind) {
    exists i :: 0 <= i < |opts| && KindOf(opts[i].data) == k
  }

  /** The data of the last option of kind `k`: what a loop that replaces a
      field on every such option leaves behind. */
  function LastOf(opts: seq<ConfigOption>, k: Kind): (r: Option<Data>)
    ensures r.Some? <==> HasKind(opts, k)
    ensures r.Some? ==> KindOf(r.value) == k
  {
    if opts == [] then None
    else if KindOf(opts[|opts| - 1].data) == k then Some(opts[|opts| - 1].data)
    else
      var r := LastOf(opts[..|opts| - 1], k);
      assert forall i :: 0 <= i < |opts| - 1 ==> opts[..|opts| - 1][i] == opts[i];
      r
  }

  /** Index of the first option whose kind is in `bad`. */
  function FirstOfKinds(opts: seq<ConfigOption>, bad: set<Kind>): (r: Option<nat>)
    ensures r.None? <==> forall i :: 0 <= i < |opts| ==> KindOf(opts[i].data) !in bad
    ensures r.Some? ==> r.value < |opts| && KindOf(opts[r.value].data) in bad &&
                        forall i :: 0 <= i < r.value ==> KindOf(opts[i].data) !in bad
  {
    if opts == [] then None
    else
      var init := opts[..|opts| - 1];
      assert forall i :: 0 <= i < |opts| - 1 ==> init[i] == opts[i];
      var r := FirstOfKinds(init, bad);
      if r.Some? then r
      else if KindOf(opts[|opts| - 1].data) in bad then Some(|opts| - 1)
      else None
  }

  /** The option `LastOf` finds is in the list, after every other option
      of its kind. */
  lemma {:induction false} LastOfIsLast(opts: seq<ConfigOption>, k: Kind)
    requires HasKind(opts, k)
    ensures exists i :: 0 <= i < |opts| && opts[i].data == LastOf(opts, k).value &&
                        forall j :: i < j < |opts| ==> KindOf(opts[j].data) != k
    decreases |opts|
  {
    var n := |opts| - 1;
    if KindOf(opts[n].data) != k {
      var init := opts[..n];
      assert forall i :: 0 <= i < n ==> init[i] == opts[i];
      LastOfIsLast(init, k);
      var i :| 0 <= i < n && init[i].data == LastOf(init, k).value &&
               forall j :: i < j < n ==> KindOf(init[j].data) != k;
      assert opts[i].data == LastOf(opts, k).value;
    }
  }

  // ---------------------------------------------------------------------
  // Uniqueness check

  const DuplicateHereMsg := "Duplicate declaration here"

  function OnlyOnceMsg(k: Kind): string {
    "Option " + Keyword(k) + " can only be declaration once"
  }

  /** One "Duplicate declaration here" note per declaration, in order, at
      the span `spanOf` gives it (the `fold` that combines them into the
      first error). */
  function DuplicateNotes<T>(rest: seq<T>, spanOf: T -> nat): (d: Diagnostic)
    ensures |d| == |rest|
    ensures forall i :: 0 <= i < |rest| ==> d[i] == Note(spanOf(rest[i]), DuplicateHereMsg)
  {
    if rest == [] then []
    else DuplicateNotes(rest[..|rest| - 1], spanOf) + [Note(spanOf(rest[|rest| - 1]), DuplicateHereMsg)]
  }

  /** Where an option's diagnostics point: its keyword. */
  function OptionSpan(o: ConfigOption): nat {
    o.span
  }

  /** The error for a kind declared more than once: anchored at its first
      occurrence, with a note at every later one. */
  function DuplicateError(group: seq<ConfigOption>, k: Kind): Diagnostic
    requires |group| >= 1
  {
    [Note(group[0].span, OnlyOnceMsg(k))] + DuplicateNotes(group[1..], OptionSpan)
  }

  /** The duplicate error, entry by entry: "can only be declaration once"
      at the first occurrence, then one "Duplicate declaration here" per
      later occurrence, in order. */
  lemma DuplicateErrorShape(group: seq<ConfigOption>, k: Kind)
    requires |group| >= 1
    ensures |DuplicateError(group, k)| == |group|
    ensures DuplicateError(group, k)[0] == Note(group[0].span, OnlyOnceMsg(k))
    ensures forall i :: 1 <= i < |group| ==> DuplicateError(group, k)[i] == Note(group[i].span, DuplicateHereMsg)
  {
    var d := DuplicateError(group, k);
    var notes := DuplicateNotes(group[1..], OptionSpan);
    assert forall i :: 1 <= i < |group| ==> d[i] == notes[i - 1];
  }

  /** Folds the later occurrences of a duplicated kind into the error
      raised at its first occurrence. */
  method DuplicateDiagnostic(group: seq<ConfigOption>, kind: Kind) returns (err: Diagnostic)
    requires |group| >= 1
    ensures err == DuplicateError(group, kind)
  {
    err := Error(group[0].span, OnlyOnceMsg(kind));
    var i := 1;
    while i < |group|
      invariant 1 <= i <= |group|
      invariant err == [Note(group[0].span, OnlyOnceMsg(kind))] + DuplicateNotes(group[1..i], OptionSpan)
    {
      assert group[1..i + 1][..i - 1] == group[1..i];
      err := err + [Note(group[i].span, DuplicateHereMsg)];
      i := i + 1;
    }
    assert group[1..i] == group[1..];
  }

  /** ensure_unique_options: succeeds exactly when no kind occurs twice;
      otherwise reports one duplicated kind, at its first occurrence, with
      one note per later occurrence. Which duplicated kind is reported
      follows a hash map's order in the source and is not promised. */
  method EnsureUniqueOptions(opts: seq<ConfigOption>) returns (r: Result<()>)
    ensures r.Ok? <==> Unique(opts)
    ensures r.Err? ==> exists k :: |OfKind(opts, k)| >= 2 && r.error == DuplicateError(OfKind(opts, k), k)
  {
    var n := 0;
    while n < |AllKinds|
      invariant 0 <= n <= |AllKinds|
      invariant forall k :: k in AllKinds[..n] ==> |OfKind(opts, k)| <= 1
    {
      var kind := AllKinds[n];
      var group := OfKind(opts, kind);
      if |group| >= 2 {
        var err := DuplicateDiagnostic(group, kind);
        UniqueIffAtMostOne(opts);
        assert |OfKind(opts, kind)| >= 2;
        return Err(err);
      }
      assert AllKinds[..n + 1] == AllKinds[..n] + [kind];
      n := n + 1;
    }
    AllKindsListed();
    assert AllKinds[..n] == AllKinds;
    UniqueIffAtMostOne(opts);
    return Ok(());
  }

  /** The first kind of `ks` that is declared more than once. */
  function FirstDuplicateKind(opts: seq<ConfigOption>, ks: seq<Kind>): (r: Option<Kind>)
    ensures r.Some? ==> r.value in ks && |OfKind(opts, r.value)| >= 2
    ensures r.None? ==> forall k :: k in ks ==> |OfKind(opts, k)| <= 1
  {
    if ks == [] then None
    else if |OfKind(opts, ks[0])| >= 2 then Some(ks[0])
    else FirstDuplicateKind(opts, ks[1..])
  }

  /** The same check as a function, for the pipelines that pool options
      from several attributes: the first kind (in `AllKinds` order) that
      is declared twice is reported. */
  function UniqueCheck(opts: seq<ConfigOption>): (r: Result<()>)
    ensures r.Ok? <==> Unique(opts)
    ensures r.Err? ==> exists k :: |OfKind(opts, k)| >= 2 && r.error == DuplicateError(OfKind(opts, k), k)
  {
    UniqueIffAtMostOne(opts);
    AllKindsListed();
    match FirstDuplicateKind(opts, AllKinds)
    case Some(k) =>
      assert |OfKind(opts, k)| >= 2;
      Err(DuplicateError(OfKind(opts, k), k))
    case None => Ok(())
  }

  // ---------------------------------------------------------------------
  // Lemmas

  lemma AllKindsListed()
    ensures forall k :: k in AllKinds
  {
    forall k ensures k in AllKinds {
      match k
      case Vis =>
      case Rename =>
      case RenameAll =>
      case Default =>
      case Trim =>
    }
  }

  /** A list is duplicate-free exactly when every kind occurs at most once. */
  lemma {:induction false} UniqueIffAtMostOne(opts: seq<ConfigOption>)
    ensures Unique(opts) <==> forall k :: |OfKind(opts, k)| <= 1
    decreases |opts|
  {
    if opts != [] {
      var tail := opts[1..];
      assert forall i :: 1 <= i < |opts| ==> opts[i] == tail[i - 1];
      UniqueIffAtMostOne(tail);
      if Unique(opts) {
        assert Unique(tail) by {
          forall i, j | 0 <= i < j < |tail| ensures KindOf(tail[i].data) != KindOf(tail[j].data) {
            assert tail[i] == opts[i + 1] && tail[j] == opts[j + 1];
          }
        }
        forall k ensures |OfKind(opts, k)| <= 1 {
          if KindOf(opts[0].data) == k {
            assert forall i :: 0 <= i < |tail| ==> KindOf(tail[i].data) != k by {
              forall i | 0 <= i < |tail| ensures KindOf(tail[i].data) != k {
                assert tail[i] == opts[i + 1];
              }
            }
            NoneOfKind(tail, k);
            assert OfKind(opts, k) == [opts[0]] + OfKind(tail, k);
          } else {
            assert OfKind(opts, k) == OfKind(tail, k);
          }
        }
      } else {
        var i, j :| 0 <= i < j < |opts| && KindOf(opts[i].data) == KindOf(opts[j].data);
        TwoOfKind(opts, i, j);
      }
    }
  }

  lemma NoneOfKind(tail: seq<ConfigOption>, k: Kind)
    requires forall i :: 0 <= i < |tail| ==> KindOf(tail[i].data) != k
    ensures OfKind(tail, k) == []
  {
  }

  lemma {:induction false} TwoOfKind(opts: seq<ConfigOption>, i: nat, j: nat)
    requires i < j < |opts| && KindOf(opts[i].data) == KindOf(opts[j].data)
    ensures |OfKind(opts, KindOf(opts[i].data))| >= 2
    decreases i
  {
    var k := KindOf(opts[i].data);
    var tail := opts[1..];
    if i == 0 {
      assert tail[j - 1] == opts[j];
      assert opts[j] in OfKind(tail, k);
    } else {
      assert tail[i - 1] == opts[i] && tail[j - 1] == opts[j];
      TwoOfKind(tail, i - 1, j - 1);
    }
  }

  /** Printing the options as `kw = value, ...`, with or without a comma
      after the last one, and parsing the result gives back every option,
      in order, each spanned at its keyword. */
  lemma ParseRenderRoundTrip(ds: seq<Data>, end: nat, accepted: seq<Kind>, trailing: bool)
    requires forall i :: 0 <= i < |ds| ==> KindOf(ds[i]) in accepted
    ensures var r := ParseList(TokenStream(Render(ds, trailing), end), accepted);
            && r.Ok? && |r.value| == |ds|
            && forall i :: 0 <= i < |ds| ==> r.value[i] == ConfigOption(4 * i, ds[i])
  {
    var ts := TokenStream(Render(ds, trailing), end);
    forall j | 0 <= j < |ds| ensures SpellsAt(ts, ds, j) {
      RenderedTokens(ds, trailing, j);
    }
    if ds == [] {
      ParseRenderEnd(ts, ds, accepted);
    } else {
      ParseRenderFrom(ts, ds, accepted, 0);
    }
    SpannedFromAt(ds, 0);
  }

  /** The options from index `j` on, each spanned at its rendered keyword. */
  function SpannedFrom(ds: seq<Data>, j: nat): (r: seq<ConfigOption>)
    requires j <= |ds|
    decreases |ds| - j
  {
    if j == |ds| then [] else [ConfigOption(4 * j, ds[j])] + SpannedFrom(ds, j + 1)
  }

  lemma {:induction false} SpannedFromAt(ds: seq<Data>, j: nat)
    requires j <= |ds|
    ensures |SpannedFrom(ds, j)| == |ds| - j
    ensures forall i :: 0 <= i < |ds| - j ==> SpannedFrom(ds, j)[i] == ConfigOption(4 * (i + j), ds[i + j])
    decreases |ds| - j
  {
    if j < |ds| {
      SpannedFromAt(ds, j + 1);
      var rest := SpannedFrom(ds, j + 1);
      var all := SpannedFrom(ds, j);
      assert all == [ConfigOption(4 * j, ds[j])] + rest;
      forall i | 0 < i < |ds| - j
        ensures all[i] == ConfigOption(4 * (i + j), ds[i + j])
      {
        assert all[i] == rest[i - 1];
        assert (i - 1) + (j + 1) == i + j;
      }
    }
  }

  /** The tokens `kw = value` of option `j`, the keyword spanned at its
      index, followed by a comma unless the stream ends there. */
  predicate SpellsAt(ts: TokenStream, ds: seq<Data>, j: nat)
    requires j < |ds| && 4 * j + 3 <= |ts.tokens|
  {
    && ts.tokens[4 * j] == Token(Ident(Keyword(KindOf(ds[j]))), 4 * j)
    && ts.tokens[4 * j + 1].kind == EqSign
    && ts.tokens[4 * j + 2].kind == ValueToken(ds[j])
    && (4 * j + 3 < |ts.tokens| ==> ts.tokens[4 * j + 3].kind == Comma)
  }

  /** The stream has the length of a rendering of `ds`: every option's
      `kw = value` fits, and only the last may lack its comma. */
  predicate LaidOut(ts: TokenStream, ds: seq<Data>)
  {
    |ts.tokens| == 4 * |ds| || (ds != [] && |ts.tokens| == 4 * |ds| - 1)
  }

  lemma {:induction false} ParseRenderFrom(ts: TokenStream, ds: seq<Data>, accepted: seq<Kind>, j: nat)
    requires forall i :: 0 <= i < |ds| ==> KindOf(ds[i]) in accepted
    requires LaidOut(ts, ds) && forall i :: 0 <= i < |ds| ==> SpellsAt(ts, ds, i)
    requires j < |ds|
    ensures ParseListFrom(ts, 4 * j, accepted) == Ok(SpannedFrom(ds, j))
    decreases |ds| - j
  {
    if j + 1 < |ds| {
      ParseRenderFrom(ts, ds, accepted, j + 1);
      ParseRenderStep(ts, ds, accepted, j);
    } else if 4 * j + 3 < |ts.tokens| {
      ParseRenderEnd(ts, ds, accepted);
      ParseRenderStep(ts, ds, accepted, j);
    } else {
      ParseRenderedOption(ts, ds, accepted, j);
      var opt := ConfigOption(4 * j, ds[j]);
      assert SpannedFrom(ds, j + 1) == [];
      assert SpannedFrom(ds, j) == [opt] + [] == [opt];
      ParseListLast(ts, 4 * j, accepted, opt);
    }
  }

  /** Past the last option nothing is left to parse. */
  lemma ParseRenderEnd(ts: TokenStream, ds: seq<Data>, accepted: seq<Kind>)
    requires LaidOut(ts, ds)
    ensures ParseListFrom(ts, 4 * |ds|, accepted) == Ok(SpannedFrom(ds, |ds|))
  {
  }

  /** Option `j`, then its comma, then the options after it. */
  lemma ParseRenderStep(ts: TokenStream, ds: seq<Data>, accepted: seq<Kind>, j: nat)
    requires j < |ds| && KindOf(ds[j]) in accepted
    requires LaidOut(ts, ds) && 4 * j + 3 < |ts.tokens| && SpellsAt(ts, ds, j)
    requires ParseListFrom(ts, 4 * (j + 1), accepted) == Ok(SpannedFrom(ds, j + 1))
    ensures ParseListFrom(ts, 4 * j, accepted) == Ok(SpannedFrom(ds, j))
  {
    var pos := 4 * j;
    assert pos + 4 == 4 * (j + 1);
    assert ts.tokens[pos + 3].kind.Comma?;
    var rest := SpannedFrom(ds, j + 1);
    assert SpannedFrom(ds, j) == [ConfigOption(pos, ds[j])] + rest;
    ParseRenderedOption(ts, ds, accepted, j);
    ParseListStep(ts, pos, accepted, ConfigOption(pos, ds[j]), rest);
  }

  /** One option followed by a comma and the rest of the list. */
  lemma ParseListStep(ts: TokenStream, pos: nat, accepted: seq<Kind>, opt: ConfigOption, rest: seq<ConfigOption>)
    requires ParseOptionAt(ts, pos, accepted) == Ok((opt, pos + 3))
    requires pos + 3 < |ts.tokens| && ts.tokens[pos + 3].kind.Comma?
    requires ParseListFrom(ts, pos + 4, accepted) == Ok(rest)
    ensures ParseListFrom(ts, pos, accepted) == Ok([opt] + rest)
  {
    assert pos < |ts.tokens| && !(pos + 3 >= |ts.tokens|);
  }

  /** One option that ends the stream. */
  lemma ParseListLast(ts: TokenStream, pos: nat, accepted: seq<Kind>, opt: ConfigOption)
    requires ParseOptionAt(ts, pos, accepted) == Ok((opt, pos + 3))
    requires pos + 3 == |ts.tokens|
    ensures ParseListFrom(ts, pos, accepted) == Ok([opt])
  {
    assert pos < |ts.tokens|;
  }

  /** The tokens rendered for option `j`. */
  lemma RenderedTokens(ds: seq<Data>, trailing: bool, j: nat)
    requires j < |ds|
    ensures var ts := Render(ds, trailing);
            && |ts| == RenderLength(ds, trailing) && 4 * j + 3 <= |ts|
            && ts[4 * j] == Token(Ident(Keyword(KindOf(ds[j]))), 4 * j)
            && ts[4 * j + 1].kind == EqSign
            && ts[4 * j + 2].kind == ValueToken(ds[j])
            && (4 * j + 3 < |ts| ==> ts[4 * j + 3].kind == Comma)
  {
    assert (4 * j) / 4 == j && (4 * j) % 4 == 0;
    assert (4 * j + 1) / 4 == j && (4 * j + 1) % 4 == 1;
    assert (4 * j + 2) / 4 == j && (4 * j + 2) % 4 == 2;
    assert (4 * j + 3) / 4 == j && (4 * j + 3) % 4 == 3;
  }

  lemma ParseRenderedOption(ts: TokenStream, ds: seq<Data>, accepted: seq<Kind>, j: nat)
    requires j < |ds| && KindOf(ds[j]) in accepted && 4 * j + 3 <= |ts.tokens| && SpellsAt(ts, ds, j)
    ensures ParseOptionAt(ts, 4 * j, accepted) == Ok((ConfigOption(4 * j, ds[j]), 4 * j + 3))
  {
    KeywordKindOfKeyword(KindOf(ds[j]), accepted);
    assert ParseKindAt(ts, 4 * j, accepted) == Ok(KindOf(ds[j]));
    ValueRoundTrip(ts, 4 * j + 2, ds[j]);
  }

  lemma KeywordKindOfKeyword(k: Kind, accepted: seq<Kind>)
    requires k in accepted
    ensures KeywordKind(Keyword(k), accepted) == Some(k)
  {
    var r := KeywordKind(Keyword(k), accepted);
    assert r.Some?;
    match r.value
    case Vis =>
    case Rename =>
    case RenameAll =>
    case Default =>
    case Trim =>
  }

  lemma ValueRoundTrip(ts: TokenStream, pos: nat, d: Data)
    requires pos < |ts.tokens| && ts.tokens[pos].kind == ValueToken(d)
    ensures ParseValueAt(ts, pos, KindOf(d)) == Ok(d)
  {
    match d
    case SetVis(_) =>
    case SetRename(_) =>
    case SetRenameAll(c) =>
      CaseNameRoundTrip(c);
    case SetDefault(e) =>
    case SetTrim(_) =>
  }

  lemma CaseNameRoundTrip(c: Case)
    ensures CaseFromName(CaseName(c)) == Some(c)
  {
  }
}
