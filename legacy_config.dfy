/** documented-derive/src/config.rs: the configuration of the older derive
    crate. Its only option is `trim = <bool>`, and each helper attribute may
    appear at most once on a target. */
module LegacyConfig {
  import opened Diag
  import opened Syntax
  import opened CustomiseCore
  import Derive

  datatype Config = Config(trim: bool)

  /** ConfigCustomisations, the optfield twin of `Config`. */
  datatype ConfigCustomisations = ConfigCustomisations(trim: Option<bool>)

  const NoCustomisations := ConfigCustomisations(None)

  /** `Config::default()`. */
  function DefaultConfig(): (c: Config)
    ensures c.trim
  {
    Config(true)
  }

  /** `with_customisations`: `trim` changes exactly when it was given. */
  function WithCustomisations(config: Config, c: ConfigCustomisations): (r: Config)
    ensures c.trim.None? ==> r == config
    ensures c.trim.Some? ==> r.trim == c.trim.value
  {
    if c.trim.Some? then Config(c.trim.value) else config
  }

  // ---------------------------------------------------------------------
  // Parsing one attribute's arguments

  /** The only keyword the older option grammar knows. */
  const TrimOnly: seq<Kind> := [Trim]

  const RepeatedMsg := "This config option cannot be specified more than once"

  /** Every option is a `trim` option (the older `ConfigOption` enum has no
      other variant). */
  predicate AllTrim(opts: seq<ConfigOption>) {
    forall i :: 0 <= i < |opts| ==> opts[i].data.SetTrim?
  }

  /** The option loop of `Parse for ConfigCustomisations`, declaratively: a
      second `trim` fails at its own keyword; otherwise the one `trim`, if
      any, is the customisation. */
  function TrimProfile(opts: seq<ConfigOption>): (r: Result<ConfigCustomisations>)
    requires AllTrim(opts)
    ensures r.Err? <==> !Unique(opts)
    ensures r.Err? ==> r.error == Error(opts[1].span, RepeatedMsg)
    ensures r.Ok? ==> (r.value.trim.Some? <==> HasKind(opts, Trim))
    ensures r.Ok? && r.value.trim.Some? ==> LastOf(opts, Trim) == Some(SetTrim(r.value.trim.value))
  {
    if |opts| >= 2 then
      assert KindOf(opts[0].data) == KindOf(opts[1].data);
      Err(Error(opts[1].span, RepeatedMsg))
    else if |opts| == 1 then Ok(ConfigCustomisations(Some(opts[0].data.trim)))
    else Ok(NoCustomisations)
  }

  /** The arguments of one attribute: the option list, then the single
      `trim` check. */
  function ParsedCustomisations(ts: TokenStream): (r: Result<ConfigCustomisations>)
    ensures ParseList(ts, TrimOnly).Err? ==> r == Err(ParseList(ts, TrimOnly).error)
    ensures ParseList(ts, TrimOnly).Ok? ==>
              AllTrim(ParseList(ts, TrimOnly).value) && r == TrimProfile(ParseList(ts, TrimOnly).value)
  {
    var opts :- ParseList(ts, TrimOnly);
    assert AllTrim(opts) by {
      forall i | 0 <= i < |opts| ensures opts[i].data.SetTrim? {
        assert KindOf(opts[i].data) in TrimOnly;
      }
    }
    TrimProfile(opts)
  }

  /** The `for arg in args` loop of `Parse for ConfigCustomisations`. */
  method AssignTrim(opts: seq<ConfigOption>) returns (r: Result<ConfigCustomisations>)
    requires AllTrim(opts)
    ensures r == TrimProfile(opts)
  {
    var config := NoCustomisations;
    var i := 0;
    while i < |opts|
      invariant 0 <= i <= |opts| && i <= 1
      invariant i == 0 ==> config == NoCustomisations
      invariant i == 1 ==> config == ConfigCustomisations(Some(opts[0].data.trim))
    {
      var opt := opts[i];
      if config.trim.Some? {
        return Err(Error(opt.span, RepeatedMsg));
      }
      config := config.(trim := Some(opt.data.trim));
      i := i + 1;
    }
    return Ok(config);
  }

  /** `Parse for ConfigCustomisations`: the whole list is parsed before any
      option is looked at. */
  method Parse(ts: TokenStream) returns (r: Result<ConfigCustomisations>)
    ensures r == ParsedCustomisations(ts)
  {
    var opts :- ParseList(ts, TrimOnly);
    assert AllTrim(opts) by {
      forall i | 0 <= i < |opts| ensures opts[i].data.SetTrim? {
        assert KindOf(opts[i].data) in TrimOnly;
      }
    }
    r := AssignTrim(opts);
  }

  // ---------------------------------------------------------------------
  // The helper attribute of a target

  function DeclaredOnceMsg(attrName: string): string {
    attrName + " can only be declared once"
  }

  /** The argument lists of the given attributes, in order; the first
      attribute that is not of the form `name(...)` fails the collection. */
  function ListArgs(rel: seq<Attribute>, attrName: string): (r: Result<seq<TokenStream>>)
    ensures r.Ok? <==> forall i :: 0 <= i < |rel| ==> rel[i].meta.ListMeta?
    ensures r.Ok? ==> |r.value| == |rel| && forall i :: 0 <= i < |rel| ==> r.value[i] == rel[i].meta.args
    ensures r.Err? ==> exists i :: (
              && 0 <= i < |rel| && !rel[i].meta.ListMeta?
              && (forall j :: 0 <= j < i ==> rel[j].meta.ListMeta?)
              && r.error == Error(rel[i].span, Derive.NotListLikeMsg(attrName)))
  {
    if rel == [] then Ok([])
    else if !rel[0].meta.ListMeta? then Err(Error(rel[0].span, Derive.NotListLikeMsg(attrName)))
    else
      var rest :- ListArgs(rel[1..], attrName);
      assert forall i :: 1 <= i < |rel| ==> rel[i] == rel[1..][i - 1];
      Ok([rel[0].meta.args] + rest)
  }

  /** Where a declaration's diagnostics point: the attribute. */
  function AttrSpan(a: Attribute): nat {
    a.span
  }

  /** The error for a helper attribute declared more than once. */
  function DeclaredOnceError(decls: seq<Attribute>, attrName: string): (d: Diagnostic)
    requires |decls| >= 1
    ensures |d| == |decls|
    ensures d[0] == Note(decls[0].span, DeclaredOnceMsg(attrName))
    ensures forall i :: 1 <= i < |decls| ==> d[i] == Note(decls[i].span, DuplicateHereMsg)
  {
    [Note(decls[0].span, DeclaredOnceMsg(attrName))] + DuplicateNotes(decls[1..], AttrSpan)
  }

  /** The fold that adds a note for every later declaration. */
  method DeclaredOnceDiagnostic(decls: seq<Attribute>, attrName: string) returns (err: Diagnostic)
    requires |decls| >= 1
    ensures err == DeclaredOnceError(decls, attrName)
  {
    err := Error(decls[0].span, DeclaredOnceMsg(attrName));
    var i := 1;
    while i < |decls|
      invariant 1 <= i <= |decls|
      invariant err == [Note(decls[0].span, DeclaredOnceMsg(attrName))] + DuplicateNotes(decls[1..i], AttrSpan)
    {
      assert decls[1..i + 1][..i - 1] == decls[1..i];
      err := err + [Note(decls[i].span, DuplicateHereMsg)];
      i := i + 1;
    }
    assert decls[1..i] == decls[1..];
  }

  /** get_config_customisations: every attribute named `attrName` must be
      list-like; none gives `None`, one gives its parsed arguments, and more
      than one is an error at the first with a note at each other. */
  function GetConfigCustomisations(attrs: seq<Attribute>, attrName: string): (r: Result<Option<ConfigCustomisations>>)
    ensures var rel := Derive.Relevant(attrs, attrName);
            && (r == Ok(None) <==> rel == [])
            && (ListArgs(rel, attrName).Err? ==> r == Err(ListArgs(rel, attrName).error))
            && (ListArgs(rel, attrName).Ok? && |rel| >= 2 ==> r == Err(DeclaredOnceError(rel, attrName)))
            && (ListArgs(rel, attrName).Ok? && |rel| == 1 ==>
                  r == (match ParsedCustomisations(rel[0].meta.args)
                        case Ok(c) => Ok(Some(c))
                        case Err(e) => Err(e)))
  {
    var rel := Derive.Relevant(attrs, attrName);
    var args :- ListArgs(rel, attrName);
    if |args| == 0 then Ok(None)
    else if |args| == 1 then
      var c :- ParsedCustomisations(args[0]);
      Ok(Some(c))
    else Err(DeclaredOnceError(rel, attrName))
  }

  /** The config of a target: the default, overlaid by the target's own
      attribute when it has one. */
  function ConfigFrom(base: Config, attrs: seq<Attribute>, attrName: string): (r: Result<Config>)
    ensures r.Ok? <==> GetConfigCustomisations(attrs, attrName).Ok?
    ensures GetConfigCustomisations(attrs, attrName) == Ok(None) ==> r == Ok(base)
    ensures r.Ok? && GetConfigCustomisations(attrs, attrName).value.Some? ==>
              r.value == WithCustomisations(base, GetConfigCustomisations(attrs, attrName).value.value)
  {
    var c :- GetConfigCustomisations(attrs, attrName);
    if c.Some? then Ok(WithCustomisations(base, c.value)) else Ok(base)
  }

  // ---------------------------------------------------------------------
  // Lemmas

  /** A keyword other than `trim` never starts an option. */
  lemma OnlyTrimRecognised(ts: TokenStream, pos: nat)
    requires pos < |ts.tokens| && ts.tokens[pos].kind.Ident? && ts.tokens[pos].kind.name != "trim"
    ensures ParseOptionAt(ts, pos, TrimOnly) == Err(Error(ts.tokens[pos].span, "expected `trim`"))
  {
    assert !KeywordAt(ts, pos, TrimOnly);
    assert LookaheadMessage(TrimOnly) == "expected `trim`";
    assert Expected(ts, pos, LookaheadMessage(TrimOnly)) == Error(ts.tokens[pos].span, "expected `trim`");
  }

  /** A list of `trim` options as written: the first parses to its value,
      a second fails at the second keyword. */
  lemma SecondTrimRejected(bs: seq<bool>, end: nat, trailing: bool)
    requires |bs| >= 2
    ensures var ds := seq(|bs|, i requires 0 <= i < |bs| => SetTrim(bs[i]));
            ParsedCustomisations(TokenStream(Render(ds, trailing), end)) == Err(Error(4, RepeatedMsg))
  {
    var ds := seq(|bs|, i requires 0 <= i < |bs| => SetTrim(bs[i]));
    ParseRenderRoundTrip(ds, end, TrimOnly, trailing);
  }

  /** `trim = b` alone parses to `b`. */
  lemma OneTrimAccepted(b: bool, end: nat, trailing: bool)
    ensures ParsedCustomisations(TokenStream(Render([SetTrim(b)], trailing), end)) == Ok(ConfigCustomisations(Some(b)))
  {
    ParseRenderRoundTrip([SetTrim(b)], end, TrimOnly, trailing);
  }

  /** A successful lookup found at most one attribute. */
  lemma AtMostOneAttribute(attrs: seq<Attribute>, attrName: string)
    requires GetConfigCustomisations(attrs, attrName).Ok?
    ensures |Derive.Relevant(attrs, attrName)| <= 1
  {
  }

  /** Without the helper attribute the default config is used. */
  lemma NoAttributeDefault(attrs: seq<Attribute>, attrName: string)
    requires forall i :: 0 <= i < |attrs| ==> attrs[i].path != attrName
    ensures ConfigFrom(DefaultConfig(), attrs, attrName) == Ok(DefaultConfig())
  {
    var rel := Derive.Relevant(attrs, attrName);
    if rel != [] {
      assert rel[0] in rel;
    }
  }
}
