/** documented-macros/src/config/attr.rs: the configuration of the
    `docs_const` attribute macro, parsed from the attribute's arguments. */
module Attr {
  import opened Diag
  import opened Syntax
  import opened CustomiseCore

  datatype AttrConfig = AttrConfig(
    customVis: Option<Visibility>,
    customName: Option<string>,
    defaultValue: Option<Expr>,
    trim: bool)

  /** AttrCustomisations, the optfield twin of `AttrConfig`. */
  datatype AttrCustomisations = AttrCustomisations(
    customVis: Option<Visibility>,
    customName: Option<string>,
    defaultValue: Option<Expr>,
    trim: Option<bool>)

  const NoCustomisations := AttrCustomisations(None, None, None, None)

  /** `AttrConfig::default()`. */
  function DefaultConfig(): (c: AttrConfig)
    ensures c.customVis.None? && c.customName.None? && c.defaultValue.None? && c.trim
  {
    AttrConfig(None, None, None, true)
  }

  /** `with_customisations`: the fields the customisation sets override,
      the others keep their value. */
  function WithCustomisations(config: AttrConfig, c: AttrCustomisations): (r: AttrConfig)
    ensures r.customVis == if c.customVis.Some? then c.customVis else config.customVis
    ensures r.customName == if c.customName.Some? then c.customName else config.customName
    ensures r.defaultValue == if c.defaultValue.Some? then c.defaultValue else config.defaultValue
    ensures r.trim == c.trim.GetOr(config.trim)
    ensures c == NoCustomisations ==> r == config
  {
    AttrConfig(
      if c.customVis.Some? then c.customVis else config.customVis,
      if c.customName.Some? then c.customName else config.customName,
      if c.defaultValue.Some? then c.defaultValue else config.defaultValue,
      if c.trim.Some? then c.trim.value else config.trim)
  }

  const NotApplicableMsg := "This config option is not applicable here"

  /** The kinds a docs constant does not accept. */
  const Inapplicable: set<Kind> := {RenameAll}

  /** The option loop of `Parse for AttrCustomisations`, declaratively:
      `rename_all` does not apply to a constant; every other option sets
      its own field to the value of the last option of its kind. */
  function AttrProfile(opts: seq<ConfigOption>): (r: Result<AttrCustomisations>)
    ensures r.Err? <==> HasKind(opts, RenameAll)
    ensures r.Ok? ==> && (r.value.customVis.Some? <==> HasKind(opts, Vis))
                      && (r.value.customName.Some? <==> HasKind(opts, Rename))
                      && (r.value.defaultValue.Some? <==> HasKind(opts, Default))
                      && (r.value.trim.Some? <==> HasKind(opts, Trim))
  {
    match FirstOfKinds(opts, Inapplicable)
    case Some(i) => Err(Error(opts[i].span, NotApplicableMsg))
    case None => Ok(Assigned(opts))
  }

  function VisOf(opts: seq<ConfigOption>): Option<Visibility> {
    match LastOf(opts, Vis) case Some(d) => Some(d.vis) case None => None
  }

  function NameOf(opts: seq<ConfigOption>): Option<string> {
    match LastOf(opts, Rename) case Some(d) => Some(d.name) case None => None
  }

  function DefaultOf(opts: seq<ConfigOption>): Option<Expr> {
    match LastOf(opts, Default) case Some(d) => Some(d.expr) case None => None
  }

  function TrimOf(opts: seq<ConfigOption>): Option<bool> {
    match LastOf(opts, Trim) case Some(d) => Some(d.trim) case None => None
  }

  /** `Parse for AttrCustomisations`: parse the list, reject duplicates
      before looking at any option, then set the fields one option at a
      time. */
  method Parse(ts: TokenStream) returns (r: Result<AttrCustomisations>)
    ensures ParseList(ts, AllKinds).Err? ==> r == Err(ParseList(ts, AllKinds).error)
    ensures ParseList(ts, AllKinds).Ok? ==>
              var opts := ParseList(ts, AllKinds).value;
              && (!Unique(opts) ==> r.Err? && exists k :: |OfKind(opts, k)| >= 2 && r.error == DuplicateError(OfKind(opts, k), k))
              && (Unique(opts) ==> r == AttrProfile(opts))
  {
    var opts :- ParseList(ts, AllKinds);
    var unique := EnsureUniqueOptions(opts);
    if unique.Err? {
      return Err(unique.error);
    }
    r := AssignOptions(opts);
  }

  /** The `for opt in opts` loop that fills the customisation. */
  method AssignOptions(opts: seq<ConfigOption>) returns (r: Result<AttrCustomisations>)
    ensures r == AttrProfile(opts)
  {
    var config := NoCustomisations;
    var i := 0;
    while i < |opts|
      invariant 0 <= i <= |opts|
      invariant FirstOfKinds(opts[..i], Inapplicable).None?
      invariant config == Assigned(opts[..i])
    {
      var opt := opts[i];
      if opt.data.SetRenameAll? {
        FirstInapplicable(opts, i);
        return Err(Error(opt.span, NotApplicableMsg));
      }
      AssignStep(opts, i);
      match opt.data {
        case SetVis(v) =>
          config := config.(customVis := Some(v));
        case SetRename(n) =>
          config := config.(customName := Some(n));
        case SetDefault(e) =>
          config := config.(defaultValue := Some(e));
        case SetTrim(b) =>
          config := config.(trim := Some(b));
      }
      i := i + 1;
    }
    assert opts[..i] == opts;
    return Ok(config);
  }

  /** A `rename_all` right after an accepted prefix is the first one. */
  lemma FirstInapplicable(opts: seq<ConfigOption>, i: nat)
    requires i < |opts| && opts[i].data.SetRenameAll?
    requires FirstOfKinds(opts[..i], Inapplicable).None?
    ensures FirstOfKinds(opts, Inapplicable) == Some(i)
  {
    assert forall j :: 0 <= j < i ==> opts[..i][j] == opts[j];
  }

  /** The customisation the options so far have set. */
  function Assigned(opts: seq<ConfigOption>): AttrCustomisations {
    AttrCustomisations(VisOf(opts), NameOf(opts), DefaultOf(opts), TrimOf(opts))
  }

  /** One accepted option sets its own field. */
  function SetField(c: AttrCustomisations, d: Data): AttrCustomisations {
    match d
    case SetVis(v) => c.(customVis := Some(v))
    case SetRename(n) => c.(customName := Some(n))
    case SetDefault(e) => c.(defaultValue := Some(e))
    case SetTrim(b) => c.(trim := Some(b))
    case SetRenameAll(_) => c
  }

  /** One more accepted option changes only the field of its own kind. */
  lemma AssignStep(opts: seq<ConfigOption>, i: nat)
    requires i < |opts| && !opts[i].data.SetRenameAll?
    requires FirstOfKinds(opts[..i], Inapplicable).None?
    ensures FirstOfKinds(opts[..i + 1], Inapplicable).None?
    ensures Assigned(opts[..i + 1]) == SetField(Assigned(opts[..i]), opts[i].data)
  {
    var p := opts[..i + 1];
    assert p[..i] == opts[..i];
    assert p[i] == opts[i];
  }

  // ---------------------------------------------------------------------
  // Lemmas

  /** An empty argument list parses and resolves to the default config. */
  lemma EmptyArgumentsGiveDefault(end: nat)
    ensures ParseList(TokenStream([], end), AllKinds) == Ok([])
    ensures AttrProfile([]) == Ok(NoCustomisations)
    ensures WithCustomisations(DefaultConfig(), NoCustomisations) == DefaultConfig()
  {
  }

  /** Each option sets exactly its own field. */
  lemma OneOptionOneField(o: ConfigOption)
    requires KindOf(o.data) != RenameAll
    ensures var r := AttrProfile([o]);
            && r.Ok?
            && r.value.customVis == (if o.data.SetVis? then Some(o.data.vis) else None)
            && r.value.customName == (if o.data.SetRename? then Some(o.data.name) else None)
            && r.value.defaultValue == (if o.data.SetDefault? then Some(o.data.expr) else None)
            && r.value.trim == (if o.data.SetTrim? then Some(o.data.trim) else None)
  {
    assert [o][..0] == [];
  }
}
