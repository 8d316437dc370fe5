/** documented-macros/src/config/derive_fields.rs: the configuration of
    `DocumentedFields` / `DocumentedFieldsOpt`, read from the container's
    attributes (the base profile) and from each field's (the field profile). */
module DeriveFields {
  import opened Diag
  import opened Syntax
  import opened CustomiseCore

  /** How a field is renamed. */
  datatype RenameMode = ToCase(convention: Case) | Custom(name: string)

  datatype DeriveFieldsConfig = DeriveFieldsConfig(renameMode: Option<RenameMode>, defaultValue: Option<Expr>, trim: bool)

  /** The optfield twin of the config. The base and field customisation
      types of the source have this same shape and share it here. */
  datatype FieldsCustomisations = FieldsCustomisations(renameMode: Option<RenameMode>, defaultValue: Option<Expr>, trim: Option<bool>)

  const NoCustomisations := FieldsCustomisations(None, None, None)

  /** `DeriveFieldsConfig::default()`. */
  function DefaultConfig(): (c: DeriveFieldsConfig)
    ensures c.renameMode.None? && c.defaultValue.None? && c.trim
  {
    DeriveFieldsConfig(None, None, true)
  }

  /** `with_base_customisations` and `with_field_customisations` (the same
      optfield merge): a field the customisation sets wins, a field it
      leaves unset keeps the receiver's value. The receiver is a value and
      is never changed. */
  function WithCustomisations(config: DeriveFieldsConfig, c: FieldsCustomisations): (r: DeriveFieldsConfig)
    ensures r.renameMode == if c.renameMode.Some? then c.renameMode else config.renameMode
    ensures r.defaultValue == if c.defaultValue.Some? then c.defaultValue else config.defaultValue
    ensures r.trim == c.trim.GetOr(config.trim)
    ensures c == NoCustomisations ==> r == config
  {
    DeriveFieldsConfig(
      if c.renameMode.Some? then c.renameMode else config.renameMode,
      if c.defaultValue.Some? then c.defaultValue else config.defaultValue,
      if c.trim.Some? then c.trim.value else config.trim)
  }

  const NotApplicableMsg := "This config option is not applicable here"

  /** Kinds the container attribute rejects, and kinds a field attribute rejects. */
  const BaseRejected: set<Kind> := {Vis, Rename}
  const FieldRejected: set<Kind> := {Vis}

  function DefaultOf(opts: seq<ConfigOption>): Option<Expr> {
    match LastOf(opts, Default) case Some(d) => Some(d.expr) case None => None
  }

  function TrimOf(opts: seq<ConfigOption>): Option<bool> {
    match LastOf(opts, Trim) case Some(d) => Some(d.trim) case None => None
  }

  /** The container's rename mode: the last `rename_all`. */
  function BaseRename(opts: seq<ConfigOption>): Option<RenameMode> {
    match LastOf(opts, RenameAll) case Some(d) => Some(ToCase(d.convention)) case None => None
  }

  /** A field's rename mode: a `name` always wins over `rename_all`,
      wherever it appears. */
  function FieldRename(opts: seq<ConfigOption>): (r: Option<RenameMode>)
    ensures HasKind(opts, Rename) ==> r.Some? && r.value.Custom?
    ensures !HasKind(opts, Rename) ==> r == BaseRename(opts)
  {
    match LastOf(opts, Rename)
    case Some(d) => Some(Custom(d.name))
    case None => BaseRename(opts)
  }

  /** `TryFrom<Vec<ConfigOption>> for DeriveFieldsBaseCustomisations`. */
  function BaseProfile(opts: seq<ConfigOption>): (r: Result<FieldsCustomisations>)
    ensures r.Err? <==> exists i :: 0 <= i < |opts| && KindOf(opts[i].data) in BaseRejected
    ensures r.Err? ==> exists i :: 0 <= i < |opts| && KindOf(opts[i].data) in BaseRejected &&
                                   r.error == Error(opts[i].span, NotApplicableMsg)
    ensures r.Ok? ==> (r.value.renameMode.Some? <==> HasKind(opts, RenameAll))
  {
    match FirstOfKinds(opts, BaseRejected)
    case Some(i) => Err(Error(opts[i].span, NotApplicableMsg))
    case None => Ok(FieldsCustomisations(BaseRename(opts), DefaultOf(opts), TrimOf(opts)))
  }

  /** `TryFrom<Vec<ConfigOption>> for DeriveFieldsCustomisations`. */
  function FieldProfile(opts: seq<ConfigOption>): (r: Result<FieldsCustomisations>)
    ensures r.Err? <==> exists i :: 0 <= i < |opts| && KindOf(opts[i].data) == Vis
    ensures r.Err? ==> exists i :: 0 <= i < |opts| && KindOf(opts[i].data) == Vis &&
                                   r.error == Error(opts[i].span, NotApplicableMsg)
    ensures r.Ok? ==> (r.value.renameMode.Some? <==> HasKind(opts, Rename) || HasKind(opts, RenameAll))
  {
    match FirstOfKinds(opts, FieldRejected)
    case Some(i) => Err(Error(opts[i].span, NotApplicableMsg))
    case None => Ok(FieldsCustomisations(FieldRename(opts), DefaultOf(opts), TrimOf(opts)))
  }

  /** The option loop of the base profile. */
  method TryFromBase(opts: seq<ConfigOption>) returns (r: Result<FieldsCustomisations>)
    ensures r == BaseProfile(opts)
  {
    var config := NoCustomisations;
    var i := 0;
    while i < |opts|
      invariant 0 <= i <= |opts|
      invariant FirstOfKinds(opts[..i], BaseRejected).None?
      invariant BaseProfile(opts[..i]) == Ok(config)
    {
      var opt := opts[i];
      assert opts[..i + 1][..i] == opts[..i];
      assert opts[..i + 1][i] == opt;
      match opt.data {
        case SetVis(_) =>
          FirstRejected(opts, i, BaseRejected);
          return Err(Error(opt.span, NotApplicableMsg));
        case SetRename(_) =>
          FirstRejected(opts, i, BaseRejected);
          return Err(Error(opt.span, NotApplicableMsg));
        case SetRenameAll(c) =>
          config := config.(renameMode := Some(ToCase(c)));
        case SetDefault(e) =>
          config := config.(defaultValue := Some(e));
        case SetTrim(b) =>
          config := config.(trim := Some(b));
      }
      i := i + 1;
    }
    assert opts[..i] == opts;
    return Ok(config);
  }

  /** The option loop of the field profile. */
  method TryFromField(opts: seq<ConfigOption>) returns (r: Result<FieldsCustomisations>)
    ensures r == FieldProfile(opts)
  {
    var config := NoCustomisations;
    var i := 0;
    while i < |opts|
      invariant 0 <= i <= |opts|
      invariant FirstOfKinds(opts[..i], FieldRejected).None?
      invariant FieldProfile(opts[..i]) == Ok(config)
    {
      var opt := opts[i];
      assert opts[..i + 1][..i] == opts[..i];
      assert opts[..i + 1][i] == opt;
      match opt.data {
        case SetVis(_) =>
          FirstRejected(opts, i, FieldRejected);
          return Err(Error(opt.span, NotApplicableMsg));
        case SetRenameAll(c) =>
          // `rename` always has priority over `rename_all`
          if !(config.renameMode.Some? && config.renameMode.value.Custom?) {
            config := config.(renameMode := Some(ToCase(c)));
          }
        case SetRename(n) =>
          config := config.(renameMode := Some(Custom(n)));
        case SetDefault(e) =>
          config := config.(defaultValue := Some(e));
        case SetTrim(b) =>
          config := config.(trim := Some(b));
      }
      i := i + 1;
    }
    assert opts[..i] == opts;
    return Ok(config);
  }

  /** A rejected option right after an accepted prefix is the first one. */
  lemma FirstRejected(opts: seq<ConfigOption>, i: nat, bad: set<Kind>)
    requires i < |opts| && KindOf(opts[i].data) in bad
    requires FirstOfKinds(opts[..i], bad).None?
    ensures FirstOfKinds(opts, bad) == Some(i)
  {
    assert forall j :: 0 <= j < i ==> opts[..i][j] == opts[j];
  }

  // ---------------------------------------------------------------------
  // Lemmas

  /** `name` beats `rename_all` at field level, whatever the order and the
      number of either: the rename mode is the last `name`. */
  lemma RenameBeatsRenameAll(opts: seq<ConfigOption>)
    requires HasKind(opts, Rename)
    ensures FieldRename(opts) == Some(Custom(LastOf(opts, Rename).value.name))
    ensures FieldProfile(opts).Ok? ==> FieldProfile(opts).value.renameMode == Some(Custom(LastOf(opts, Rename).value.name))
  {
  }

  /** In a duplicate-free list the last option of a kind is its only one. */
  lemma LastOfUnique(opts: seq<ConfigOption>, i: nat)
    requires Unique(opts) && i < |opts|
    ensures LastOf(opts, KindOf(opts[i].data)) == Some(opts[i].data)
  {
    var k := KindOf(opts[i].data);
    assert HasKind(opts, k);
    var d := LastOf(opts, k);
    assert d.Some? && KindOf(d.value) == k;
    LastOfIsLast(opts, k);
    var j :| 0 <= j < |opts| && opts[j].data == d.value &&
             forall m :: j < m < |opts| ==> KindOf(opts[m].data) != k;
    assert KindOf(opts[j].data) == k;
    assert !(j < i);
    assert !(i < j);
  }

  /** Lists with the same options have the same kinds. */
  lemma SameOptionsSameKinds(xs: seq<ConfigOption>, ys: seq<ConfigOption>, k: Kind)
    requires forall o :: o in xs <==> o in ys
    ensures HasKind(xs, k) <==> HasKind(ys, k)
  {
    if HasKind(xs, k) {
      var i :| 0 <= i < |xs| && KindOf(xs[i].data) == k;
      assert xs[i] in ys;
    }
    if HasKind(ys, k) {
      var j :| 0 <= j < |ys| && KindOf(ys[j].data) == k;
      assert ys[j] in xs;
    }
  }

  /** Two duplicate-free lists with the same options have the same last
      option of every kind. */
  lemma LastOfSameOptions(xs: seq<ConfigOption>, ys: seq<ConfigOption>, k: Kind)
    requires Unique(xs) && Unique(ys)
    requires forall o :: o in xs <==> o in ys
    ensures LastOf(xs, k) == LastOf(ys, k)
  {
    SameOptionsSameKinds(xs, ys, k);
    if HasKind(xs, k) {
      var i :| 0 <= i < |xs| && KindOf(xs[i].data) == k;
      assert xs[i] in ys;
      var j :| 0 <= j < |ys| && ys[j] == xs[i];
      LastOfUnique(xs, i);
      LastOfUnique(ys, j);
    }
  }

  /** Lists with the same options contain a rejected kind or not together. */
  lemma SameOptionsSameRejection(xs: seq<ConfigOption>, ys: seq<ConfigOption>, bad: set<Kind>)
    requires forall o :: o in xs <==> o in ys
    ensures FirstOfKinds(xs, bad).None? <==> FirstOfKinds(ys, bad).None?
  {
    forall k | k in bad ensures HasKind(xs, k) <==> HasKind(ys, k) {
      SameOptionsSameKinds(xs, ys, k);
    }
  }

  /** For duplicate-free lists, option order does not matter to the
      container profile: the same options succeed or fail together, and
      succeed with the same result. */
  lemma BaseOrderIndependent(xs: seq<ConfigOption>, ys: seq<ConfigOption>)
    requires Unique(xs) && Unique(ys)
    requires forall o :: o in xs <==> o in ys
    ensures BaseProfile(xs).Ok? == BaseProfile(ys).Ok?
    ensures BaseProfile(xs).Ok? ==> BaseProfile(xs) == BaseProfile(ys)
  {
    SameOptionsSameRejection(xs, ys, BaseRejected);
    LastOfSameOptions(xs, ys, RenameAll);
    LastOfSameOptions(xs, ys, Default);
    LastOfSameOptions(xs, ys, Trim);
  }

  /** The same for the field profile. */
  lemma FieldOrderIndependent(xs: seq<ConfigOption>, ys: seq<ConfigOption>)
    requires Unique(xs) && Unique(ys)
    requires forall o :: o in xs <==> o in ys
    ensures FieldProfile(xs).Ok? == FieldProfile(ys).Ok?
    ensures FieldProfile(xs).Ok? ==> FieldProfile(xs) == FieldProfile(ys)
  {
    SameOptionsSameRejection(xs, ys, FieldRejected);
    LastOfSameOptions(xs, ys, Rename);
    LastOfSameOptions(xs, ys, RenameAll);
    LastOfSameOptions(xs, ys, Default);
    LastOfSameOptions(xs, ys, Trim);
  }

  /** Layering default, container and field, from the options as written:
      each resolved field takes the field's last option of its kind, else
      the container's, else the default. */
  lemma Layering(baseOpts: seq<ConfigOption>, fieldOpts: seq<ConfigOption>)
    requires BaseProfile(baseOpts).Ok? && FieldProfile(fieldOpts).Ok?
    ensures var r := WithCustomisations(WithCustomisations(DefaultConfig(), BaseProfile(baseOpts).value),
                                        FieldProfile(fieldOpts).value);
            && r.trim == (if HasKind(fieldOpts, Trim) then LastOf(fieldOpts, Trim).value.trim
                          else if HasKind(baseOpts, Trim) then LastOf(baseOpts, Trim).value.trim
                          else true)
            && r.defaultValue == (if HasKind(fieldOpts, Default) then Some(LastOf(fieldOpts, Default).value.expr)
                                  else if HasKind(baseOpts, Default) then Some(LastOf(baseOpts, Default).value.expr)
                                  else None)
            && r.renameMode == (if HasKind(fieldOpts, Rename) || HasKind(fieldOpts, RenameAll) then FieldRename(fieldOpts)
                                else if HasKind(baseOpts, RenameAll) then Some(ToCase(LastOf(baseOpts, RenameAll).value.convention))
                                else None)
  {
  }

  /** A field-level `name` wins over a container-level `rename_all`. */
  lemma FieldNameBeatsContainerCase(baseOpts: seq<ConfigOption>, fieldOpts: seq<ConfigOption>)
    requires BaseProfile(baseOpts).Ok? && FieldProfile(fieldOpts).Ok?
    requires HasKind(fieldOpts, Rename)
    ensures WithCustomisations(WithCustomisations(DefaultConfig(), BaseProfile(baseOpts).value),
                               FieldProfile(fieldOpts).value).renameMode
            == FieldRename(fieldOpts)
    ensures FieldRename(fieldOpts).Some? && FieldRename(fieldOpts).value.Custom?
  {
  }
}
