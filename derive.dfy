/** documented-macros/src/config/derive.rs: the configuration of the three
    derive macros and how it is read from their helper attributes. */
module Derive {
  import opened Diag
  import opened Syntax
  import opened CustomiseCore

  /** DeriveConfig: whether to trim lines, and the value to use when a
      target has no doc comments. */
  datatype DeriveConfig = DeriveConfig(defaultValue: Option<Expr>, trim: bool)

  /** DeriveCustomisations, the optfield twin of `DeriveConfig`: every field
      is present only when an option set it. */
  datatype DeriveCustomisations = DeriveCustomisations(defaultValue: Option<Expr>, trim: Option<bool>)

  /** `DeriveConfig::default()`. */
  function DefaultConfig(): (c: DeriveConfig)
    ensures c.trim && c.defaultValue.None?
  {
    DeriveConfig(None, true)
  }

  const NoCustomisations := DeriveCustomisations(None, None)

  /** `with_customisations`: every field the customisation sets overrides
      the old value; every other field keeps it. */
  function WithCustomisations(config: DeriveConfig, c: DeriveCustomisations): (r: DeriveConfig)
    ensures r.trim == c.trim.GetOr(config.trim)
    ensures r.defaultValue == if c.defaultValue.Some? then c.defaultValue else config.defaultValue
    ensures c == NoCustomisations ==> r == config
  {
    DeriveConfig(
      if c.defaultValue.Some? then c.defaultValue else config.defaultValue,
      if c.trim.Some? then c.trim.value else config.trim)
  }

  const NotApplicableMsg := "This config option is not applicable to derive macros"

  /** The kinds a derive macro does not accept. */
  const Rejected: set<Kind> := {Vis, Rename, RenameAll}

  /** `TryFrom<Vec<ConfigOption>>`, stated declaratively: the first option
      of a rejected kind fails, otherwise every field takes the value of
      the last option of its kind. */
  function DeriveProfile(opts: seq<ConfigOption>): (r: Result<DeriveCustomisations>)
    ensures r.Err? <==> exists i :: 0 <= i < |opts| && KindOf(opts[i].data) in Rejected
    ensures r.Err? ==> exists i :: 0 <= i < |opts| && KindOf(opts[i].data) in Rejected &&
                                   r.error == Error(opts[i].span, NotApplicableMsg)
    ensures r.Ok? ==> (r.value.trim.Some? <==> HasKind(opts, Trim)) &&
                      (r.value.defaultValue.Some? <==> HasKind(opts, Default))
  {
    match FirstOfKinds(opts, Rejected)
    case Some(i) => Err(Error(opts[i].span, NotApplicableMsg))
    case None =>
      Ok(DeriveCustomisations(
        match LastOf(opts, Default) case Some(d) => Some(d.expr) case None => None,
        match LastOf(opts, Trim) case Some(d) => Some(d.trim) case None => None))
  }

  /** The `for arg in args` loop of `TryFrom<Vec<ConfigOption>>`. */
  method TryFromOptions(opts: seq<ConfigOption>) returns (r: Result<DeriveCustomisations>)
    ensures r == DeriveProfile(opts)
  {
    var config := NoCustomisations;
    var i := 0;
    while i < |opts|
      invariant 0 <= i <= |opts|
      invariant FirstOfKinds(opts[..i], Rejected).None?
      invariant DeriveProfile(opts[..i]) == Ok(config)
    {
      var opt := opts[i];
      assert opts[..i + 1][..i] == opts[..i];
      assert opts[..i + 1][i] == opt;
      match opt.data {
        case SetVis(_) =>
          FirstOfKindsPrefix(opts, i);
          return Err(Error(opt.span, NotApplicableMsg));
        case SetRename(_) =>
          FirstOfKindsPrefix(opts, i);
          return Err(Error(opt.span, NotApplicableMsg));
        case SetRenameAll(_) =>
          FirstOfKindsPrefix(opts, i);
          return Err(Error(opt.span, NotApplicableMsg));
        case SetDefault(e) =>
          config := config.(defaultValue := Some(e));
        case SetTrim(b) =>
          config := config.(trim := Some(b));
      }
      i := i + 1;
    }
    assert opts[..i] == opts;
    return Ok(config);
  }

  /** A rejected option right after an accepted prefix is the first one. */
  lemma FirstOfKindsPrefix(opts: seq<ConfigOption>, i: nat)
    requires i < |opts| && KindOf(opts[i].data) in Rejected
    requires FirstOfKinds(opts[..i], Rejected).None?
    ensures FirstOfKinds(opts, Rejected) == Some(i)
  {
    assert forall j :: 0 <= j < i ==> opts[..i][j] == opts[j];
  }

  // ---------------------------------------------------------------------
  // Reading the customisations from attributes

  /** The attributes whose path is `attrName`, in order. */
  function Relevant(attrs: seq<Attribute>, attrName: string): (r: seq<Attribute>)
    ensures forall a :: a in r ==> a in attrs && a.path == attrName
    ensures forall i :: 0 <= i < |attrs| && attrs[i].path == attrName ==> attrs[i] in r
  {
    if attrs == [] then []
    else (if attrs[0].path == attrName then [attrs[0]] else []) + Relevant(attrs[1..], attrName)
  }

  function NotListLikeMsg(attrName: string): string {
    attrName + " is not list-like. Expecting `" + attrName + "(...)`"
  }

  /** The options of one attribute (`parse_args_with(parse_terminated)`):
      only the list form `name(...)` is accepted, and its arguments must
      parse as an option list. */
  function AttrOptions(a: Attribute, attrName: string): (r: Result<seq<ConfigOption>>)
    ensures !a.meta.ListMeta? ==> r == Err(Error(a.span, NotListLikeMsg(attrName)))
    ensures a.meta.ListMeta? ==> r == ParseList(a.meta.args, AllKinds)
  {
    match a.meta
    case ListMeta(args) => ParseList(args, AllKinds)
    case _ => Err(Error(a.span, NotListLikeMsg(attrName)))
  }

  /** The option list of every attribute, in order (empty for an attribute
      that fails). */
  function OptionLists(attrs: seq<Attribute>, attrName: string): (r: seq<seq<ConfigOption>>)
    ensures |r| == |attrs|
    ensures forall i :: 0 <= i < |attrs| && AttrOptions(attrs[i], attrName).Ok? ==> r[i] == AttrOptions(attrs[i], attrName).value
  {
    seq(|attrs|, i requires 0 <= i < |attrs| =>
      match AttrOptions(attrs[i], attrName) case Ok(os) => os case Err(_) => [])
  }

  /** `collect::<Result<Vec<_>, _>>()?.into_iter().flatten()`: the options of
      every attribute, pooled in order; the first attribute that fails
      fails the whole collection with its error. */
  function Pooled(attrs: seq<Attribute>, attrName: string): (r: Result<seq<ConfigOption>>)
    ensures r.Ok? <==> forall i :: 0 <= i < |attrs| ==> AttrOptions(attrs[i], attrName).Ok?
    ensures r.Ok? ==> r.value == Flatten(OptionLists(attrs, attrName))
    ensures r.Err? ==> exists i :: (
              && 0 <= i < |attrs| && AttrOptions(attrs[i], attrName) == Err(r.error)
              && forall j :: 0 <= j < i ==> AttrOptions(attrs[j], attrName).Ok?)
  {
    if attrs == [] then Ok([])
    else
      var first :- AttrOptions(attrs[0], attrName);
      var rest := Pooled(attrs[1..], attrName);
      if rest.Err? then
        var i :| && 0 <= i < |attrs| - 1 && AttrOptions(attrs[1..][i], attrName) == Err(rest.error)
                 && forall j :: 0 <= j < i ==> AttrOptions(attrs[1..][j], attrName).Ok?;
        LaterFailure(attrs, attrName, i);
        Err(rest.error)
      else
        OptionListsCons(attrs, attrName);
        Ok(first + rest.value)
  }

  /** A failure at index `i` of the tail is a failure at `i + 1`, after a
      successful head. */
  lemma LaterFailure(attrs: seq<Attribute>, attrName: string, i: nat)
    requires attrs != [] && AttrOptions(attrs[0], attrName).Ok?
    requires i < |attrs| - 1 && AttrOptions(attrs[1..][i], attrName).Err?
    requires forall j :: 0 <= j < i ==> AttrOptions(attrs[1..][j], attrName).Ok?
    ensures AttrOptions(attrs[i + 1], attrName) == AttrOptions(attrs[1..][i], attrName)
    ensures forall j :: 0 <= j < i + 1 ==> AttrOptions(attrs[j], attrName).Ok?
  {
    forall j | 1 <= j < i + 1 ensures AttrOptions(attrs[j], attrName).Ok? {
      assert attrs[j] == attrs[1..][j - 1];
    }
  }

  /** The option lists of a sequence whose head parses: the head's options,
      then those of the tail. */
  lemma OptionListsCons(attrs: seq<Attribute>, attrName: string)
    requires attrs != [] && AttrOptions(attrs[0], attrName).Ok?
    ensures Flatten(OptionLists(attrs, attrName)) ==
            AttrOptions(attrs[0], attrName).value + Flatten(OptionLists(attrs[1..], attrName))
  {
    var ls := OptionLists(attrs, attrName);
    assert forall i :: 1 <= i < |attrs| ==> attrs[1..][i - 1] == attrs[i];
    assert ls[1..] == OptionLists(attrs[1..], attrName);
  }

  /** get_customisations_from_attrs: filter by name, parse each list, pool,
      reject duplicates across the pool, then apply the derive profile. */
  function CustomisationsFromAttrs(attrs: seq<Attribute>, attrName: string): (r: Result<DeriveCustomisations>)
    ensures Relevant(attrs, attrName) == [] ==> r == Ok(NoCustomisations)
    ensures Pooled(Relevant(attrs, attrName), attrName).Ok? ==>
              var pool := Pooled(Relevant(attrs, attrName), attrName).value;
              (r.Ok? ==> Unique(pool)) &&
              (!Unique(pool) ==> r.Err? && exists k :: |OfKind(pool, k)| >= 2 && r.error == DuplicateError(OfKind(pool, k), k)) &&
              (Unique(pool) ==> r == DeriveProfile(pool))
    ensures Pooled(Relevant(attrs, attrName), attrName).Err? ==> r == Err(Pooled(Relevant(attrs, attrName), attrName).error)
  {
    var pool :- Pooled(Relevant(attrs, attrName), attrName);
    var _ :- UniqueCheck(pool);
    assert FirstOfKinds([], Rejected).None?;
    DeriveProfile(pool)
  }

  // ---------------------------------------------------------------------
  // Lemmas

  /** A single trim option sets exactly the trim field. */
  lemma TrimSetsOnlyTrim(span: nat, b: bool, config: DeriveConfig)
    ensures DeriveProfile([ConfigOption(span, SetTrim(b))]) == Ok(DeriveCustomisations(None, Some(b)))
    ensures WithCustomisations(config, DeriveCustomisations(None, Some(b))) == config.(trim := b)
  {
    var opts := [ConfigOption(span, SetTrim(b))];
    assert opts[..0] == [];
  }

  /** Attributes with other names contribute nothing, wherever they are. */
  lemma OtherAttributesIgnored(attrs: seq<Attribute>, other: Attribute, attrName: string)
    requires other.path != attrName
    ensures CustomisationsFromAttrs(attrs + [other], attrName) == CustomisationsFromAttrs(attrs, attrName)
    ensures CustomisationsFromAttrs([other] + attrs, attrName) == CustomisationsFromAttrs(attrs, attrName)
  {
    assert Relevant([other], attrName) == [];
    assert Relevant(attrs + [other], attrName) == Relevant(attrs, attrName) by {
      RelevantAppend(attrs, [other], attrName);
      assert Relevant(attrs, attrName) + [] == Relevant(attrs, attrName);
    }
    assert Relevant([other] + attrs, attrName) == Relevant(attrs, attrName) by {
      RelevantAppend([other], attrs, attrName);
      assert [] + Relevant(attrs, attrName) == Relevant(attrs, attrName);
    }
    SameRelevant(attrs + [other], attrs, attrName);
    SameRelevant([other] + attrs, attrs, attrName);
  }

  /** The lookup depends on the attributes of the given name only. */
  lemma SameRelevant(xs: seq<Attribute>, ys: seq<Attribute>, attrName: string)
    requires Relevant(xs, attrName) == Relevant(ys, attrName)
    ensures CustomisationsFromAttrs(xs, attrName) == CustomisationsFromAttrs(ys, attrName)
  {
  }

  /** Repeated empty lists are harmless: an attribute `name()` adds no
      option to the pool. */
  lemma EmptyAttributeHarmless(attrs: seq<Attribute>, span: nat, end: nat, attrName: string)
    ensures CustomisationsFromAttrs(attrs + [Attribute(attrName, ListMeta(TokenStream([], end)), span)], attrName) ==
            CustomisationsFromAttrs(attrs, attrName)
  {
    var empty := Attribute(attrName, ListMeta(TokenStream([], end)), span);
    RelevantAppend(attrs, [empty], attrName);
    RelevantOne(empty, attrName);
    PooledEmptyList(empty, end, attrName);
    PooledAppend(Relevant(attrs, attrName), [empty], attrName);
    assert Relevant(attrs + [empty], attrName) == Relevant(attrs, attrName) + [empty];
  }

  /** A helper attribute that is not of the form `name(...)` fails the
      whole lookup at its span, whatever follows it. */
  lemma NotListRejected(a: Attribute, attrs: seq<Attribute>, attrName: string)
    requires a.path == attrName && !a.meta.ListMeta?
    ensures CustomisationsFromAttrs([a] + attrs, attrName) == Err(Error(a.span, NotListLikeMsg(attrName)))
  {
    RelevantAppend([a], attrs, attrName);
    RelevantOne(a, attrName);
    var rel := Relevant([a] + attrs, attrName);
    assert rel[0] == a;
  }

  lemma RelevantOne(a: Attribute, attrName: string)
    requires a.path == attrName
    ensures Relevant([a], attrName) == [a]
  {
    assert [a][1..] == [];
  }

  /** The attribute `name()` pools no option. */
  lemma PooledEmptyList(a: Attribute, end: nat, attrName: string)
    requires a.meta == ListMeta(TokenStream([], end))
    ensures Pooled([a], attrName) == Ok([])
  {
    assert ParseList(TokenStream([], end), AllKinds) == Ok([]);
    assert [a][1..] == [];
    var none: seq<ConfigOption> := [];
    assert none + none == none;
  }

  /** The same kind in two different attributes is a duplicate. */
  lemma DuplicateAcrossAttributes(a: Attribute, b: Attribute, attrName: string, k: Kind)
    requires a.path == attrName && b.path == attrName
    requires AttrOptions(a, attrName).Ok? && AttrOptions(b, attrName).Ok?
    requires exists o :: o in AttrOptions(a, attrName).value && KindOf(o.data) == k
    requires exists o :: o in AttrOptions(b, attrName).value && KindOf(o.data) == k
    ensures CustomisationsFromAttrs([a, b], attrName).Err?
  {
    var xs := AttrOptions(a, attrName).value;
    var ys := AttrOptions(b, attrName).value;
    RelevantPair(a, b, attrName);
    PooledPair(a, b, attrName);
    SharedKindNotUnique(xs, ys, k);
  }

  lemma RelevantPair(a: Attribute, b: Attribute, attrName: string)
    requires a.path == attrName && b.path == attrName
    ensures Relevant([a, b], attrName) == [a, b]
  {
    assert [a, b][1..] == [b];
    RelevantOne(b, attrName);
  }

  lemma PooledPair(a: Attribute, b: Attribute, attrName: string)
    requires AttrOptions(a, attrName).Ok? && AttrOptions(b, attrName).Ok?
    ensures Pooled([a, b], attrName) == Ok(AttrOptions(a, attrName).value + AttrOptions(b, attrName).value)
  {
    var ys := AttrOptions(b, attrName).value;
    assert [a, b][1..] == [b];
    assert [b][1..] == [];
    assert ys + [] == ys;
  }

  /** Two lists that both hold an option of kind `k` pool a duplicate. */
  lemma SharedKindNotUnique(xs: seq<ConfigOption>, ys: seq<ConfigOption>, k: Kind)
    requires exists o :: o in xs && KindOf(o.data) == k
    requires exists o :: o in ys && KindOf(o.data) == k
    ensures !Unique(xs + ys)
  {
    var pool := xs + ys;
    var x :| x in xs && KindOf(x.data) == k;
    var y :| y in ys && KindOf(y.data) == k;
    var i :| 0 <= i < |xs| && xs[i] == x;
    var j :| 0 <= j < |ys| && ys[j] == y;
    assert pool[i] == x && pool[|xs| + j] == y;
  }

  lemma {:induction false} RelevantAppend(xs: seq<Attribute>, ys: seq<Attribute>, attrName: string)
    ensures Relevant(xs + ys, attrName) == Relevant(xs, attrName) + Relevant(ys, attrName)
    decreases |xs|
  {
    if xs == [] {
      assert xs + ys == ys;
    } else {
      assert (xs + ys)[1..] == xs[1..] + ys;
      RelevantAppend(xs[1..], ys, attrName);
    }
  }

  lemma {:induction false} PooledAppend(xs: seq<Attribute>, ys: seq<Attribute>, attrName: string)
    requires Pooled(ys, attrName) == Ok([])
    ensures Pooled(xs + ys, attrName) == Pooled(xs, attrName)
    decreases |xs|
  {
    if xs == [] {
      assert xs + ys == ys;
    } else {
      assert (xs + ys)[1..] == xs[1..] + ys;
      assert (xs + ys)[0] == xs[0];
      PooledAppend(xs[1..], ys, attrName);
    }
  }
}
