/** documented-macros/src/attr_impl.rs: the `docs_const` attribute macro,
    which keeps the item and adds a constant holding its documentation. */
module AttrImpl {
  import opened Diag
  import opened Syntax
  import opened Attr
  import Util

  /** What the macro emits: the item unchanged, followed by
      `<vis> const <name>: &'static str = <docs>;`. */
  datatype DocsConst = DocsConst(item: Util.Item, vis: Visibility, name: string, docs: string)

  const MissingDocsMsg := "Missing doc comments"

  /** The span of the whole item, where the missing-docs error points. */
  function ItemSpan(item: Util.Item): nat {
    item.span
  }

  /** The constant's default name: the item name in SCREAMING_SNAKE_CASE
      (computed by `toScreamingSnake`, a case-conversion library this model
      takes as a parameter) followed by `_DOCS`. */
  function DefaultConstName(itemName: string, toScreamingSnake: string -> string): (r: string)
    ensures |r| >= 5 && r[|r| - 5..] == "_DOCS"
    ensures r[..|r| - 5] == toScreamingSnake(itemName)
  {
    toScreamingSnake(itemName) + "_DOCS"
  }

  /** docs_const_impl: apply the customisations to the default config, take
      the item's visibility, name and attributes, read its docs (an error
      when it has none), and choose the constant's visibility and name. */
  function DocsConstImpl(item: Util.Item, customisations: AttrCustomisations, toScreamingSnake: string -> string): (r: Result<DocsConst>)
    ensures Util.GetVisNameAttrs(item).Err? ==> r == Err(Util.GetVisNameAttrs(item).error)
    ensures Util.GetVisNameAttrs(item).Ok? ==>
              var (itemVis, itemName, attrs) := Util.GetVisNameAttrs(item).value;
              var config := WithCustomisations(DefaultConfig(), customisations);
              var docs := Util.GetDocs(attrs, config.trim);
              && (docs.Err? ==> r == Err(docs.error))
              && (docs == Ok(None) ==> r == Err(Error(ItemSpan(item), MissingDocsMsg)))
              && (docs.Ok? && docs.value.Some? ==>
                    && r.Ok?
                    && r.value.item == item
                    && r.value.docs == docs.value.value
                    && r.value.vis == customisations.customVis.GetOr(itemVis)
                    && r.value.name == customisations.customName.GetOr(DefaultConstName(itemName, toScreamingSnake)))
  {
    var config := WithCustomisations(DefaultConfig(), customisations);
    var (itemVis, itemName, attrs) :- Util.GetVisNameAttrs(item);
    var found :- Util.GetDocs(attrs, config.trim);
    if found.None? then Err(Error(ItemSpan(item), MissingDocsMsg))
    else
      var constVis := config.customVis.GetOr(itemVis);
      var constName := config.customName.GetOr(DefaultConstName(itemName, toScreamingSnake));
      Ok(DocsConst(item, constVis, constName, found.value))
  }

  // ---------------------------------------------------------------------
  // Lemmas

  /** Without customisations the constant inherits the item's visibility,
      takes the derived name, and the docs are trimmed. */
  lemma UncustomisedConst(item: Util.Item, toScreamingSnake: string -> string)
    requires item.Named?
    requires Util.AllDocsLiteral(item.attrs) && !Util.NoDocs(item.attrs)
    ensures var r := DocsConstImpl(item, NoCustomisations, toScreamingSnake);
            && r.Ok?
            && r.value.vis == item.vis
            && r.value.name == toScreamingSnake(item.ident) + "_DOCS"
            && r.value.docs == Util.Normalised(Util.Fragments(item.attrs), true)
  {
  }

  /** A custom name and visibility are used verbatim, whatever the item
      is called. */
  lemma CustomNameWins(item: Util.Item, c: AttrCustomisations, toScreamingSnake: string -> string)
    requires c.customName.Some? && c.customVis.Some?
    requires DocsConstImpl(item, c, toScreamingSnake).Ok?
    ensures DocsConstImpl(item, c, toScreamingSnake).value.name == c.customName.value
    ensures DocsConstImpl(item, c, toScreamingSnake).value.vis == c.customVis.value
  {
    var (itemVis, itemName, attrs) := Util.GetVisNameAttrs(item).value;
    var docs := Util.GetDocs(attrs, WithCustomisations(DefaultConfig(), c).trim);
    assert docs.Ok? && docs.value.Some?;
  }

  /** An item without any doc attribute is refused at the item's span. */
  lemma UndocumentedRefused(item: Util.Item, c: AttrCustomisations, toScreamingSnake: string -> string)
    requires item.Named? && Util.NoDocs(item.attrs)
    ensures DocsConstImpl(item, c, toScreamingSnake) == Err(Error(item.span, MissingDocsMsg))
  {
    assert Util.GetDocs(item.attrs, WithCustomisations(DefaultConfig(), c).trim) == Ok(None);
  }

  /** The item check comes first: an item that cannot carry docs is refused
      with its own message, even when its attributes are fine. */
  lemma UnsupportedItemFirst(item: Util.Item, c: AttrCustomisations, toScreamingSnake: string -> string)
    requires item.ImplItem?
    ensures DocsConstImpl(item, c, toScreamingSnake) == Err(Error(item.span, Util.UnsupportedItemMsg))
  {
  }

  /** `default_value` has no effect on a docs constant. */
  lemma DefaultValueIgnored(item: Util.Item, c: AttrCustomisations, e: Expr, toScreamingSnake: string -> string)
    ensures DocsConstImpl(item, c.(defaultValue := Some(e)), toScreamingSnake) == DocsConstImpl(item, c, toScreamingSnake)
  {
  }

  /** `trim = false` keeps the raw fragments joined by newlines. */
  lemma UntrimmedConst(item: Util.Item, c: AttrCustomisations, toScreamingSnake: string -> string)
    requires c.trim == Some(false)
    requires DocsConstImpl(item, c, toScreamingSnake).Ok?
    ensures var attrs := Util.GetVisNameAttrs(item).value.2;
            DocsConstImpl(item, c, toScreamingSnake).value.docs == Util.Normalised(Util.Fragments(attrs), false)
  {
    var attrs := Util.GetVisNameAttrs(item).value.2;
    var docs := Util.GetDocs(attrs, false);
    assert docs.Ok? && docs.value.Some?;
  }
}
