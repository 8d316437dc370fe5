/** documented-macros/src/util.rs: which items can carry a docs constant,
    and the doc-text normaliser shared by every macro. */
module Util {
  import opened Diag
  import opened Text
  import opened Syntax

  // ---------------------------------------------------------------------
  // Items

  /** The item kinds that have an identifier and a visibility. */
  datatype NamedKind =
    | ConstItem | EnumItem | ExternCrateItem | FnItem | ModItem | StaticItem
    | StructItem | TraitItem | TraitAliasItem | TypeItem | UnionItem

  /** An item an attribute macro is applied to. */
  datatype Item =
    | Named(kind: NamedKind, vis: Visibility, ident: string, attrs: seq<Attribute>, span: nat)
    | MacroItem(macroIdent: Option<string>, attrs: seq<Attribute>, span: nat)
    | ForeignModItem(span: nat)
    | ImplItem(span: nat)
    | UseItem(span: nat)
    | VerbatimItem(span: nat)
    | UnknownItem(span: nat)

  const MacroInvocationMsg := "Doc comments are not supported on macro invocations"
  const UnsupportedItemMsg := "Doc comments are not supported on this item"
  const VerbatimItemMsg := "Doc comments are not supported on items unknown to syn"
  const UnknownItemMsg := "This item is unknown to documented\nIf this item supports doc comments, consider submitting an issue or PR"

  /** The visibility, name and attributes of an item that can carry docs. */
  function GetVisNameAttrs(item: Item): (r: Result<(Visibility, string, seq<Attribute>)>)
    ensures r.Ok? <==> item.Named? || (item.MacroItem? && item.macroIdent.Some?)
    ensures item.Named? ==> r == Ok((item.vis, item.ident, item.attrs))
    ensures item.MacroItem? && item.macroIdent.Some? ==>
              r == Ok((Inherited, item.macroIdent.value, item.attrs))
    ensures item.MacroItem? && item.macroIdent.None? ==> r == Err(Error(item.span, MacroInvocationMsg))
    ensures item.ForeignModItem? || item.ImplItem? || item.UseItem? ==>
              r == Err(Error(item.span, UnsupportedItemMsg))
    ensures item.VerbatimItem? ==> r == Err(Error(item.span, VerbatimItemMsg))
    ensures item.UnknownItem? ==> r == Err(Error(item.span, UnknownItemMsg))
  {
    match item
    case Named(_, vis, ident, attrs, _) => Ok((vis, ident, attrs))
    case MacroItem(ident, attrs, span) =>
      if ident.Some? then Ok((Inherited, ident.value, attrs))
      else Err(Error(span, MacroInvocationMsg))
    case ForeignModItem(span) => Err(Error(span, UnsupportedItemMsg))
    case ImplItem(span) => Err(Error(span, UnsupportedItemMsg))
    case UseItem(span) => Err(Error(span, UnsupportedItemMsg))
    case VerbatimItem(span) => Err(Error(span, VerbatimItemMsg))
    case UnknownItem(span) => Err(Error(span, UnknownItemMsg))
  }

  // ---------------------------------------------------------------------
  // Doc attributes

  const NotStringLiteralMsg := "Doc comment is not a string literal"

  /** `#[doc = <value>]`, whatever the value. */
  predicate IsDoc(a: Attribute) {
    a.path == "doc" && a.meta.NameValueMeta?
  }

  /** A doc attribute whose value is not a string literal. */
  predicate IsBadDoc(a: Attribute) {
    IsDoc(a) && !(a.meta.value.LitExpr? && a.meta.value.lit.Str?)
  }

  predicate NoDocs(attrs: seq<Attribute>) {
    forall i :: 0 <= i < |attrs| ==> !IsDoc(attrs[i])
  }

  predicate AllDocsLiteral(attrs: seq<Attribute>) {
    forall i :: 0 <= i < |attrs| ==> !IsBadDoc(attrs[i])
  }

  /** The string of every doc attribute with a string-literal value, in
      declaration order. */
  function Fragments(attrs: seq<Attribute>): (r: seq<string>)
    ensures NoDocs(attrs) ==> r == []
  {
    if attrs == [] then []
    else
      var a := attrs[0];
      var rest := Fragments(attrs[1..]);
      if IsDoc(a) && !IsBadDoc(a) then [a.meta.value.lit.s] + rest else rest
  }

  /** The values of the doc attributes, each required to be a string
      literal; the first one that is not aborts the collection. */
  function StringLiterals(attrs: seq<Attribute>): (r: Result<seq<string>>)
    ensures r.Ok? <==> AllDocsLiteral(attrs)
    ensures r.Ok? ==> r.value == Fragments(attrs)
    ensures r.Err? ==> exists i :: 0 <= i < |attrs| && IsBadDoc(attrs[i]) &&
                          (forall j :: 0 <= j < i ==> !IsBadDoc(attrs[j])) &&
                          r.error == Error(attrs[i].meta.valueSpan, NotStringLiteralMsg)
  {
    if attrs == [] then Ok([])
    else
      var a := attrs[0];
      if IsBadDoc(a) then
        Err(Error(a.meta.valueSpan, NotStringLiteralMsg))
      else
        var r := StringLiterals(attrs[1..]);
        assert forall i :: 1 <= i < |attrs| ==> attrs[i] == attrs[1..][i - 1];
        if r.Err? then
          ghost var i :| 0 <= i < |attrs[1..]| && IsBadDoc(attrs[1..][i]) &&
                         (forall j :: 0 <= j < i ==> !IsBadDoc(attrs[1..][j])) &&
                         r.error == Error(attrs[1..][i].meta.valueSpan, NotStringLiteralMsg);
          assert IsBadDoc(attrs[i + 1]);
          r
        else if IsDoc(a) then Ok([a.meta.value.lit.s] + r.value)
        else r
  }

  /** The normalised text of non-empty fragments: with `trim`, every line
      of every fragment trimmed and all lines joined by a line feed;
      without it, the fragments joined verbatim by a line feed. */
  function Normalised(fragments: seq<string>, trim: bool): string
  {
    if trim then Join(TrimAll(Lines(fragments))) else Join(fragments)
  }

  /** get_docs: `None` without any doc attribute, an error on a doc value
      that is not a string literal, otherwise the normalised text. */
  function GetDocs(attrs: seq<Attribute>, trim: bool): (r: Result<Option<string>>)
    ensures r.Ok? <==> AllDocsLiteral(attrs)
    ensures r == Ok(None) <==> NoDocs(attrs)
    ensures r.Ok? && r.value.Some? ==>
              Fragments(attrs) != [] && r.value.value == Normalised(Fragments(attrs), trim)
    ensures r.Err? ==> r.error == Error(attrs[FirstBadDoc(attrs)].meta.valueSpan, NotStringLiteralMsg)
  {
    var lits := StringLiterals(attrs);
    if lits.Err? then
      FirstBadDocIsFirst(attrs);
      lits.PropagateFailure()
    else if lits.value == [] then
      FragmentsEmpty(attrs);
      Ok(None)
    else
      Ok(Some(Normalised(lits.value, trim)))
  }

  /** Index of the first doc attribute whose value is not a string literal. */
  function FirstBadDoc(attrs: seq<Attribute>): (i: nat)
    requires !AllDocsLiteral(attrs)
    ensures i < |attrs| && IsBadDoc(attrs[i])
    ensures forall j :: 0 <= j < i ==> !IsBadDoc(attrs[j])
  {
    if IsBadDoc(attrs[0]) then 0
    else
      assert forall i :: 1 <= i < |attrs| ==> attrs[i] == attrs[1..][i - 1];
      1 + FirstBadDoc(attrs[1..])
  }

  lemma FirstBadDocIsFirst(attrs: seq<Attribute>)
    requires !AllDocsLiteral(attrs)
    ensures StringLiterals(attrs).Err?
    ensures StringLiterals(attrs).error == Error(attrs[FirstBadDoc(attrs)].meta.valueSpan, NotStringLiteralMsg)
  {
    var r := StringLiterals(attrs);
    var i :| 0 <= i < |attrs| && IsBadDoc(attrs[i]) &&
             (forall j :: 0 <= j < i ==> !IsBadDoc(attrs[j])) &&
             r.error == Error(attrs[i].meta.valueSpan, NotStringLiteralMsg);
    var k := FirstBadDoc(attrs);
    assert !(i < k) && !(k < i);
  }

  /** Well-formed attributes yield no fragment exactly when none of them
      is a doc attribute. */
  lemma {:induction false} FragmentsEmpty(attrs: seq<Attribute>)
    requires AllDocsLiteral(attrs)
    ensures Fragments(attrs) == [] <==> NoDocs(attrs)
    decreases |attrs|
  {
    if attrs != [] {
      assert forall i :: 1 <= i < |attrs| ==> attrs[i] == attrs[1..][i - 1];
      FragmentsEmpty(attrs[1..]);
      if !IsDoc(attrs[0]) {
        assert NoDocs(attrs) <==> NoDocs(attrs[1..]);
      }
    }
  }

  // ---------------------------------------------------------------------
  // Properties of the normaliser

  /** Without trimming, the text is split into exactly the lines of the
      fragments, in order, whitespace included. */
  lemma VerbatimKeepsLines(fragments: seq<string>)
    requires fragments != []
    ensures Split(Normalised(fragments, false)) == Lines(fragments)
  {
    SplitOfJoin(fragments);
  }

  /** With trimming, line k of the text is the trim of line k of the
      fragments; so no line is dropped and none keeps leading or trailing
      whitespace. */
  lemma TrimmedLines(fragments: seq<string>)
    requires fragments != []
    ensures Split(Normalised(fragments, true)) == TrimAll(Lines(fragments))
    ensures |Split(Normalised(fragments, true))| == |Lines(fragments)|
    ensures forall k :: 0 <= k < |Lines(fragments)| ==>
              Split(Normalised(fragments, true))[k] == Trim(Lines(fragments)[k]) &&
              IsTrimmed(Split(Normalised(fragments, true))[k])
  {
    TrimmedText(fragments);
    var ls := Lines(fragments);
    var t := TrimAll(ls);
    assert forall k :: 0 <= k < |ls| ==> t[k] == Trim(ls[k]) && IsTrimmed(t[k]);
  }

  lemma TrimmedText(fragments: seq<string>)
    requires fragments != []
    ensures Split(Normalised(fragments, true)) == TrimAll(Lines(fragments))
  {
    var ls := Lines(fragments);
    LinesNotEmpty(fragments);
    LinesHaveNoNewline(fragments);
    TrimAllHasNoNewline(ls);
    SplitOfJoinLines(TrimAll(ls));
  }

  /** Both modes put (line feeds inside the fragments) + (fragments - 1)
      line feeds in the text. */
  lemma NewlineCount(fragments: seq<string>, trim: bool)
    requires fragments != []
    ensures Newlines(Normalised(fragments, trim)) == TotalNewlines(fragments) + |fragments| - 1
  {
    var d := Normalised(fragments, trim);
    SplitCount(d);
    LinesCount(fragments);
    if trim { TrimmedLines(fragments); } else { VerbatimKeepsLines(fragments); }
  }

  /** Trimming is idempotent: the trimmed text, taken as a single fragment,
      normalises to itself. */
  lemma TrimIdempotent(fragments: seq<string>)
    requires fragments != []
    ensures Normalised([Normalised(fragments, true)], true) == Normalised(fragments, true)
  {
    var d := Normalised(fragments, true);
    var ls := Split(d);
    assert forall k :: 0 <= k < |ls| ==> IsTrimmed(ls[k]) by {
      TrimmedLines(fragments);
    }
    TrimAllOfTrimmed(ls);
    LinesOfOne(d);
    JoinOfSplit(d);
  }

  lemma {:induction false} TrimAllOfTrimmed(ls: seq<string>)
    requires forall k :: 0 <= k < |ls| ==> IsTrimmed(ls[k])
    ensures TrimAll(ls) == ls
    decreases |ls|
  {
    if ls != [] {
      TrimAllOfTrimmed(ls[1..]);
    }
  }

  /** Frontend form of idempotence: one doc attribute holding the trimmed
      output reproduces it. */
  lemma GetDocsIdempotent(attrs: seq<Attribute>, d: string, span: nat, valueSpan: nat)
    requires GetDocs(attrs, true) == Ok(Some(d))
    ensures GetDocs([Attribute("doc", NameValueMeta(LitExpr(Str(d)), valueSpan), span)], true) == Ok(Some(d))
  {
    var fs := Fragments(attrs);
    assert fs != [] && d == Normalised(fs, true);
    SingleDoc(Attribute("doc", NameValueMeta(LitExpr(Str(d)), valueSpan), span), d);
    TrimIdempotent(fs);
  }

  /** One doc attribute holding the literal `d` normalises `[d]`. */
  lemma SingleDoc(a: Attribute, d: string)
    requires a.path == "doc" && a.meta.NameValueMeta? && a.meta.value == LitExpr(Str(d))
    ensures GetDocs([a], true) == Ok(Some(Normalised([d], true)))
  {
    assert [a][1..] == [];
    assert Fragments([a]) == [d];
    assert AllDocsLiteral([a]) && !NoDocs([a]);
  }

  lemma {:induction false} LinesNotEmpty(fragments: seq<string>)
    requires fragments != []
    ensures Lines(fragments) != []
  {
  }

  lemma {:induction false} LinesHaveNoNewline(fragments: seq<string>)
    ensures forall i :: 0 <= i < |Lines(fragments)| ==> NoNewline(Lines(fragments)[i])
    decreases |fragments|
  {
    if fragments != [] {
      SplitPiecesHaveNoNewline(fragments[0]);
      LinesHaveNoNewline(fragments[1..]);
      var a, b := Split(fragments[0]), Lines(fragments[1..]);
      assert forall i :: 0 <= i < |a + b| ==> (a + b)[i] == (if i < |a| then a[i] else b[i - |a|]);
    }
  }
}
