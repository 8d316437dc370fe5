/** documented-derive/src/lib.rs: the older derive crate's macros, with
    their generated code as data. Every target reads its own helper
    attribute over the container's config; docs are optional per field and
    per variant, and required for the whole item. */
module LegacyDerive {
  import opened Diag
  import opened Syntax
  import opened LegacyConfig
  import DeriveImpl
  import Util

  /** get_docs of the older crate: the same normaliser, with `trim` read
      from the config. */
  function GetDocs(attrs: seq<Attribute>, config: Config): (r: Result<Option<string>>)
    ensures r.Ok? <==> Util.AllDocsLiteral(attrs)
    ensures r == Ok(None) <==> Util.NoDocs(attrs)
    ensures r.Ok? && r.value.Some? ==> r.value.value == Util.Normalised(Util.Fragments(attrs), config.trim)
    ensures r.Err? ==> r.error == Error(attrs[Util.FirstBadDoc(attrs)].meta.valueSpan, Util.NotStringLiteralMsg)
  {
    Util.GetDocs(attrs, config.trim)
  }

  // ---------------------------------------------------------------------
  // Documented

  /** `documented`: the container's config, then its docs, which must be
      present; the error points at the type's name. */
  function Documented(input: DeriveImpl.DeriveInput): (r: Result<string>)
    ensures ConfigFrom(DefaultConfig(), input.attrs, "documented").Err? ==>
              r == Err(ConfigFrom(DefaultConfig(), input.attrs, "documented").error)
    ensures ConfigFrom(DefaultConfig(), input.attrs, "documented").Ok? ==>
              var docs := GetDocs(input.attrs, ConfigFrom(DefaultConfig(), input.attrs, "documented").value);
              && (docs.Err? ==> r == Err(docs.error))
              && (docs == Ok(None) ==> r == Err(Error(input.identSpan, DeriveImpl.MissingDocsMsg)))
              && (docs.Ok? && docs.value.Some? ==> r == Ok(docs.value.value))
  {
    var config :- ConfigFrom(DefaultConfig(), input.attrs, "documented");
    var docs :- GetDocs(input.attrs, config);
    if docs.None? then Err(Error(input.identSpan, DeriveImpl.MissingDocsMsg)) else Ok(docs.value)
  }

  // ---------------------------------------------------------------------
  // DocumentedFields

  /** The docs of one member, read with the container's config overlaid
      by the member's own attribute. */
  function MemberDocs(m: DeriveImpl.Member, base: Config, attrName: string): (r: Result<Option<string>>)
    ensures r.Ok? ==> (
              && ConfigFrom(base, m.attrs, attrName).Ok?
              && Ok(r.value) == GetDocs(m.attrs, ConfigFrom(base, m.attrs, attrName).value))
    ensures ConfigFrom(base, m.attrs, attrName).Ok? ==>
              r == GetDocs(m.attrs, ConfigFrom(base, m.attrs, attrName).value)
    ensures ConfigFrom(base, m.attrs, attrName).Err? ==> r == Err(ConfigFrom(base, m.attrs, attrName).error)
  {
    var config :- ConfigFrom(base, m.attrs, attrName);
    GetDocs(m.attrs, config)
  }

  /** Every member's docs in order; the first failure aborts. */
  function CollectDocs(ms: seq<DeriveImpl.Member>, base: Config, attrName: string): (r: Result<seq<Option<string>>>)
    ensures r.Ok? <==> forall i :: 0 <= i < |ms| ==> MemberDocs(ms[i], base, attrName).Ok?
    ensures r.Ok? ==> (
              && |r.value| == |ms|
              && forall i :: 0 <= i < |ms| ==> MemberDocs(ms[i], base, attrName) == Ok(r.value[i]))
    ensures r.Err? ==> exists i :: (
              && 0 <= i < |ms|
              && MemberDocs(ms[i], base, attrName) == Err(r.error)
              && forall j :: 0 <= j < i ==> MemberDocs(ms[j], base, attrName).Ok?)
  {
    var f := (m: DeriveImpl.Member) => MemberDocs(m, base, attrName);
    CollectMapped(ms, f);
    CollectResults(MapResults(ms, f))
  }

  /** `FIELD_DOCS` and the entries of the generated map. */
  datatype FieldsOutput = FieldsOutput(fieldDocs: seq<Option<string>>, arms: seq<DeriveImpl.Arm>)

  /** `documented_fields`: one optional doc string per member, in order,
      and an entry for every named member with its position. */
  function DocumentedFields(input: DeriveImpl.DeriveInput): (r: Result<FieldsOutput>)
    ensures r.Ok? ==> (
              && ConfigFrom(DefaultConfig(), input.attrs, "documented_fields").Ok?
              && var base := ConfigFrom(DefaultConfig(), input.attrs, "documented_fields").value;
                 var ms := DeriveImpl.Members(input.data);
                 && |r.value.fieldDocs| == |ms|
                 && (forall i :: 0 <= i < |ms| ==> MemberDocs(ms[i], base, "documented_fields") == Ok(r.value.fieldDocs[i]))
                 && r.value.arms == DeriveImpl.Arms(DeriveImpl.Idents(ms)))
    ensures ConfigFrom(DefaultConfig(), input.attrs, "documented_fields").Err? ==>
              r == Err(ConfigFrom(DefaultConfig(), input.attrs, "documented_fields").error)
    ensures ConfigFrom(DefaultConfig(), input.attrs, "documented_fields").Ok? ==>
              var base := ConfigFrom(DefaultConfig(), input.attrs, "documented_fields").value;
              var docs := CollectDocs(DeriveImpl.Members(input.data), base, "documented_fields");
              && (r.Ok? <==> docs.Ok?)
              && (docs.Err? ==> r == Err(docs.error))
  {
    var base :- ConfigFrom(DefaultConfig(), input.attrs, "documented_fields");
    var ms := DeriveImpl.Members(input.data);
    var docs :- CollectDocs(ms, base, "documented_fields");
    Ok(FieldsOutput(docs, DeriveImpl.Arms(DeriveImpl.Idents(ms))))
  }

  // ---------------------------------------------------------------------
  // DocumentedVariants

  /** What `get_variant_docs` returns for one variant. */
  datatype VariantResult = VariantDocs(docs: string) | NoDocComments(variant: string)

  datatype VariantArm = VariantArm(ident: string, shape: DeriveImpl.FieldsShape, result: VariantResult)

  /** `documented_variants`: only enums; one arm per variant, in order, the
      docs or `NoDocComments` with the variant's name. */
  function DocumentedVariants(input: DeriveImpl.DeriveInput): (r: Result<seq<VariantArm>>)
    ensures ConfigFrom(DefaultConfig(), input.attrs, "documented_variants").Err? ==>
              r == Err(ConfigFrom(DefaultConfig(), input.attrs, "documented_variants").error)
    ensures !input.data.EnumData? && ConfigFrom(DefaultConfig(), input.attrs, "documented_variants").Ok? ==>
              r == Err(Error(input.data.typeTokenSpan, DeriveImpl.VariantsOnlyMsg))
    ensures input.data.EnumData? && ConfigFrom(DefaultConfig(), input.attrs, "documented_variants").Ok? ==>
              var base := ConfigFrom(DefaultConfig(), input.attrs, "documented_variants").value;
              var docs := CollectDocs(DeriveImpl.Members(input.data), base, "documented_variants");
              && (r.Ok? <==> docs.Ok?)
              && (docs.Err? ==> r == Err(docs.error))
    ensures r.Ok? ==> (
              && input.data.EnumData?
              && ConfigFrom(DefaultConfig(), input.attrs, "documented_variants").Ok?
              && var vs := input.data.variants;
                 var base := ConfigFrom(DefaultConfig(), input.attrs, "documented_variants").value;
                 && |r.value| == |vs|
                 && forall i :: 0 <= i < |vs| ==> (
                      && r.value[i].ident == vs[i].ident
                      && r.value[i].shape == vs[i].shape
                      && MemberDocs(DeriveImpl.VariantMember(vs[i]), base, "documented_variants").Ok?
                      && var docs := MemberDocs(DeriveImpl.VariantMember(vs[i]), base, "documented_variants").value;
                         r.value[i].result == if docs.Some? then VariantDocs(docs.value) else NoDocComments(vs[i].ident)))
  {
    var base :- ConfigFrom(DefaultConfig(), input.attrs, "documented_variants");
    var vs :- match input.data
      case EnumData(vs) => Ok(vs)
      case StructData(_, s) => Err(Error(s, DeriveImpl.VariantsOnlyMsg))
      case UnionData(_, s) => Err(Error(s, DeriveImpl.VariantsOnlyMsg));
    var docs :- CollectDocs(DeriveImpl.Members(input.data), base, "documented_variants");
    Ok(seq(|vs|, i requires 0 <= i < |vs| =>
      VariantArm(vs[i].ident, vs[i].shape,
        if docs[i].Some? then VariantDocs(docs[i].value) else NoDocComments(vs[i].ident))))
  }

  // ---------------------------------------------------------------------
  // documented_function

  /** The function an attribute is applied to; `sigSpan` covers its
      signature. */
  datatype ItemFn = ItemFn(vis: Visibility, ident: string, attrs: seq<Attribute>, sigSpan: nat)

  /** The function unchanged, followed by `<vis> const <name>: &'static str = <docs>;`. */
  datatype FunctionConst = FunctionConst(item: ItemFn, vis: Visibility, name: string, docs: string)

  /** `char::to_uppercase` on ASCII letters; other characters unchanged. */
  function UpperChar(c: char): (u: char)
    ensures 'a' <= c <= 'z' ==> 'A' <= u <= 'Z' && u as int == c as int - 32
    ensures !('a' <= c <= 'z') ==> u == c
  {
    if 'a' <= c <= 'z' then (c as int - 32) as char else c
  }

  /** `str::to_uppercase`, character by character. */
  function Uppercase(s: string): (r: string)
    ensures |r| == |s| && forall i :: 0 <= i < |s| ==> r[i] == UpperChar(s[i])
  {
    if s == [] then [] else [UpperChar(s[0])] + Uppercase(s[1..])
  }

  /** `documented_function`: the attribute's arguments customise the
      default config; the docs must be present; the constant takes the
      function's visibility and its upper-cased name followed by `_DOCS`. */
  function DocumentedFunction(args: TokenStream, item: ItemFn): (r: Result<FunctionConst>)
    ensures ParsedCustomisations(args).Err? ==> r == Err(ParsedCustomisations(args).error)
    ensures ParsedCustomisations(args).Ok? ==>
              var docs := GetDocs(item.attrs, WithCustomisations(DefaultConfig(), ParsedCustomisations(args).value));
              && (docs.Err? ==> r == Err(docs.error))
              && (docs == Ok(None) ==> r == Err(Error(item.sigSpan, DeriveImpl.MissingDocsMsg)))
              && (docs.Ok? && docs.value.Some? ==>
                    r == Ok(FunctionConst(item, item.vis, Uppercase(item.ident) + "_DOCS", docs.value.value)))
  {
    var c :- ParsedCustomisations(args);
    var config := WithCustomisations(DefaultConfig(), c);
    var docs :- GetDocs(item.attrs, config);
    if docs.None? then Err(Error(item.sigSpan, DeriveImpl.MissingDocsMsg))
    else Ok(FunctionConst(item, item.vis, Uppercase(item.ident) + "_DOCS", docs.value))
  }

  // ---------------------------------------------------------------------
  // Lemmas

  /** A documented type without docs fails at its name. */
  lemma MissingDocsFail(input: DeriveImpl.DeriveInput)
    requires ConfigFrom(DefaultConfig(), input.attrs, "documented").Ok?
    requires Util.NoDocs(input.attrs)
    ensures Documented(input) == Err(Error(input.identSpan, DeriveImpl.MissingDocsMsg))
  {
  }

  /** A field without doc attributes gets `None`, never an error. */
  lemma UndocumentedFieldIsNone(m: DeriveImpl.Member, base: Config, attrName: string)
    requires ConfigFrom(base, m.attrs, attrName).Ok?
    requires Util.NoDocs(m.attrs)
    ensures MemberDocs(m, base, attrName) == Ok(None)
  {
  }

  /** A field's own `trim` wins over the container's; without one the
      container's setting is used. */
  lemma FieldTrimOverlay(m: DeriveImpl.Member, base: Config, attrName: string)
    requires GetConfigCustomisations(m.attrs, attrName).Ok?
    ensures var c := GetConfigCustomisations(m.attrs, attrName).value;
            ConfigFrom(base, m.attrs, attrName).value.trim ==
              if c.Some? && c.value.trim.Some? then c.value.trim.value else base.trim
  {
  }

  /** The generated constant name has no lower-case ASCII letter and ends
      in `_DOCS`. */
  lemma FunctionConstName(args: TokenStream, item: ItemFn)
    requires DocumentedFunction(args, item).Ok?
    ensures var n := DocumentedFunction(args, item).value.name;
            && |n| == |item.ident| + 5
            && n[|item.ident|..] == "_DOCS"
            && NoLower(n)
  {
    var c := ParsedCustomisations(args).value;
    var docs := GetDocs(item.attrs, WithCustomisations(DefaultConfig(), c));
    assert docs.Ok? && docs.value.Some?;
    assert DocumentedFunction(args, item).value.name == Uppercase(item.ident) + "_DOCS";
    ConstNameShape(item.ident);
  }

  lemma ConstNameShape(ident: string)
    ensures var n := Uppercase(ident) + "_DOCS";
            && |n| == |ident| + 5
            && n[|ident|..] == "_DOCS"
            && NoLower(n)
  {
    var u := Uppercase(ident);
    assert NoLower(u);
    assert NoLower("_DOCS") by {
      assert "_DOCS" == ['_', 'D', 'O', 'C', 'S'];
    }
    NoLowerConcat(u, "_DOCS");
    assert (u + "_DOCS")[|u|..] == "_DOCS";
  }

  /** No lower-case ASCII letter occurs in `s`. */
  predicate NoLower(s: string) {
    forall i :: 0 <= i < |s| ==> !('a' <= s[i] <= 'z')
  }

  lemma NoLowerConcat(a: string, b: string)
    requires NoLower(a) && NoLower(b)
    ensures NoLower(a + b)
  {
    assert forall i :: |a| <= i < |a + b| ==> (a + b)[i] == b[i - |a|];
  }

  /** Upper-casing twice is upper-casing once. */
  lemma {:induction false} UppercaseIdempotent(s: string)
    ensures Uppercase(Uppercase(s)) == Uppercase(s)
  {
    var u := Uppercase(s);
    assert forall i :: 0 <= i < |s| ==> UpperChar(u[i]) == u[i];
  }
}
